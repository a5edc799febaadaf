/** String primitives the calculator relies on: prefix tests, substring search,
    and the separator-based `split` and `join` of Python's `str` type. */
module Text {

  datatype Option<T> = None | Some(value: T)

  /** `s.startswith(p)` */
  predicate StartsWith(s: string, p: string)
  {
    |p| <= |s| && s[..|p|] == p
  }

  /** `s.endswith(p)` */
  predicate EndsWith(s: string, p: string)
  {
    |p| <= |s| && s[|s| - |p|..] == p
  }

  /** The separator `d` occurs in `s` starting at position `k`. */
  predicate OccursAt(s: string, d: string, k: nat)
  {
    k + |d| <= |s| && s[k..k + |d|] == d
  }

  /** `s` holds no occurrence of `d` at all. */
  predicate Free(s: string, d: string)
  {
    forall k: nat :: k <= |s| ==> !OccursAt(s, d, k)
  }

  lemma OccursInTail(s: string, d: string, k: nat)
    requires |s| > 0
    ensures OccursAt(s[1..], d, k) <==> OccursAt(s, d, k + 1)
  {
    if k + |d| <= |s[1..]| {
      assert s[1..][k..k + |d|] == s[k + 1..k + 1 + |d|];
    }
  }

  lemma OccursInPrefix(s: string, d: string, n: nat, k: nat)
    requires n <= |s|
    ensures OccursAt(s[..n], d, k) ==> OccursAt(s, d, k)
  {
    if k + |d| <= n {
      assert s[..n][k..k + |d|] == s[k..k + |d|];
    }
  }

  /** `s.find(d)` for a non-empty separator; `None` where Python returns -1. */
  function IndexOf(s: string, d: string): (r: Option<nat>)
    requires |d| > 0
    ensures r.Some? ==> r.value + |d| <= |s|
    decreases |s|
  {
    if |s| < |d| then None
    else if s[..|d|] == d then Some(0)
    else
      match IndexOf(s[1..], d)
      case None => None
      case Some(k) => Some(k + 1)
  }

  /** `find` reports the leftmost occurrence, and reports none only when
      there is none. */
  lemma {:induction false} IndexOfLeftmost(s: string, d: string)
    requires |d| > 0
    ensures IndexOf(s, d).Some? ==> OccursAt(s, d, IndexOf(s, d).value)
    ensures IndexOf(s, d).Some? ==> forall j: nat :: j < IndexOf(s, d).value ==> !OccursAt(s, d, j)
    ensures IndexOf(s, d).None? ==> Free(s, d)
    decreases |s|
  {
    if |s| >= |d| && s[..|d|] != d {
      IndexOfLeftmost(s[1..], d);
      assert !OccursAt(s, d, 0);
      forall k: nat | 0 < k ensures OccursAt(s, d, k) <==> OccursAt(s[1..], d, k - 1) {
        OccursInTail(s, d, k - 1);
      }
    }
  }

  /** Conversely, the leftmost occurrence is the one `find` reports. */
  lemma IndexOfFinds(s: string, d: string, k: nat)
    requires |d| > 0 && OccursAt(s, d, k)
    requires forall j: nat :: j < k ==> !OccursAt(s, d, j)
    ensures IndexOf(s, d) == Some(k)
  {
    IndexOfLeftmost(s, d);
  }

  /** And `find` reports nothing in text that holds no occurrence. */
  lemma IndexOfMisses(s: string, d: string)
    requires |d| > 0 && Free(s, d)
    ensures IndexOf(s, d) == None
  {
    IndexOfLeftmost(s, d);
  }

  /** `s.split(d)` for a non-empty separator: the pieces between the
      non-overlapping occurrences of `d`, found left to right. */
  function Split(s: string, d: string): (pieces: seq<string>)
    requires |d| > 0
    ensures |pieces| >= 1
    decreases |s|
  {
    var r := IndexOf(s, d);
    if r.None? then [s] else [s[..r.value]] + Split(s[r.value + |d|..], d)
  }

  /** No piece of a split holds the separator. */
  lemma {:induction false} SplitPiecesFree(s: string, d: string)
    requires |d| > 0
    ensures forall i :: 0 <= i < |Split(s, d)| ==> Free(Split(s, d)[i], d)
    decreases |s|
  {
    IndexOfLeftmost(s, d);
    match IndexOf(s, d)
    case None =>
    case Some(k) =>
      var tail := s[k + |d|..];
      SplitStep(s, d, k);
      assert Free(s[..k], d) by {
        forall j: nat | j <= k ensures !OccursAt(s[..k], d, j) {
          OccursInPrefix(s, d, k, j);
        }
      }
      SplitPiecesFree(tail, d);
      forall i | 0 < i < |Split(s, d)| ensures Free(Split(s, d)[i], d) {
        assert Split(s, d)[i] == Split(tail, d)[i - 1];
      }
  }

  /** `d.join(pieces)` */
  function Join(pieces: seq<string>, d: string): string
  {
    if |pieces| == 0 then ""
    else if |pieces| == 1 then pieces[0]
    else pieces[0] + d + Join(pieces[1..], d)
  }

  /** Number of non-overlapping occurrences of `d` in `s`, counted by a
      left-to-right scan that jumps over each occurrence it finds. */
  function CountOccurrences(s: string, d: string): nat
    requires |d| > 0
    decreases |s|
  {
    if |s| < |d| then 0
    else if s[..|d|] == d then 1 + CountOccurrences(s[|d|..], d)
    else CountOccurrences(s[1..], d)
  }

  lemma SplitStep(s: string, d: string, k: nat)
    requires |d| > 0 && IndexOf(s, d) == Some(k)
    ensures Split(s, d) == [s[..k]] + Split(s[k + |d|..], d)
  {
  }

  lemma JoinCons(p: string, rest: seq<string>, d: string)
    requires |rest| >= 1
    ensures Join([p] + rest, d) == p + d + Join(rest, d)
  {
    assert ([p] + rest)[1..] == rest;
  }

  /** Joining the pieces of a split with the same separator gives back the string. */
  lemma {:induction false} JoinSplit(s: string, d: string)
    requires |d| > 0
    ensures Join(Split(s, d), d) == s
    decreases |s|
  {
    match IndexOf(s, d)
    case None =>
    case Some(k) =>
      SplitStep(s, d, k);
      IndexOfLeftmost(s, d);
      var tail := s[k + |d|..];
      JoinCons(s[..k], Split(tail, d), d);
      JoinSplit(tail, d);
      assert s == s[..k] + s[k..k + |d|] + tail;
  }

  /** A scan that finds no occurrence before position `k` counts the same from `k`. */
  lemma {:induction false} CountSkips(s: string, d: string, k: nat)
    requires |d| > 0 && k <= |s|
    requires forall j: nat :: j < k ==> !OccursAt(s, d, j)
    ensures CountOccurrences(s, d) == CountOccurrences(s[k..], d)
    decreases k
  {
    if k > 0 {
      assert !OccursAt(s, d, 0);
      forall j: nat | j < k - 1 ensures !OccursAt(s[1..], d, j) {
        OccursInTail(s, d, j);
      }
      CountSkips(s[1..], d, k - 1);
      assert s[1..][k - 1..] == s[k..];
    }
  }

  /** A split yields one piece more than there are non-overlapping occurrences. */
  lemma {:induction false} SplitCount(s: string, d: string)
    requires |d| > 0
    ensures |Split(s, d)| == CountOccurrences(s, d) + 1
    decreases |s|
  {
    IndexOfLeftmost(s, d);
    match IndexOf(s, d)
    case None =>
      CountSkips(s, d, |s|);
      assert s[|s|..] == [];
    case Some(k) =>
      var tail := s[k + |d|..];
      SplitStep(s, d, k);
      SplitCount(tail, d);
      CountSkips(s, d, k);
      assert s[k..][..|d|] == d;
      assert s[k..][|d|..] == tail;
  }

  /** Text without the separator's first character holds no occurrence of it. */
  lemma FreeOfFirst(p: string, d: string)
    requires |d| > 0 && d[0] !in p
    ensures Free(p, d)
  {
    forall k: nat | k <= |p| ensures !OccursAt(p, d, k) {
      if k + |d| <= |p| { assert p[k..k + |d|][0] == p[k]; }
    }
  }

  /** In `p + d + rest`, with `d[0]` absent from `p`, `find` stops right after `p`. */
  lemma FindAfterPiece(p: string, d: string, rest: string)
    requires |d| > 0 && d[0] !in p
    ensures IndexOf(p + d + rest, d) == Some(|p|)
  {
    var s := p + d + rest;
    forall j: nat | j < |p| ensures !OccursAt(s, d, j) {
      if j + |d| <= |s| { assert s[j..j + |d|][0] == p[j]; }
    }
    assert OccursAt(s, d, |p|) by { assert s[|p|..|p| + |d|] == d; }
    IndexOfFinds(s, d, |p|);
  }

  /** When no piece holds the separator's first character, splitting the
      joined pieces recovers them. */
  lemma {:induction false} SplitJoin(pieces: seq<string>, d: string)
    requires |d| > 0 && |pieces| >= 1
    requires forall i :: 0 <= i < |pieces| ==> d[0] !in pieces[i]
    ensures Split(Join(pieces, d), d) == pieces
    decreases |pieces|
  {
    var p := pieces[0];
    if |pieces| == 1 {
      FreeOfFirst(p, d);
      IndexOfMisses(p, d);
    } else {
      var rest := Join(pieces[1..], d);
      var s := p + d + rest;
      assert pieces == [p] + pieces[1..];
      JoinCons(p, pieces[1..], d);
      FindAfterPiece(p, d, rest);
      SplitStep(s, d, |p|);
      assert s[..|p|] == p && s[|p| + |d|..] == rest;
      SplitJoin(pieces[1..], d);
    }
  }
}
