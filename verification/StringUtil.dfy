/** server/src/common/stringutil.cpp, split and replace, specified by one notion: the leftmost
    pieces of a string between occurrences of a delimiter. */
module StringUtils {
  import Common

  predicate OccursAt(s: string, d: string, i: nat) {
    i + |d| <= |s| && forall j :: 0 <= j < |d| ==> s[i + j] == d[j]
  }

  /** std::string::find from a position; -1 stands for npos. */
  function Find(s: string, d: string, from: nat): (r: int)
    requires from <= |s|
    ensures r == -1 || (from <= r && OccursAt(s, d, r))
    decreases |s| - from
  {
    if OccursAt(s, d, from) then from
    else if from == |s| then -1
    else Find(s, d, from + 1)
  }

  /** Nothing occurs before what is found. */
  lemma {:induction false} FindIsLeftmost(s: string, d: string, from: nat, i: nat)
    requires from <= i && OccursAt(s, d, i)
    ensures 0 <= Find(s, d, from) <= i
    decreases |s| - from
  {
    if from < i && !OccursAt(s, d, from) {
      FindIsLeftmost(s, d, from + 1, i);
    }
  }

  ghost predicate StartsLike(s: string, a: string) {
    |a| <= |s| && forall i :: 0 <= i < |a| ==> s[i] == a[i]
  }

  /** An occurrence in a prefix is one in the whole, and the reverse where it fits. */
  lemma OccursInPrefix(s: string, a: string, d: string, q: nat)
    requires StartsLike(s, a) && q + |d| <= |a|
    ensures OccursAt(s, d, q) <==> OccursAt(a, d, q)
  {
    assert forall j :: 0 <= j < |d| ==> (s[q + j] == d[j] <==> a[q + j] == d[j]);
  }

  predicate Free(s: string, d: string) {
    Find(s, d, 0) == -1
  }

  function Pieces(s: string, d: string): (ps: seq<string>)
    requires |d| > 0
    ensures |ps| >= 1
    decreases |s|
  {
    var p := Find(s, d, 0);
    if p == -1 then [s] else [s[..p]] + Pieces(s[p + |d|..], d)
  }

  function Join(ps: seq<string>, d: string): string
    requires |ps| >= 1
  {
    if |ps| == 1 then ps[0] else ps[0] + d + Join(ps[1..], d)
  }

  function NonEmpty(ps: seq<string>): (r: seq<string>)
  {
    if ps == [] then [] else (if |ps[0]| == 0 then [] else [ps[0]]) + NonEmpty(ps[1..])
  }

  lemma JoinCons(p: string, ps: seq<string>, d: string)
    requires |ps| >= 1
    ensures Join([p] + ps, d) == p + d + Join(ps, d)
  {
    assert ([p] + ps)[1..] == ps;
  }

  lemma NonEmptyCons(p: string, ps: seq<string>)
    ensures NonEmpty([p] + ps) == (if |p| == 0 then [] else [p]) + NonEmpty(ps)
    ensures NonEmpty([p]) == if |p| == 0 then [] else [p]
  {
    assert ([p] + ps)[1..] == ps && [p][1..] == [];
  }

  lemma {:induction false} NonEmptyConcat(ps: seq<string>, qs: seq<string>)
    ensures NonEmpty(ps + qs) == NonEmpty(ps) + NonEmpty(qs)
  {
    if |ps| == 0 {
      assert ps + qs == qs;
    } else {
      var head: seq<string> := if |ps[0]| == 0 then [] else [ps[0]];
      assert (ps + qs)[0] == ps[0] && (ps + qs)[1..] == ps[1..] + qs;
      NonEmptyConcat(ps[1..], qs);
      NonEmptyUnfold(ps, head);
      NonEmptyUnfold(ps + qs, head);
      Common.Associate(head, NonEmpty(ps[1..]), NonEmpty(qs));
    }
  }

  lemma NonEmptyUnfold(ps: seq<string>, head: seq<string>)
    requires |ps| > 0 && head == if |ps[0]| == 0 then [] else [ps[0]]
    ensures NonEmpty(ps) == head + NonEmpty(ps[1..])
  {
  }

  /** The pieces left are those of positive length, each as often, and by NonEmptyConcat in the
      order they had. */
  lemma {:induction false} NonEmptyKeeps(ps: seq<string>, x: string)
    ensures multiset(NonEmpty(ps))[x] == if |x| > 0 then multiset(ps)[x] else 0
  {
    if |ps| > 0 {
      var head: seq<string> := if |ps[0]| == 0 then [] else [ps[0]];
      NonEmptyKeeps(ps[1..], x);
      NonEmptyUnfold(ps, head);
      CountConcat(head, NonEmpty(ps[1..]), x);
      CountConcat([ps[0]], ps[1..], x);
      assert ps == [ps[0]] + ps[1..];
    }
  }

  lemma CountConcat(a: seq<string>, b: seq<string>, x: string)
    ensures multiset(a + b)[x] == multiset(a)[x] + multiset(b)[x]
  {
  }

  lemma CutAt(s: string, d: string, p: nat)
    requires OccursAt(s, d, p)
    ensures s[..p] + d + s[p + |d|..] == s
  {
    assert forall i :: p <= i < p + |d| ==> s[i] == d[i - p];
  }

  /** Putting the delimiter back between the pieces restores the string. */
  lemma {:induction false} JoinOfPieces(s: string, d: string)
    requires |d| > 0
    ensures Join(Pieces(s, d), d) == s
    decreases |s|
  {
    var p := Find(s, d, 0);
    if p != -1 {
      var rest := s[p + |d|..];
      JoinOfPieces(rest, d);
      JoinCons(s[..p], Pieces(rest, d), d);
      CutAt(s, d, p);
    }
  }

  /** No piece contains the delimiter. */
  lemma {:induction false} PiecesAreFree(s: string, d: string, i: nat)
    requires |d| > 0 && i < |Pieces(s, d)|
    ensures Free(Pieces(s, d)[i], d)
    decreases |s|
  {
    var p := Find(s, d, 0);
    if p != -1 {
      if i > 0 {
        PiecesAreFree(s[p + |d|..], d, i - 1);
      } else {
        var piece := s[..p];
        var q := Find(piece, d, 0);
        if q != -1 {
          OccursInPrefix(s, piece, d, q);
          FindIsLeftmost(s, d, 0, q);
        }
      }
    }
  }

  /** The pieces of joined strings are those strings exactly when no delimiter shows up early:
      none begins inside a string or across its end, and none lies in the last one. */
  ghost predicate Separable(ps: seq<string>, d: string)
    requires |ps| >= 1
  {
    && (forall i :: 0 <= i < |ps| - 1 ==> Find(ps[i] + d, d, 0) == |ps[i]|)
    && Free(ps[|ps| - 1], d)
  }

  lemma {:induction false} PiecesOfJoinIff(ps: seq<string>, d: string)
    requires |d| > 0 && |ps| >= 1
    ensures Pieces(Join(ps, d), d) == ps <==> Separable(ps, d)
    decreases |ps|
  {
    if |ps| > 1 {
      var rest := Join(ps[1..], d);
      PiecesOfJoinIff(ps[1..], d);
      PiecesOfConcat(ps[0], d, rest);
      SameHeadAndTail(Pieces(ps[0] + d + rest, d), ps);
      SeparableCons(ps, d);
    }
  }

  lemma SameHeadAndTail(x: seq<string>, y: seq<string>)
    requires |x| >= 1 && |y| >= 1
    ensures x == y <==> x[0] == y[0] && x[1..] == y[1..]
  {
    assert x == [x[0]] + x[1..] && y == [y[0]] + y[1..];
  }

  lemma SeparableCons(ps: seq<string>, d: string)
    requires |ps| > 1
    ensures Separable(ps, d) <==> Find(ps[0] + d, d, 0) == |ps[0]| && Separable(ps[1..], d)
  {
    assert forall i :: 1 <= i < |ps| ==> ps[i] == ps[1..][i - 1];
  }

  lemma PiecesOfConcat(a: string, d: string, rest: string)
    requires |d| > 0
    ensures Pieces(a + d + rest, d)[0] == a <==> Find(a + d, d, 0) == |a|
    ensures Find(a + d, d, 0) == |a| ==> Pieces(a + d + rest, d)[1..] == Pieces(rest, d)
  {
    var s := a + d + rest;
    FirstDelimiter(a, d, rest);
    var p := Find(s, d, 0);
    assert s[..|a|] == a && s[|a| + |d|..] == rest;
    assert Pieces(s, d)[0] == s[..p];
  }

  /** An occurrence that begins before the end of a lies within a followed by d. */
  lemma FirstDelimiter(a: string, d: string, rest: string)
    requires |d| > 0
    ensures Find(a + d + rest, d, 0) == Find(a + d, d, 0) <= |a|
    ensures Find(a + d, d, 0) >= 0
  {
    var s, t := a + d + rest, a + d;
    assert OccursAt(t, d, |a|);
    FindIsLeftmost(t, d, 0, |a|);
    var q := Find(t, d, 0);
    OccursInPrefix(s, t, d, q);
    FindIsLeftmost(s, d, 0, q);
    var p := Find(s, d, 0);
    OccursInPrefix(s, t, d, p);
    FindIsLeftmost(t, d, 0, p);
  }

  /** The last round of the loop of split. */
  lemma SplitLast(r: seq<string>, buf: string, d: string)
    requires |d| > 0 && Find(buf, d, 0) == -1
    ensures r + NonEmpty(Pieces(buf, d)) == if |buf| == 0 then r else r + [buf]
  {
    NonEmptyCons(buf, []);
  }

  /** Any other round: what is collected so far and what is still to come. */
  lemma SplitNext(r: seq<string>, buf: string, d: string, p: nat)
    requires |d| > 0 && Find(buf, d, 0) == p
    ensures r + NonEmpty(Pieces(buf, d))
            == (if p == 0 then r else r + [buf[..p]]) + NonEmpty(Pieces(buf[p + |d|..], d))
  {
    PiecesNext(buf, d, p);
    CollectNext(r, buf[..p], Pieces(buf[p + |d|..], d));
  }

  lemma PiecesNext(s: string, d: string, p: nat)
    requires |d| > 0 && Find(s, d, 0) == p
    ensures Pieces(s, d) == [s[..p]] + Pieces(s[p + |d|..], d)
  {
  }

  lemma CollectNext(r: seq<string>, p: string, rest: seq<string>)
    ensures r + NonEmpty([p] + rest) == (if |p| == 0 then r else r + [p]) + NonEmpty(rest)
  {
    NonEmptyCons(p, rest);
    Reassociate(r, p, NonEmpty(rest));
  }

  lemma Reassociate(r: seq<string>, p: string, rest: seq<string>)
    ensures r + ((if |p| == 0 then [] else [p]) + rest) == (if |p| == 0 then r else r + [p]) + rest
  {
  }

  /** StringUtil::split. A null delimiter is `hasDelimiter == false`; an empty one would never
      let the loop end, so the original demands a non-empty one. */
  method Split(str: string, v: seq<string>, hasDelimiter: bool, delimiter: string) returns (r: seq<string>)
    requires hasDelimiter ==> |delimiter| > 0
    ensures r == v + (if hasDelimiter then NonEmpty(Pieces(str, delimiter)) else [])
  {
    r := v;
    if !hasDelimiter {
      return;
    }
    ghost var all := v + NonEmpty(Pieces(str, delimiter));
    if |str| == 0 {
      SplitLast(v, str, delimiter);
      return;
    }
    var buf := str;
    var going := true;
    while going
      invariant going ==> r + NonEmpty(Pieces(buf, delimiter)) == all
      invariant !going ==> r == all
      decreases going, |buf|
    {
      var pos := Find(buf, delimiter, 0);
      if pos != -1 {
        SplitNext(r, buf, delimiter, pos);
        var substr := buf[..pos];
        if |substr| > 0 {
          r := r + [substr];
        }
        buf := buf[pos + |delimiter|..];
      } else {
        SplitLast(r, buf, delimiter);
        if |buf| > 0 {
          r := r + [buf];
        }
        going := false;
      }
    }
  }

  /** Leftmost, non-overlapping replacement on the original string. */
  function ReplaceAll(s: string, d: string, e: string): string
    requires |d| > 0
    decreases |s|, 1
  {
    var k := Find(s, d, 0);
    if k == -1 then s else ReplaceFrom(s, d, e, k)
  }

  /** The same, for a string whose first occurrence is at k. */
  function ReplaceFrom(s: string, d: string, e: string, k: nat): string
    requires |d| > 0 && k + |d| <= |s|
    decreases |s|, 0
  {
    s[..k] + e + ReplaceAll(s[k + |d|..], d, e)
  }

  /** Replacing is splitting at the old text and joining with the new. */
  lemma {:induction false} ReplaceIsSplitAndJoin(s: string, d: string, e: string)
    requires |d| > 0
    ensures ReplaceAll(s, d, e) == Join(Pieces(s, d), e)
    decreases |s|
  {
    var k := Find(s, d, 0);
    if k != -1 {
      var rest := s[k + |d|..];
      ReplaceIsSplitAndJoin(rest, d, e);
      JoinCons(s[..k], Pieces(rest, d), e);
    }
  }

  /** StringUtil::replace. Ends even when the new text contains the old one. */
  method Replace(str: string, toReplaced: string, newStr: string) returns (r: string)
    ensures r == if |toReplaced| == 0 || |newStr| == 0 then str else ReplaceAll(str, toReplaced, newStr)
  {
    r := str;
    if |toReplaced| == 0 || |newStr| == 0 {
      return;
    }
    var pos: nat := 0;
    var going := true;
    ghost var done, tail := [], str;
    ghost var result := ReplaceAll(str, toReplaced, newStr);
    while going
      invariant r == done + tail && pos == |done|
      invariant going ==> done + ReplaceAll(tail, toReplaced, newStr) == result
      invariant !going ==> r == result
      decreases going, |tail|
    {
      FindBehind(r, done, tail, toReplaced);
      var found := Find(r, toReplaced, pos);
      if found != -1 {
        done, tail := ReplaceStep(r, done, tail, toReplaced, newStr, found);
        r := r[..found] + newStr + r[found + |toReplaced|..];
        pos := found + |newStr|;
      } else {
        going := false;
      }
    }
  }

  lemma ReplaceStep(r: string, done: string, tail: string, d: string, e: string, found: nat)
    returns (done': string, tail': string)
    requires |d| > 0 && r == done + tail && |done| <= found && Find(tail, d, 0) == found - |done|
    ensures found + |d| <= |r| && |tail'| < |tail| && |done'| == found + |e|
    ensures done' + ReplaceAll(tail', d, e) == done + ReplaceAll(tail, d, e)
    ensures r[..found] + e + r[found + |d|..] == done' + tail'
  {
    var k := found - |done|;
    done', tail' := done + tail[..k] + e, tail[k + |d|..];
    ReplaceNext(tail, d, e, k);
    Regroup(done, tail[..k], e, ReplaceAll(tail', d, e));
    Slices(done, tail, e, k, |d|);
  }

  lemma ReplaceNext(s: string, d: string, e: string, k: nat)
    requires |d| > 0 && Find(s, d, 0) == k
    ensures k + |d| <= |s| && ReplaceAll(s, d, e) == ReplaceFrom(s, d, e, k)
  {
  }

  lemma Regroup(a: string, b: string, c: string, d: string)
    ensures a + b + c + d == a + (b + c + d)
  {
  }

  lemma Slices(done: string, tail: string, e: string, k: nat, n: nat)
    requires k + n <= |tail|
    ensures var r, found := done + tail, |done| + k;
            r[..found] + e + r[found + n..] == done + tail[..k] + e + tail[k + n..]
  {
  }

  /** Searching from a position is searching in the suffix. */
  lemma {:induction false} FindInSuffix(s: string, d: string, from: nat, k: nat := 0)
    requires from + k <= |s|
    ensures Find(s[from..], d, k) == if Find(s, d, from + k) == -1 then -1 else Find(s, d, from + k) - from
    decreases |s| - from - k
  {
    OccursInSuffix(s, d, from, k);
    if !OccursAt(s, d, from + k) && from + k < |s| {
      FindInSuffix(s, d, from, k + 1);
    }
  }

  lemma FindBehind(s: string, done: string, tail: string, d: string)
    requires s == done + tail
    ensures Find(tail, d, 0) == if Find(s, d, |done|) == -1 then -1 else Find(s, d, |done|) - |done|
  {
    FindInSuffix(s, d, |done|);
    assert s[|done|..] == tail;
  }

  lemma OccursInSuffix(s: string, d: string, from: nat, k: nat)
    requires from + k <= |s|
    ensures OccursAt(s[from..], d, k) <==> OccursAt(s, d, from + k)
  {
    if from + k + |d| <= |s| {
      assert forall j :: 0 <= j < |d| ==> (s[from..][k + j] == d[j] <==> s[from + k + j] == d[j]);
    }
  }

  /** Exchanging one delimiter for another keeps the pieces wherever they stay separable, and
      exchanging it for itself keeps the string. */
  lemma ReplaceChangesDelimiter(s: string, d: string, e: string)
    requires |d| > 0 && |e| > 0
    ensures Pieces(ReplaceAll(s, d, e), e) == Pieces(s, d) <==> Separable(Pieces(s, d), e)
    ensures ReplaceAll(s, d, d) == s
  {
    PiecesOfJoinIff(Pieces(s, d), e);
    JoinOfPieces(s, d);
    ReplaceIsSplitAndJoin(s, d, e);
    ReplaceIsSplitAndJoin(s, d, d);
  }
}
