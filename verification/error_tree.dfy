/** An `NSError` seen as a tree: a domain, a code and the errors Foundation
    reports as `underlyingErrors` (the `NSUnderlyingErrorKey` entry followed by
    the `NSMultipleUnderlyingErrorsKey` list). The descriptive strings Foundation
    computes from `userInfo` are not part of this value; the encoder takes them
    as a parameter. */
module ErrorTree {
  import opened Wrappers

  datatype Err = Err(domain: string, code: int, underlying: seq<Err>)

  /** `NSError(domain:code:underlying:)`: `userInfo` holds exactly one underlying error. */
  function WithUnderlying(domain: string, code: int, error: Err): (r: Err)
    ensures r.domain == domain && r.code == code
    ensures |r.underlying| == 1 && r.underlying[0] == error
  {
    Err(domain, code, [error])
  }

  /** Every node of the tree, parents before children, children in order. */
  function Preorder(e: Err): (s: seq<Err>)
    ensures |s| >= 1 && s[0] == e
  {
    [e] + PreorderAll(e.underlying)
  }

  function PreorderAll(es: seq<Err>): seq<Err>
  {
    if |es| == 0 then [] else Preorder(es[0]) + PreorderAll(es[1..])
  }

  /** The wrapping node is listed first, then exactly the wrapped error's tree. */
  lemma WithUnderlyingPreorder(domain: string, code: int, error: Err)
    ensures Preorder(WithUnderlying(domain, code, error))
         == [WithUnderlying(domain, code, error)] + Preorder(error)
  {
    assert PreorderAll([error]) == Preorder(error) + PreorderAll([]);
  }

  // ---------------------------------------------------------------------------
  // forEachUnderlying as written

  /** What one call of `forEachUnderlying(action:)` does: the nodes `action` was
      applied to, in call order, and whether the call returned `()` (true) or
      `nil` (false). `action(x)` is false where the closure returns `nil`; the
      closure's answer depends on the node alone. */
  datatype Walk = Walk(visited: seq<Err>, finished: bool)

  /** The source's walk: `action(self)`; on `nil` stop; otherwise visit the
      children in order, where a child's `nil` only breaks this level's loop,
      and return `()` whatever the children returned. */
  function ForEachUnderlying(e: Err, action: Err -> bool): (w: Walk)
    ensures |w.visited| >= 1 && w.visited[0] == e
    ensures w.finished == action(e)
    ensures !action(e) ==> w.visited == [e]
  {
    if !action(e) then Walk([e], false)
    else Walk([e] + VisitSiblings(e.underlying, action), true)
  }

  /** The `for underlying in underlyingErrors` loop with its `break`. */
  function VisitSiblings(es: seq<Err>, action: Err -> bool): seq<Err>
  {
    if |es| == 0 then []
    else
      var w := ForEachUnderlying(es[0], action);
      if !w.finished then w.visited
      else w.visited + VisitSiblings(es[1..], action)
  }

  // ---------------------------------------------------------------------------
  // Subsequences and prefixes

  /** `a` can be obtained from `b` by deleting elements. */
  ghost predicate IsSubsequence<T>(a: seq<T>, b: seq<T>)
    decreases |b|
  {
    |a| == 0 || (|b| > 0 && ((a[0] == b[0] && IsSubsequence(a[1..], b[1..])) || IsSubsequence(a, b[1..])))
  }

  lemma {:induction false} SubsequenceOfLonger<T>(a: seq<T>, b: seq<T>, c: seq<T>)
    requires IsSubsequence(a, b)
    ensures IsSubsequence(a, b + c)
    decreases |b|
  {
    if |a| == 0 {
    } else if a[0] == b[0] && IsSubsequence(a[1..], b[1..]) {
      SubsequenceOfLonger(a[1..], b[1..], c);
      assert (b + c)[1..] == b[1..] + c;
    } else {
      SubsequenceOfLonger(a, b[1..], c);
      assert (b + c)[1..] == b[1..] + c;
    }
  }

  lemma {:induction false} SubsequenceAfterPrefix<T>(a: seq<T>, b: seq<T>, c: seq<T>)
    requires IsSubsequence(a, b)
    ensures IsSubsequence(a, c + b)
    decreases |c|
  {
    if |c| == 0 {
      assert c + b == b;
    } else if |a| > 0 {
      SubsequenceAfterPrefix(a, b, c[1..]);
      assert (c + b)[1..] == c[1..] + b;
    }
  }

  lemma {:induction false} SubsequenceConcat<T>(a1: seq<T>, b1: seq<T>, a2: seq<T>, b2: seq<T>)
    requires IsSubsequence(a1, b1) && IsSubsequence(a2, b2)
    ensures IsSubsequence(a1 + a2, b1 + b2)
    decreases |b1|
  {
    if |a1| == 0 {
      assert a1 + a2 == a2;
      SubsequenceAfterPrefix(a2, b2, b1);
    } else {
      assert (b1 + b2)[1..] == b1[1..] + b2;
      assert (a1 + a2)[1..] == a1[1..] + a2;
      if a1[0] == b1[0] && IsSubsequence(a1[1..], b1[1..]) {
        SubsequenceConcat(a1[1..], b1[1..], a2, b2);
      } else {
        SubsequenceConcat(a1, b1[1..], a2, b2);
      }
    }
  }

  lemma {:induction false} SubsequenceMembers<T>(a: seq<T>, b: seq<T>)
    requires IsSubsequence(a, b)
    ensures forall x :: x in a ==> x in b
    decreases |b|
  {
    if |a| > 0 {
      if a[0] == b[0] && IsSubsequence(a[1..], b[1..]) {
        SubsequenceMembers(a[1..], b[1..]);
        assert a == [a[0]] + a[1..];
        assert b == [b[0]] + b[1..];
      } else {
        SubsequenceMembers(a, b[1..]);
        assert b == [b[0]] + b[1..];
      }
    }
  }

  lemma {:induction false} SubsequenceLength<T>(a: seq<T>, b: seq<T>)
    requires IsSubsequence(a, b)
    ensures |a| <= |b|
    decreases |b|
  {
    if |a| > 0 {
      if a[0] == b[0] && IsSubsequence(a[1..], b[1..]) {
        SubsequenceLength(a[1..], b[1..]);
      } else {
        SubsequenceLength(a, b[1..]);
      }
    }
  }

  /** The nodes `action` sees form a subsequence of the pre-order listing: each
      node position is visited at most once, and never out of order. */
  lemma {:induction false} WalkFollowsPreorder(e: Err, action: Err -> bool)
    ensures IsSubsequence(ForEachUnderlying(e, action).visited, Preorder(e))
    decreases e, 1
  {
    if action(e) {
      SiblingsFollowPreorder(e.underlying, action);
      assert IsSubsequence([e], [e]) by {
        assert [e][1..] == [];
      }
      SubsequenceConcat([e], [e], VisitSiblings(e.underlying, action), PreorderAll(e.underlying));
    } else {
      assert [e][1..] == [];
      assert Preorder(e)[1..] == PreorderAll(e.underlying);
    }
  }

  lemma {:induction false} SiblingsFollowPreorder(es: seq<Err>, action: Err -> bool)
    ensures IsSubsequence(VisitSiblings(es, action), PreorderAll(es))
    decreases es, 0
  {
    if |es| > 0 {
      var w := ForEachUnderlying(es[0], action);
      WalkFollowsPreorder(es[0], action);
      if !w.finished {
        SubsequenceOfLonger(w.visited, Preorder(es[0]), PreorderAll(es[1..]));
      } else {
        SiblingsFollowPreorder(es[1..], action);
        SubsequenceConcat(w.visited, Preorder(es[0]), VisitSiblings(es[1..], action), PreorderAll(es[1..]));
      }
    }
  }

  /** Every element of `s` passes `action`. */
  predicate AllPass(s: seq<Err>, action: Err -> bool)
  {
    forall i :: 0 <= i < |s| ==> action(s[i])
  }

  /** When `action` never returns `nil`, the walk is the whole pre-order listing. */
  lemma {:induction false} WalkVisitsAll(e: Err, action: Err -> bool)
    requires AllPass(Preorder(e), action)
    ensures ForEachUnderlying(e, action) == Walk(Preorder(e), true)
    decreases e, 1
  {
    assert Preorder(e)[0] == e;
    var rest := PreorderAll(e.underlying);
    assert AllPass(rest, action) by {
      forall i | 0 <= i < |rest|
        ensures action(rest[i])
      {
        assert rest[i] == Preorder(e)[i + 1];
      }
    }
    SiblingsVisitAll(e.underlying, action);
  }

  lemma {:induction false} SiblingsVisitAll(es: seq<Err>, action: Err -> bool)
    requires AllPass(PreorderAll(es), action)
    ensures VisitSiblings(es, action) == PreorderAll(es)
    decreases es, 0
  {
    if |es| > 0 {
      var first := Preorder(es[0]);
      var rest := PreorderAll(es[1..]);
      assert PreorderAll(es) == first + rest;
      assert AllPass(first, action) by {
        forall i | 0 <= i < |first|
          ensures action(first[i])
        {
          assert first[i] == PreorderAll(es)[i];
        }
      }
      assert AllPass(rest, action) by {
        forall i | 0 <= i < |rest|
          ensures action(rest[i])
        {
          assert rest[i] == PreorderAll(es)[|first| + i];
        }
      }
      WalkVisitsAll(es[0], action);
      SiblingsVisitAll(es[1..], action);
    }
  }

  /** The pre-order listing up to and including the first node `action` rejects. */
  function UpToFirstStop(s: seq<Err>, action: Err -> bool): (t: seq<Err>)
    ensures |t| <= |s|
  {
    if |s| == 0 then []
    else if !action(s[0]) then [s[0]]
    else [s[0]] + UpToFirstStop(s[1..], action)
  }

  lemma {:induction false} UpToFirstStopConcat(a: seq<Err>, b: seq<Err>, action: Err -> bool)
    ensures UpToFirstStop(a + b, action)
         == if AllPass(a, action) then a + UpToFirstStop(b, action) else UpToFirstStop(a, action)
    decreases |a|
  {
    if |a| > 0 {
      assert (a + b)[0] == a[0];
      assert (a + b)[1..] == a[1..] + b;
      UpToFirstStopConcat(a[1..], b, action);
      if action(a[0]) {
        assert AllPass(a, action) <==> AllPass(a[1..], action) by {
          if AllPass(a[1..], action) {
            forall i | 0 <= i < |a|
              ensures action(a[i])
            {
              if i > 0 {
                assert a[i] == a[1..][i - 1];
              }
            }
          }
        }
        if AllPass(a, action) {
          assert a == [a[0]] + a[1..];
        }
      }
    } else {
      assert a + b == b;
    }
  }

  lemma {:induction false} UpToFirstStopAllPass(s: seq<Err>, action: Err -> bool)
    requires AllPass(s, action)
    ensures UpToFirstStop(s, action) == s
    decreases |s|
  {
    if |s| > 0 {
      assert AllPass(s[1..], action) by {
        forall i | 0 <= i < |s[1..]|
          ensures action(s[1..][i])
        {
          assert s[1..][i] == s[i + 1];
        }
      }
      UpToFirstStopAllPass(s[1..], action);
      assert s == [s[0]] + s[1..];
    }
  }

  /** Nothing the walk would see before its first `nil` is skipped: everything in
      pre-order up to the first rejected node is a prefix of what the walk visits. */
  lemma {:induction false} WalkReachesFirstStop(e: Err, action: Err -> bool)
    ensures UpToFirstStop(Preorder(e), action) <= ForEachUnderlying(e, action).visited
    decreases e, 1
  {
    assert Preorder(e)[0] == e;
    assert Preorder(e)[1..] == PreorderAll(e.underlying);
    if action(e) {
      SiblingsReachFirstStop(e.underlying, action);
    }
  }

  lemma {:induction false} SiblingsReachFirstStop(es: seq<Err>, action: Err -> bool)
    ensures UpToFirstStop(PreorderAll(es), action) <= VisitSiblings(es, action)
    decreases es, 0
  {
    if |es| > 0 {
      var w := ForEachUnderlying(es[0], action);
      var first := Preorder(es[0]);
      var rest := PreorderAll(es[1..]);
      UpToFirstStopConcat(first, rest, action);
      if AllPass(first, action) {
        WalkVisitsAll(es[0], action);
        SiblingsReachFirstStop(es[1..], action);
      } else {
        WalkReachesFirstStop(es[0], action);
      }
    }
  }

  // ---------------------------------------------------------------------------
  // firstUnderlying as written

  predicate Matches(e: Err, domain: string, code: int)
  {
    e.domain == domain && e.code == code
  }

  /** The closure `firstUnderlying` passes: `nil` exactly on a matching node. */
  function StopAt(domain: string, code: int): Err -> bool
  {
    x => !Matches(x, domain, code)
  }

  /** `found` after the closure has run on `visited` in order, starting from `found`:
      every matching node overwrites it. */
  function LastFound(visited: seq<Err>, domain: string, code: int, found: Option<Err>): (r: Option<Err>)
    ensures r.Some? ==> r == found || (r.value in visited && Matches(r.value, domain, code))
  {
    if |visited| == 0 then found
    else LastFound(visited[1..], domain, code,
                   if Matches(visited[0], domain, code) then Some(visited[0]) else found)
  }

  /** `firstUnderlying(domain:code:)` exactly as the source computes it. */
  function FirstUnderlyingAsWritten(e: Err, domain: string, code: int): Option<Err>
  {
    LastFound(ForEachUnderlying(e, StopAt(domain, code)).visited, domain, code, None)
  }

  lemma {:induction false} LastFoundKeepsMatch(visited: seq<Err>, domain: string, code: int, found: Option<Err>)
    requires found.Some?
    ensures LastFound(visited, domain, code, found).Some?
    decreases |visited|
  {
    if |visited| > 0 {
      LastFoundKeepsMatch(visited[1..], domain, code,
                          if Matches(visited[0], domain, code) then Some(visited[0]) else found);
    }
  }

  lemma {:induction false} LastFoundSeesMatch(visited: seq<Err>, domain: string, code: int, found: Option<Err>, i: nat)
    requires i < |visited| && Matches(visited[i], domain, code)
    ensures LastFound(visited, domain, code, found).Some?
    decreases |visited|
  {
    var next := if Matches(visited[0], domain, code) then Some(visited[0]) else found;
    if i == 0 {
      LastFoundKeepsMatch(visited[1..], domain, code, next);
    } else {
      LastFoundSeesMatch(visited[1..], domain, code, next, i - 1);
    }
  }

  /** `firstUnderlying` finds the receiver itself when the receiver matches. */
  lemma FirstUnderlyingAsWrittenSelf(e: Err, domain: string, code: int)
    requires Matches(e, domain, code)
    ensures FirstUnderlyingAsWritten(e, domain, code) == Some(e)
  {
    var visited := ForEachUnderlying(e, StopAt(domain, code)).visited;
    assert visited == [e];
    assert LastFound(visited, domain, code, None) == LastFound([], domain, code, Some(e)) by {
      assert visited[1..] == [];
    }
  }

  /** The source's result is a matching node of the tree, and it is `nil`
      exactly when no node of the tree, the receiver included, matches. */
  lemma FirstUnderlyingAsWrittenSound(e: Err, domain: string, code: int)
    ensures FirstUnderlyingAsWritten(e, domain, code).Some? ==>
              FirstUnderlyingAsWritten(e, domain, code).value in Preorder(e)
              && Matches(FirstUnderlyingAsWritten(e, domain, code).value, domain, code)
    ensures FirstUnderlyingAsWritten(e, domain, code).None? <==>
              forall x :: x in Preorder(e) ==> !Matches(x, domain, code)
  {
    var action := StopAt(domain, code);
    var visited := ForEachUnderlying(e, action).visited;
    WalkFollowsPreorder(e, action);
    SubsequenceMembers(visited, Preorder(e));
    if exists x :: x in Preorder(e) && Matches(x, domain, code) {
      var pre := Preorder(e);
      assert !AllPass(pre, action) by {
        var x :| x in pre && Matches(x, domain, code);
        var i :| 0 <= i < |pre| && pre[i] == x;
        assert !action(pre[i]);
      }
      var k := FirstStopIndex(pre, action);
      WalkReachesFirstStop(e, action);
      UpToFirstStopEndsAtStop(pre, action, k);
      var t := UpToFirstStop(pre, action);
      assert visited[|t| - 1] == t[|t| - 1];
      LastFoundSeesMatch(visited, domain, code, None, |t| - 1);
    }
  }

  /** Index of the first element `action` rejects, when there is one. */
  function FirstStopIndex(s: seq<Err>, action: Err -> bool): (k: nat)
    requires !AllPass(s, action)
    ensures k < |s| && !action(s[k])
    ensures forall i :: 0 <= i < k ==> action(s[i])
    decreases |s|
  {
    if !action(s[0]) then 0
    else
      assert !AllPass(s[1..], action) by {
        assert s == [s[0]] + s[1..];
        AllPassConcat([s[0]], s[1..], action);
      }
      1 + FirstStopIndex(s[1..], action)
  }

  lemma {:induction false} UpToFirstStopEndsAtStop(s: seq<Err>, action: Err -> bool, k: nat)
    requires k < |s| && !action(s[k])
    requires forall i :: 0 <= i < k ==> action(s[i])
    ensures UpToFirstStop(s, action) == s[..k + 1]
    decreases k
  {
    if k > 0 {
      UpToFirstStopEndsAtStop(s[1..], action, k - 1);
      assert s[..k + 1] == [s[0]] + s[1..][..k];
    }
  }

  // ---------------------------------------------------------------------------
  // The walk with its stop signal propagated, and firstUnderlying on top of it

  /** The evidently intended walk: a `nil` anywhere ends the whole walk, so the
      caller of every enclosing level sees `nil` too. */
  function ForEachUnderlyingStopping(e: Err, action: Err -> bool): Walk
  {
    if !action(e) then Walk([e], false)
    else
      var rest := VisitSiblingsStopping(e.underlying, action);
      Walk([e] + rest.visited, rest.finished)
  }

  function VisitSiblingsStopping(es: seq<Err>, action: Err -> bool): Walk
  {
    if |es| == 0 then Walk([], true)
    else
      var w := ForEachUnderlyingStopping(es[0], action);
      if !w.finished then w
      else
        var rest := VisitSiblingsStopping(es[1..], action);
        Walk(w.visited + rest.visited, rest.finished)
  }

  lemma {:induction false} AllPassConcat(a: seq<Err>, b: seq<Err>, action: Err -> bool)
    ensures AllPass(a + b, action) <==> AllPass(a, action) && AllPass(b, action)
  {
    if AllPass(a, action) && AllPass(b, action) {
      forall i | 0 <= i < |a + b|
        ensures action((a + b)[i])
      {
        if i >= |a| {
          assert (a + b)[i] == b[i - |a|];
        }
      }
    }
    if AllPass(a + b, action) {
      forall i | 0 <= i < |b|
        ensures action(b[i])
      {
        assert b[i] == (a + b)[|a| + i];
      }
      forall i | 0 <= i < |a|
        ensures action(a[i])
      {
        assert a[i] == (a + b)[i];
      }
    }
  }

  /** The propagating walk visits exactly the pre-order listing up to and
      including the first node `action` rejects, and finishes iff there is none. */
  lemma {:induction false} StoppingWalkIsPreorderPrefix(e: Err, action: Err -> bool)
    ensures ForEachUnderlyingStopping(e, action)
         == Walk(UpToFirstStop(Preorder(e), action), AllPass(Preorder(e), action))
    decreases e, 1
  {
    var pre := Preorder(e);
    assert pre[0] == e;
    assert pre[1..] == PreorderAll(e.underlying);
    if action(e) {
      StoppingSiblingsArePreorderPrefix(e.underlying, action);
      assert pre == [e] + PreorderAll(e.underlying);
      AllPassConcat([e], PreorderAll(e.underlying), action);
    }
  }

  lemma {:induction false} StoppingSiblingsArePreorderPrefix(es: seq<Err>, action: Err -> bool)
    ensures VisitSiblingsStopping(es, action)
         == Walk(UpToFirstStop(PreorderAll(es), action), AllPass(PreorderAll(es), action))
    decreases es, 0
  {
    if |es| > 0 {
      var first := Preorder(es[0]);
      var rest := PreorderAll(es[1..]);
      assert PreorderAll(es) == first + rest;
      var w := ForEachUnderlyingStopping(es[0], action);
      StoppingWalkIsPreorderPrefix(es[0], action);
      UpToFirstStopConcat(first, rest, action);
      AllPassConcat(first, rest, action);
      if AllPass(first, action) {
        StoppingSiblingsArePreorderPrefix(es[1..], action);
        UpToFirstStopAllPass(first, action);
        var tail := VisitSiblingsStopping(es[1..], action);
        assert VisitSiblingsStopping(es, action) == Walk(w.visited + tail.visited, tail.finished);
      } else {
        assert VisitSiblingsStopping(es, action) == w;
      }
    }
  }

  /** Reference definition: the first matching node of a listing. */
  function FirstMatch(s: seq<Err>, domain: string, code: int): (r: Option<Err>)
    ensures r.Some? <==> exists i :: 0 <= i < |s| && Matches(s[i], domain, code)
    ensures r.Some? ==> exists i :: 0 <= i < |s| && s[i] == r.value && Matches(s[i], domain, code)
                                    && forall j :: 0 <= j < i ==> !Matches(s[j], domain, code)
  {
    if |s| == 0 then None
    else if Matches(s[0], domain, code) then Some(s[0])
    else
      var r := FirstMatch(s[1..], domain, code);
      assert forall i :: 0 < i < |s| ==> s[i] == s[1..][i - 1];
      r
  }

  lemma {:induction false} LastFoundUpToFirstMatch(s: seq<Err>, domain: string, code: int)
    ensures LastFound(UpToFirstStop(s, StopAt(domain, code)), domain, code, None) == FirstMatch(s, domain, code)
    decreases |s|
  {
    if |s| > 0 {
      var t := UpToFirstStop(s, StopAt(domain, code));
      if Matches(s[0], domain, code) {
        assert t == [s[0]];
        assert t[1..] == [];
      } else {
        LastFoundUpToFirstMatch(s[1..], domain, code);
        assert t[1..] == UpToFirstStop(s[1..], StopAt(domain, code));
      }
    }
  }

  /** `firstUnderlying(domain:code:)` over the propagating walk: the first
      matching node in pre-order (the receiver first, then each underlying
      error's tree in turn), and `nil` exactly when nothing in the tree matches.
      This is what the name promises, and what the rest of this model uses. */
  function FirstUnderlying(e: Err, domain: string, code: int): (r: Option<Err>)
    ensures r == FirstMatch(Preorder(e), domain, code)
  {
    StoppingWalkIsPreorderPrefix(e, StopAt(domain, code));
    LastFoundUpToFirstMatch(Preorder(e), domain, code);
    LastFound(ForEachUnderlyingStopping(e, StopAt(domain, code)).visited, domain, code, None)
  }

  /** The stop signal of a grandchild does not reach the root: in
      `r[a[a1], b]` where only `a1` and `b` match, the source's walk goes on to
      `b` after stopping at `a1`, and `firstUnderlying` ends up with `b`, while
      the first match in pre-order is `a1`. */
  lemma FirstUnderlyingCounterexample()
    ensures var a1 := Err("x", 1, []);
            var b := Err("x", 1, [Err("y", 2, [])]);
            var r := Err("r", 0, [Err("a", 0, [a1]), b]);
            && ForEachUnderlying(r, StopAt("x", 1)) == Walk([r, Err("a", 0, [a1]), a1, b], true)
            && FirstUnderlyingAsWritten(r, "x", 1) == Some(b)
            && FirstUnderlying(r, "x", 1) == Some(a1)
            && a1 != b
  {
    var a1 := Err("x", 1, []);
    var b := Err("x", 1, [Err("y", 2, [])]);
    var a := Err("a", 0, [a1]);
    var r := Err("r", 0, [a, b]);
    var stop := StopAt("x", 1);
    assert ForEachUnderlying(a1, stop) == Walk([a1], false);
    assert VisitSiblings([a1], stop) == [a1];
    assert ForEachUnderlying(a, stop) == Walk([a, a1], true);
    assert ForEachUnderlying(b, stop) == Walk([b], false);
    assert VisitSiblings([b], stop) == [b];
    assert [a, b][1..] == [b];
    assert VisitSiblings([a, b], stop) == [a, a1, b];
    var visited := [r, a, a1, b];
    assert LastFound(visited, "x", 1, None) == Some(b) by {
      assert [b][1..] == [];
      assert LastFound([b], "x", 1, Some(a1)) == Some(b);
      assert [a1, b][1..] == [b];
      assert LastFound([a1, b], "x", 1, None) == Some(b);
      assert [a, a1, b][1..] == [a1, b];
      assert LastFound([a, a1, b], "x", 1, None) == Some(b);
      assert visited[1..] == [a, a1, b];
    }
    assert ForEachUnderlyingStopping(a1, stop) == Walk([a1], false);
    assert VisitSiblingsStopping([a1], stop) == Walk([a1], false);
    assert ForEachUnderlyingStopping(a, stop) == Walk([a, a1], false);
    assert VisitSiblingsStopping([a, b], stop) == Walk([a, a1], false);
    var stopped := [r, a, a1];
    assert LastFound(stopped, "x", 1, None) == Some(a1) by {
      assert [a1][1..] == [];
      assert LastFound([a1], "x", 1, None) == Some(a1);
      assert [a, a1][1..] == [a1];
      assert LastFound([a, a1], "x", 1, None) == Some(a1);
      assert stopped[1..] == [a, a1];
    }
  }
}
