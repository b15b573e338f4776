/** Scope structure of the flattener's event stream: `EnterScope`/`LeaveScope`
    are balanced, properly nested, as many as there are bundle holders at all
    depths, and the deepest point of the stream is the nesting depth of the
    input. */
module FlattenScopes {
  import opened Common
  import opened Uniforms
  import opened Flatten

  // ---------------------------------------------------------------------------
  // Measures of the input tree

  /** Number of bundle holders in `b`, at every depth. */
  function BundleCount(b: seq<ResolvedHolder>): nat
    decreases b, 0
  {
    if b == [] then 0 else BundleCount(b[..|b| - 1]) + HolderBundles(b[|b| - 1])
  }

  function HolderBundles(u: ResolvedHolder): nat
    decreases u
  {
    if IsBundle(u.value) then 1 + BundleCount(u.value.holders) else 0
  }

  /** How deeply bundles nest inside `b`: 0 for a bundle without nested bundles. */
  function NestDepth(b: seq<ResolvedHolder>): nat
    decreases b, 0
  {
    if b == [] then 0 else Max(NestDepth(b[..|b| - 1]), HolderDepth(b[|b| - 1]))
  }

  function HolderDepth(u: ResolvedHolder): nat
    decreases u
  {
    if IsBundle(u.value) then 1 + NestDepth(u.value.holders) else 0
  }

  function Max(x: int, y: int): int {
    if x < y then y else x
  }

  // ---------------------------------------------------------------------------
  // Measures of the event stream

  /** How many scopes are open after the events of `s`: enters minus leaves. */
  function Open(s: seq<Event>): int {
    if s == [] then 0 else Open(s[..|s| - 1]) + Step(s[|s| - 1])
  }

  function Step(e: Event): int {
    if e.EnterScope? then 1 else if e.LeaveScope? then -1 else 0
  }

  /** The largest number of scopes open at any point of `s`. */
  function Peak(s: seq<Event>): int {
    if s == [] then 0 else Max(Peak(s[..|s| - 1]), Open(s))
  }

  /** Properly nested: no prefix closes more scopes than it opened, and all are closed. */
  ghost predicate WellNested(s: seq<Event>) {
    Open(s) == 0 && forall k :: 0 <= k <= |s| ==> Open(s[..k]) >= 0
  }

  lemma {:induction false} OpenCounts(s: seq<Event>)
    ensures Open(s) == multiset(s)[EnterScope] as int - multiset(s)[LeaveScope] as int
    decreases |s|
  {
    if s != [] {
      OpenCounts(s[..|s| - 1]);
      assert s == s[..|s| - 1] + [s[|s| - 1]];
    }
  }

  /** `Peak` is the maximum of `Open` over all prefixes. */
  lemma {:induction false} PeakIsMaximum(s: seq<Event>)
    ensures forall k :: 0 <= k <= |s| ==> Open(s[..k]) <= Peak(s)
    ensures exists k :: 0 <= k <= |s| && Open(s[..k]) == Peak(s)
    decreases |s|
  {
    if s == [] {
      assert Open(s[..0]) == Peak(s);
    } else {
      var s' := s[..|s| - 1];
      PeakIsMaximum(s');
      forall k | 0 <= k <= |s| ensures Open(s[..k]) <= Peak(s) {
        if k < |s| { assert s[..k] == s'[..k]; } else { assert s[..k] == s; }
      }
      if Open(s) >= Peak(s') {
        assert s[..|s|] == s;
      } else {
        var k :| 0 <= k <= |s'| && Open(s'[..k]) == Peak(s');
        assert s[..k] == s'[..k];
      }
    }
  }

  lemma {:induction false} OpenAppend(a: seq<Event>, b: seq<Event>)
    ensures Open(a + b) == Open(a) + Open(b)
    decreases |b|
  {
    if b == [] {
      assert a + b == a;
    } else {
      var b' := b[..|b| - 1];
      OpenAppend(a, b');
      assert (a + b)[..|a + b| - 1] == a + b';
    }
  }

  lemma {:induction false} PeakAppend(a: seq<Event>, b: seq<Event>)
    ensures Peak(a + b) == Max(Peak(a), Open(a) + Peak(b))
    decreases |b|
  {
    PeakBounds(a);
    if b == [] {
      assert a + b == a;
    } else {
      var b' := b[..|b| - 1];
      PeakAppend(a, b');
      assert (a + b)[..|a + b| - 1] == a + b';
      OpenAppend(a, b);
    }
  }

  lemma {:induction false} PeakBounds(s: seq<Event>)
    ensures Peak(s) >= 0 && Peak(s) >= Open(s)
    decreases |s|
  {
    if s != [] {
      PeakBounds(s[..|s| - 1]);
    }
  }

  /** A stream of `SetUniform` events alone opens nothing at any point. */
  lemma {:induction false} NoScopesStayFlat(s: seq<Event>)
    requires forall k :: 0 <= k < |s| ==> s[k].SetUniform?
    ensures WellNested(s) && Peak(s) == 0
    ensures forall k :: 0 <= k <= |s| ==> Open(s[..k]) == 0
    decreases |s|
  {
    if s != [] {
      var s' := s[..|s| - 1];
      NoScopesStayFlat(s');
      forall k | 0 <= k <= |s| ensures Open(s[..k]) == 0 {
        if k < |s| { assert s[..k] == s'[..k]; } else { assert s[..k] == s; }
      }
    } else {
      assert s[..0] == s;
    }
  }

  lemma {:induction false} WellNestedAppend(a: seq<Event>, b: seq<Event>)
    requires WellNested(a) && WellNested(b)
    ensures WellNested(a + b)
  {
    OpenAppend(a, b);
    forall k | 0 <= k <= |a + b| ensures Open((a + b)[..k]) >= 0 {
      if k <= |a| {
        assert (a + b)[..k] == a[..k];
      } else {
        assert (a + b)[..k] == a + b[..k - |a|];
        OpenAppend(a, b[..k - |a|]);
        assert a[..|a|] == a;
      }
    }
  }

  lemma {:induction false} WellNestedWrap(s: seq<Event>)
    requires WellNested(s)
    ensures WellNested([EnterScope] + s + [LeaveScope])
  {
    var w := [EnterScope] + s + [LeaveScope];
    OpenAppend([EnterScope], s);
    OpenAppend([EnterScope] + s, [LeaveScope]);
    assert Open([EnterScope]) == 1 by { assert [EnterScope][..0] == []; }
    assert Open([LeaveScope]) == -1 by { assert [LeaveScope][..0] == []; }
    forall k | 0 <= k <= |w| ensures Open(w[..k]) >= 0 {
      if k == 0 {
        assert w[..k] == [];
      } else if k <= |s| + 1 {
        assert w[..k] == [EnterScope] + s[..k - 1];
        OpenAppend([EnterScope], s[..k - 1]);
      } else {
        assert w[..k] == w;
      }
    }
  }

  // ---------------------------------------------------------------------------
  // The flattener's stream

  /** The stream of a bundle is properly nested. */
  lemma {:induction false} FlattenedWellNested(b: seq<ResolvedHolder>)
    ensures WellNested(Flattened(b))
    decreases b, 1
  {
    ValuePhaseHasNoScopes(b);
    NoScopesStayFlat(ValuePhase(b));
    ScopePhaseWellNested(b);
    WellNestedAppend(ValuePhase(b), ScopePhase(b));
  }

  lemma {:induction false} ScopePhaseWellNested(b: seq<ResolvedHolder>)
    ensures WellNested(ScopePhase(b))
    decreases b, 0
  {
    if b == [] {
      assert ScopePhase(b)[..0] == [];
    } else {
      ScopePhaseWellNested(b[..|b| - 1]);
      ScopeWellNested(b[|b| - 1]);
      WellNestedAppend(ScopePhase(b[..|b| - 1]), Scope(b[|b| - 1]));
    }
  }

  lemma {:induction false} ScopeWellNested(u: ResolvedHolder)
    ensures WellNested(Scope(u))
    decreases u
  {
    if IsBundle(u.value) {
      FlattenedWellNested(u.value.holders);
      WellNestedWrap(Flattened(u.value.holders));
    } else {
      assert Scope(u)[..0] == [];
    }
  }

  /** There are as many `EnterScope` as `LeaveScope` events, one of each per
      bundle holder at every depth. */
  lemma {:induction false} FlattenedScopeCounts(b: seq<ResolvedHolder>)
    ensures multiset(Flattened(b))[EnterScope] == BundleCount(b)
    ensures multiset(Flattened(b))[LeaveScope] == BundleCount(b)
    decreases b, 1
  {
    ValuePhaseHasNoScopes(b);
    ValuePhaseCounts(ValuePhase(b));
    ScopePhaseCounts(b);
  }

  lemma {:induction false} ValuePhaseCounts(s: seq<Event>)
    requires forall k :: 0 <= k < |s| ==> s[k].SetUniform?
    ensures multiset(s)[EnterScope] == 0 && multiset(s)[LeaveScope] == 0
  {
  }

  lemma {:induction false} ScopePhaseCounts(b: seq<ResolvedHolder>)
    ensures multiset(ScopePhase(b))[EnterScope] == BundleCount(b)
    ensures multiset(ScopePhase(b))[LeaveScope] == BundleCount(b)
    decreases b, 0
  {
    if b != [] {
      var u := b[|b| - 1];
      ScopePhaseCounts(b[..|b| - 1]);
      if IsBundle(u.value) {
        FlattenedScopeCounts(u.value.holders);
      }
    }
  }

  /** Every prefix of the stream has opened at least as many scopes as it has
      closed, and the whole stream closes all it opens. */
  lemma {:induction false} ScopeBalance(b: seq<ResolvedHolder>)
    ensures var s := Flattened(b);
      multiset(s)[EnterScope] == multiset(s)[LeaveScope] &&
      forall k :: 0 <= k <= |s| ==> multiset(s[..k])[EnterScope] >= multiset(s[..k])[LeaveScope]
  {
    var s := Flattened(b);
    FlattenedWellNested(b);
    FlattenedScopeCounts(b);
    forall k | 0 <= k <= |s| ensures multiset(s[..k])[EnterScope] >= multiset(s[..k])[LeaveScope] {
      OpenCounts(s[..k]);
    }
  }

  /** The deepest point of the stream is exactly the nesting depth of the bundle. */
  lemma {:induction false} FlattenedPeak(b: seq<ResolvedHolder>)
    ensures Peak(Flattened(b)) == NestDepth(b)
    decreases b, 1
  {
    ValuePhaseHasNoScopes(b);
    NoScopesStayFlat(ValuePhase(b));
    PeakAppend(ValuePhase(b), ScopePhase(b));
    ScopePhasePeak(b);
  }

  lemma {:induction false} ScopePhasePeak(b: seq<ResolvedHolder>)
    ensures Peak(ScopePhase(b)) == NestDepth(b)
    decreases b, 0
  {
    if b != [] {
      var b' := b[..|b| - 1];
      ScopePhasePeak(b');
      ScopePhaseWellNested(b');
      ScopePeak(b[|b| - 1]);
      PeakAppend(ScopePhase(b'), Scope(b[|b| - 1]));
    }
  }

  lemma {:induction false} ScopePeak(u: ResolvedHolder)
    ensures Peak(Scope(u)) == HolderDepth(u)
    decreases u
  {
    if IsBundle(u.value) {
      var f := Flattened(u.value.holders);
      FlattenedPeak(u.value.holders);
      FlattenedWellNested(u.value.holders);
      PeakBounds(f);
      assert Peak([EnterScope]) == 1 && Open([EnterScope]) == 1 by { assert [EnterScope][..0] == []; }
      assert Peak([LeaveScope]) == 0 by { assert [LeaveScope][..0] == []; }
      PeakAppend([EnterScope], f);
      OpenAppend([EnterScope], f);
      PeakAppend([EnterScope] + f, [LeaveScope]);
    }
  }
}
