/** The flattener: lowers a resolved, possibly nested bundle into an ordered
    stream of `SetUniform`, `EnterScope` and `LeaveScope` events, and the
    name-to-value map that the dispatch builds from that stream. */
module Flatten {
  import opened Common
  import opened Uniforms

  datatype Event = SetUniform(name: string, value: ResolvedValue) | EnterScope | LeaveScope

  predicate IsBundle(v: ResolvedValue) {
    v.Bundle? || v.BundleAsset?
  }

  /** `Vec4(width, height, 1/width, 1/height)` of a texture. */
  function SizeUniform(t: Texture): ResolvedValue {
    ResolvedValue.Vec4(Dim(t.key.width), Dim(t.key.height), InvDim(t.key.width), InvDim(t.key.height))
  }

  /** What a holder emits in the first phase of its level: nothing for a
      bundle, the size vector and then the texture for a texture, and the
      value under its own name for anything else. */
  function Emit(u: ResolvedHolder): seq<Event> {
    if IsBundle(u.value) then []
    else if u.value.TextureAsset? then
      [SetUniform(u.name + "_size", SizeUniform(u.value.tex)), SetUniform(u.name, u.value)]
    else [SetUniform(u.name, u.value)]
  }

  /** First phase of a level: every non-bundle holder, in order. */
  function ValuePhase(b: seq<ResolvedHolder>): seq<Event> {
    ConcatMap(b, Emit)
  }

  /** Second phase of a level: every bundle holder, in order, as a scope. */
  function ScopePhase(b: seq<ResolvedHolder>): seq<Event>
    decreases b, 0
  {
    if b == [] then [] else ScopePhase(b[..|b| - 1]) + Scope(b[|b| - 1])
  }

  /** A bundle holder opens a scope around the flattening of its contents. */
  function Scope(u: ResolvedHolder): seq<Event>
    decreases u
  {
    if IsBundle(u.value) then [EnterScope] + Flattened(u.value.holders) + [LeaveScope] else []
  }

  /** The event stream of a bundle. */
  function Flattened(b: seq<ResolvedHolder>): seq<Event>
    decreases b, 1
  {
    ValuePhase(b) + ScopePhase(b)
  }

  /** Moves the events of `uniforms` onto the end of a sink, the way the
      source's recursive two-loop traversal does: first the values of this
      level, then one scope per bundle. */
  method FlattenUniforms(uniforms: seq<ResolvedHolder>, sink: seq<Event>) returns (events: seq<Event>)
    ensures events == sink + Flattened(uniforms)
    decreases uniforms, 1
  {
    // Non-bundle values first, so that they are visible to bundle handlers.
    events := EmitValues(uniforms, sink);
    // Now the bundles.
    var j := 0;
    while j < |uniforms|
      invariant 0 <= j <= |uniforms|
      invariant events == sink + ValuePhase(uniforms) + ScopePhase(uniforms[..j])
    {
      var u := uniforms[j];
      ghost var before := events;
      if IsBundle(u.value) {
        events := events + [EnterScope];
        events := FlattenUniforms(u.value.holders, events);
        events := events + [LeaveScope];
        assert events == before + Scope(u);
      }
      assert ScopePhase(uniforms[..j + 1]) == ScopePhase(uniforms[..j]) + Scope(u) by {
        assert uniforms[..j + 1][..j] == uniforms[..j];
      }
      j := j + 1;
    }
    assert uniforms[..|uniforms|] == uniforms;
  }

  /** The first loop of the traversal: every non-bundle holder, in order. */
  method EmitValues(uniforms: seq<ResolvedHolder>, sink: seq<Event>) returns (events: seq<Event>)
    ensures events == sink + ValuePhase(uniforms)
  {
    events := sink;
    var i := 0;
    while i < |uniforms|
      invariant 0 <= i <= |uniforms|
      invariant events == sink + ValuePhase(uniforms[..i])
    {
      var u := uniforms[i];
      if IsBundle(u.value) {
      } else if u.value.TextureAsset? {
        var name, tex := u.name, u.value.tex;
        events := events + [SetUniform(name + "_size", SizeUniform(tex))];
        events := events + [SetUniform(name, ResolvedValue.TextureAsset(tex))];
      } else {
        events := events + [SetUniform(u.name, u.value)];
      }
      ConcatMapSnoc(uniforms[..i], u, Emit);
      assert uniforms[..i + 1] == uniforms[..i] + [u];
      i := i + 1;
    }
    assert uniforms[..|uniforms|] == uniforms;
  }

  // ---------------------------------------------------------------------------
  // Order within one level

  predicate IsScopeEvent(e: Event) {
    e.EnterScope? || e.LeaveScope?
  }

  /** Position in the stream of a bundle where holder `i` emits its first-phase events. */
  function ValueOffset(b: seq<ResolvedHolder>, i: nat): nat
    requires i <= |b|
  {
    |ValuePhase(b[..i])|
  }

  /** The first phase emits only `SetUniform` events. */
  lemma {:induction false} ValuePhaseHasNoScopes(b: seq<ResolvedHolder>)
    ensures forall k :: 0 <= k < |ValuePhase(b)| ==> ValuePhase(b)[k].SetUniform?
    decreases |b|
  {
    if b != [] {
      ValuePhaseHasNoScopes(b[..|b| - 1]);
      assert ValuePhase(b) == ValuePhase(b[..|b| - 1]) + Emit(b[|b| - 1]);
    }
  }

  /** Holder `i`'s first-phase events appear, unchanged, at `ValueOffset(b, i)`,
      and before the first `EnterScope` of the level. */
  lemma {:induction false} HolderEvents(b: seq<ResolvedHolder>, i: nat)
    requires i < |b|
    ensures var p := ValueOffset(b, i);
      p + |Emit(b[i])| <= |ValuePhase(b)| &&
      Flattened(b)[p .. p + |Emit(b[i])|] == Emit(b[i])
  {
    ConcatMapPiece(b, i, Emit);
  }

  /** Holders earlier in the bundle emit earlier in the stream. */
  lemma {:induction false} ValueOffsetMonotone(b: seq<ResolvedHolder>, i: nat, j: nat)
    requires i < j <= |b|
    ensures ValueOffset(b, i) + |Emit(b[i])| <= ValueOffset(b, j)
  {
    assert b[..j] == b[..i] + [b[i]] + b[i + 1..j];
    ConcatMapAppend(b[..i] + [b[i]], b[i + 1..j], Emit);
    ConcatMapSnoc(b[..i], b[i], Emit);
  }

  /** A texture named `n` yields `SetUniform(n + "_size", size)` immediately
      followed by `SetUniform(n, texture)`, before any scope of its level opens. */
  lemma {:induction false} TextureEventPair(b: seq<ResolvedHolder>, i: nat)
    requires i < |b| && b[i].value.TextureAsset?
    ensures var p := ValueOffset(b, i);
      p + 1 < |ValuePhase(b)| &&
      Flattened(b)[p] == SetUniform(b[i].name + "_size", SizeUniform(b[i].value.tex)) &&
      Flattened(b)[p + 1] == SetUniform(b[i].name, b[i].value)
  {
    HolderEvents(b, i);
    var p := ValueOffset(b, i);
    assert Flattened(b)[p] == Flattened(b)[p .. p + 2][0];
    assert Flattened(b)[p + 1] == Flattened(b)[p .. p + 2][1];
  }

  /** Any other non-bundle holder yields exactly one event under its own name. */
  lemma {:induction false} PlainEvent(b: seq<ResolvedHolder>, i: nat)
    requires i < |b| && !IsBundle(b[i].value) && !b[i].value.TextureAsset?
    ensures |Emit(b[i])| == 1
    ensures ValueOffset(b, i) < |ValuePhase(b)| &&
      Flattened(b)[ValueOffset(b, i)] == SetUniform(b[i].name, b[i].value)
  {
    HolderEvents(b, i);
    var p := ValueOffset(b, i);
    assert Flattened(b)[p] == Flattened(b)[p .. p + 1][0];
  }

  /** All `SetUniform` events of a level's own holders come before the level's
      first `EnterScope`, which opens the scope of the first bundle holder. */
  lemma {:induction false} ValuesBeforeScopes(b: seq<ResolvedHolder>)
    ensures forall k :: 0 <= k < |ValuePhase(b)| ==> Flattened(b)[k].SetUniform?
    ensures (exists i :: 0 <= i < |b| && IsBundle(b[i].value)) ==>
      |ValuePhase(b)| < |Flattened(b)| && Flattened(b)[|ValuePhase(b)|] == EnterScope
  {
    ValuePhaseHasNoScopes(b);
    ScopePhaseStart(b);
  }

  /** The second phase is empty exactly when the level has no bundle holder,
      and otherwise starts by opening a scope. */
  lemma {:induction false} ScopePhaseStart(b: seq<ResolvedHolder>)
    ensures ScopePhase(b) != [] <==> exists i :: 0 <= i < |b| && IsBundle(b[i].value)
    ensures ScopePhase(b) != [] ==> ScopePhase(b)[0] == EnterScope
    decreases |b|
  {
    if b != [] {
      var b' := b[..|b| - 1];
      ScopePhaseStart(b');
      if exists i :: 0 <= i < |b'| && IsBundle(b'[i].value) {
        var i :| 0 <= i < |b'| && IsBundle(b'[i].value);
        assert b[i] == b'[i];
      }
      if exists i :: 0 <= i < |b| && IsBundle(b[i].value) {
        var i :| 0 <= i < |b| && IsBundle(b[i].value);
        if i < |b| - 1 { assert b'[i] == b[i]; }
      }
    }
  }

  /** A bundle with neither nested bundles nor textures flattens to one
      `SetUniform` per holder, in holder order, and opens no scope. */
  lemma {:induction false} PlainBundleFlattens(b: seq<ResolvedHolder>)
    requires forall i :: 0 <= i < |b| ==> !IsBundle(b[i].value) && !b[i].value.TextureAsset?
    ensures Flattened(b) == seq(|b|, i requires 0 <= i < |b| => SetUniform(b[i].name, b[i].value))
  {
    ScopePhaseStart(b);
    PlainValuePhase(b);
  }

  lemma {:induction false} PlainValuePhase(b: seq<ResolvedHolder>)
    requires forall i :: 0 <= i < |b| ==> !IsBundle(b[i].value) && !b[i].value.TextureAsset?
    ensures ValuePhase(b) == seq(|b|, i requires 0 <= i < |b| => SetUniform(b[i].name, b[i].value))
    decreases |b|
  {
    if b != [] {
      var b' := b[..|b| - 1];
      PlainValuePhase(b');
      assert ValuePhase(b) == ValuePhase(b') + Emit(b[|b| - 1]);
    }
  }
}
