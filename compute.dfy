/** The data side of one compute dispatch: the resolved bundle gets the
    implicit output-texture holder, is flattened, and the `SetUniform` events
    are folded into a name-to-value map; the dispatch size comes from the
    output texture's dimensions. */
module ComputeTex {
  import opened Common
  import opened Uniforms
  import opened Flatten

  type UniformMap = map<string, ResolvedValue>

  /** Reserved name under which the output image is bound. */
  const OutputTexName: string := "outputTex"

  /** Work-group edge the dispatch assumes for every compute shader. */
  const GroupSize: nat := 8

  /** The sink of the dispatch: a `SetUniform` inserts (replacing any earlier
      value of that name), scope events are ignored. */
  function Insert(m: UniformMap, e: Event): UniformMap {
    if e.SetUniform? then m[e.name := e.value] else m
  }

  /** The map left after feeding `es` to the sink, starting from an empty map. */
  function FlatMap(es: seq<Event>): UniformMap {
    if es == [] then map[] else Insert(FlatMap(es[..|es| - 1]), es[|es| - 1])
  }

  predicate Sets(e: Event, name: string) {
    e.SetUniform? && e.name == name
  }

  /** Folds a stream into the map, one insertion per `SetUniform`. */
  method BuildFlatMap(events: seq<Event>) returns (m: UniformMap)
    ensures m == FlatMap(events)
  {
    m := map[];
    var i := 0;
    while i < |events|
      invariant 0 <= i <= |events|
      invariant m == FlatMap(events[..i])
    {
      if events[i].SetUniform? {
        m := m[events[i].name := events[i].value];
      }
      assert events[..i + 1][..i] == events[..i];
      i := i + 1;
    }
    assert events[..|events|] == events;
  }

  /** Last write wins: a name is in the map exactly when some event sets it,
      and its value is the one of the last event that does. */
  lemma {:induction false} LastWriteWins(es: seq<Event>, name: string)
    ensures name in FlatMap(es) <==> exists i :: 0 <= i < |es| && Sets(es[i], name)
    ensures name in FlatMap(es) ==>
      (exists i :: 0 <= i < |es| && es[i] == SetUniform(name, FlatMap(es)[name]) &&
        forall j :: i < j < |es| ==> !Sets(es[j], name))
  {
    if exists i :: 0 <= i < |es| && Sets(es[i], name) {
      var i :| 0 <= i < |es| && Sets(es[i], name);
      SetterInMap(es, name, i);
    }
    if name in FlatMap(es) {
      var i := LastWriter(es, name);
    }
  }

  /** An event setting `name` puts it in the map. */
  lemma {:induction false} SetterInMap(es: seq<Event>, name: string, i: nat)
    requires i < |es| && Sets(es[i], name)
    ensures name in FlatMap(es)
    decreases |es|
  {
    if i < |es| - 1 {
      var es' := es[..|es| - 1];
      assert es'[i] == es[i];
      SetterInMap(es', name, i);
    }
  }

  /** The event that gave `name` its value in the map: it sets that value,
      and no later event sets `name`. */
  lemma {:induction false} LastWriter(es: seq<Event>, name: string) returns (i: nat)
    requires name in FlatMap(es)
    ensures i < |es| && es[i] == SetUniform(name, FlatMap(es)[name])
    ensures forall j :: i < j < |es| ==> !Sets(es[j], name)
    decreases |es|
  {
    var es' := es[..|es| - 1];
    var last := es[|es| - 1];
    if Sets(last, name) {
      i := |es| - 1;
    } else {
      i := LastWriter(es', name);
      assert es[i] == es'[i];
      assert forall j :: i < j < |es'| ==> es[j] == es'[j];
    }
  }

  /** Events that never set `name` leave its entry as it was. */
  lemma {:induction false} UntouchedTail(a: seq<Event>, c: seq<Event>, name: string)
    requires forall j :: 0 <= j < |c| ==> !Sets(c[j], name)
    ensures name in FlatMap(a + c) <==> name in FlatMap(a)
    ensures name in FlatMap(a) ==> FlatMap(a + c)[name] == FlatMap(a)[name]
    decreases |c|
  {
    if c == [] {
      assert a + c == a;
    } else {
      var c' := c[..|c| - 1];
      UntouchedTail(a, c', name);
      assert (a + c)[..|a + c| - 1] == a + c';
    }
  }

  /** The implicit holder binding the output image. */
  function OutputHolder(output: Texture): ResolvedHolder {
    ResolvedHolder(OutputTexName, ResolvedValue.TextureAsset(output))
  }

  /** The uniform map of a dispatch: resolve the caller's bundle, append the
      output image, flatten, fold. A resolution failure aborts the dispatch. */
  method DispatchUniforms(g: AssetGraph, uniforms: seq<Holder>, output: Texture, fuel: nat)
    returns (r: Result<UniformMap, ResolveError>)
    ensures ResolveBundle(g, uniforms, fuel).Err? ==> r == Err(ResolveBundle(g, uniforms, fuel).error)
    ensures ResolveBundle(g, uniforms, fuel).Ok? ==>
      r == Ok(FlatMap(Flattened(ResolveBundle(g, uniforms, fuel).value + [OutputHolder(output)])))
  {
    var resolved := ResolveBundle(g, uniforms, fuel);
    if resolved.Err? {
      return Err(resolved.error);
    }
    var all := resolved.value + [OutputHolder(output)];
    var events := FlattenUniforms(all, []);
    assert [] + Flattened(all) == Flattened(all);
    var m := BuildFlatMap(events);
    r := Ok(m);
  }

  /** Unless a nested bundle sets them again, `outputTex` is bound to the
      output image and `outputTex_size` to its size vector, whatever the
      caller's top-level holders were called. */
  lemma {:induction false} OutputTexBound(resolved: seq<ResolvedHolder>, output: Texture)
    requires forall j :: 0 <= j < |ScopePhase(resolved)| ==> !Sets(ScopePhase(resolved)[j], OutputTexName)
    requires forall j :: 0 <= j < |ScopePhase(resolved)| ==> !Sets(ScopePhase(resolved)[j], OutputTexName + "_size")
    ensures var m := FlatMap(Flattened(resolved + [OutputHolder(output)]));
      OutputTexName in m && m[OutputTexName] == ResolvedValue.TextureAsset(output) &&
      OutputTexName + "_size" in m && m[OutputTexName + "_size"] == SizeUniform(output)
  {
    var h := OutputHolder(output);
    var all := resolved + [h];
    ConcatMapSnoc(resolved, h, Emit);
    assert all[..|all| - 1] == resolved;
    assert ScopePhase(all) == ScopePhase(resolved);
    var e1 := SetUniform(OutputTexName + "_size", SizeUniform(output));
    var e2 := SetUniform(OutputTexName, ResolvedValue.TextureAsset(output));
    var pre := ValuePhase(resolved) + [e1, e2];
    assert Flattened(all) == pre + ScopePhase(resolved);
    assert pre[..|pre| - 1] == ValuePhase(resolved) + [e1];
    assert (ValuePhase(resolved) + [e1])[..|pre| - 2] == ValuePhase(resolved);
    UntouchedTail(pre, ScopePhase(resolved), OutputTexName);
    UntouchedTail(pre, ScopePhase(resolved), OutputTexName + "_size");
  }

  /** Work groups dispatched for an output texture: `(width / 8, height / 8, 1)`
      with the division truncating. */
  function DispatchGroups(key: TextureKey): (r: (u32, u32, u32))
    ensures r.0 as int * GroupSize <= key.width as int < (r.0 as int + 1) * GroupSize
    ensures r.1 as int * GroupSize <= key.height as int < (r.1 as int + 1) * GroupSize
    ensures r.2 == 1
  {
    (key.width / 8, key.height / 8, 1)
  }

  /** The groups cover exactly the dimensions that are multiples of 8; any
      other width or height leaves an uncovered edge narrower than a group. */
  lemma {:induction false} DispatchCoverage(key: TextureKey)
    ensures var r := DispatchGroups(key);
      (r.0 as int * GroupSize == key.width as int <==> key.width as int % GroupSize == 0) &&
      (r.1 as int * GroupSize == key.height as int <==> key.height as int % GroupSize == 0)
  {
  }

  /** A 1024 x 768 output gets 128 x 96 groups; a 1023 x 767 output gets 127 x 95. */
  lemma {:induction false} DispatchExamples(format: u32)
    ensures DispatchGroups(TextureKey(1024, 768, format)) == (128, 96, 1)
    ensures DispatchGroups(TextureKey(1023, 767, format)) == (127, 95, 1)
  {
  }
}
