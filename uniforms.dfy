/** The uniform value model of a shader invocation and its resolution: a tree of
    named values whose leaves are literals or references into the asset graph,
    turned into a tree of concrete values. */
module Uniforms {
  import opened Common

  /** An `f32` as the model sees it. Literal floats keep their IEEE bits; the
      texture-size components the flattener derives are kept symbolic:
      `Dim(n)` stands for `n as f32` and `InvDim(n)` for `1.0 / (n as f32)`. */
  datatype F32 = Bits(bits: bv32) | Dim(n: u32) | InvDim(n: u32)

  /** Identity of an asset in the memoizing asset graph. */
  datatype Handle = Handle(id: nat)

  datatype TextureKey = TextureKey(width: u32, height: u32, format: u32)

  /** A texture produced by the asset graph; `image` and `view` are opaque GPU handles. */
  datatype Texture = Texture(key: TextureKey, image: nat, view: nat)

  /** A buffer produced by the asset graph; `buffer` is an opaque GPU handle. */
  datatype Buffer = Buffer(buffer: nat)

  /** An unresolved uniform value: literals, nested bundles, and references to assets. */
  datatype Value =
    | Float32(f: F32)
    | Uint32(u: u32)
    | Int32(i: i32)
    | Ivec2(x: i32, y: i32)
    | Vec4(v0: F32, v1: F32, v2: F32, v3: F32)
    | Bundle(holders: seq<Holder>)
    | Float32Asset(h: Handle)
    | Uint32Asset(h: Handle)
    | UsizeAsset(h: Handle)
    | TextureAsset(h: Handle)
    | BufferAsset(h: Handle)
    | BundleAsset(h: Handle)

  /** A named value. `shallowHash` is computed by an external hasher over the
      unresolved value; the model keeps it as an opaque field. */
  datatype Holder = Holder(name: string, value: Value, shallowHash: u64)

  /** The same variants after every asset reference has been fetched. */
  datatype ResolvedValue =
    | Float32(f: F32)
    | Uint32(u: u32)
    | Int32(i: i32)
    | Ivec2(x: i32, y: i32)
    | Vec4(v0: F32, v1: F32, v2: F32, v3: F32)
    | Bundle(holders: seq<ResolvedHolder>)
    | Float32Asset(f: F32)
    | Uint32Asset(u: u32)
    | UsizeAsset(n: u64)
    | TextureAsset(tex: Texture)
    | BufferAsset(buf: Buffer)
    | BundleAsset(holders: seq<ResolvedHolder>)

  datatype ResolvedHolder = ResolvedHolder(name: string, value: ResolvedValue)

  /** The asset graph's `get`, one typed lookup per kind of asset reference.
      Each lookup may fail with the error of the computation behind the handle. */
  datatype AssetGraph = AssetGraph(
    float32: Handle -> Result<F32, string>,
    uint32: Handle -> Result<u32, string>,
    usize: Handle -> Result<u64, string>,
    texture: Handle -> Result<Texture, string>,
    buffer: Handle -> Result<Buffer, string>,
    bundle: Handle -> Result<seq<Holder>, string>)

  datatype ResolveError =
    | AssetFailed(reason: string)   // the asset graph failed to produce a referenced asset
    | TooDeep                       // bundle assets nested deeper than the fuel bound

  /** A value that resolves without consulting the asset graph. */
  predicate IsLiteral(v: Value) {
    v.Float32? || v.Uint32? || v.Int32? || v.Ivec2? || v.Vec4?
  }

  /** `rv` is a faithful resolution of `v` with `fuel` levels of bundle assets
      to spare: a literal is cloned, an asset reference carries what the graph
      produced for its handle, and a bundle, nested or fetched, becomes a bundle
      of the same kind whose holders mirror its holders one by one. */
  ghost predicate Mirrors(g: AssetGraph, v: Value, rv: ResolvedValue, fuel: nat)
    decreases fuel, v, 1
  {
    match v
    case Float32(f) => rv == ResolvedValue.Float32(f)
    case Uint32(u) => rv == ResolvedValue.Uint32(u)
    case Int32(i) => rv == ResolvedValue.Int32(i)
    case Ivec2(x, y) => rv == ResolvedValue.Ivec2(x, y)
    case Vec4(a, b, c, d) => rv == ResolvedValue.Vec4(a, b, c, d)
    case Bundle(hs) => rv.Bundle? && MirrorsAll(g, hs, rv.holders, fuel)
    case Float32Asset(h) => g.float32(h).Ok? && rv == ResolvedValue.Float32Asset(g.float32(h).value)
    case Uint32Asset(h) => g.uint32(h).Ok? && rv == ResolvedValue.Uint32Asset(g.uint32(h).value)
    case UsizeAsset(h) => g.usize(h).Ok? && rv == ResolvedValue.UsizeAsset(g.usize(h).value)
    case TextureAsset(h) => g.texture(h).Ok? && rv == ResolvedValue.TextureAsset(g.texture(h).value)
    case BufferAsset(h) => g.buffer(h).Ok? && rv == ResolvedValue.BufferAsset(g.buffer(h).value)
    case BundleAsset(h) =>
      fuel > 0 && g.bundle(h).Ok? && rv.BundleAsset? && MirrorsAll(g, g.bundle(h).value, rv.holders, fuel - 1)
  }

  /** The resolved holders are the holders of `hs`, in order, with the same
      names and mirrored values. */
  ghost predicate MirrorsAll(g: AssetGraph, hs: seq<Holder>, rs: seq<ResolvedHolder>, fuel: nat)
    decreases fuel, hs, 0
  {
    |rs| == |hs| &&
    forall i :: 0 <= i < |hs| ==> rs[i].name == hs[i].name && Mirrors(g, hs[i].value, rs[i].value, fuel)
  }

  /** Resolves one value. A nested bundle is resolved element by element; a
      bundle asset is fetched and the fetched bundle is resolved in turn, which
      spends one unit of `fuel` (the asset graph is acyclic, but nothing in the
      value itself bounds the depth of that chain). */
  function ResolveValue(g: AssetGraph, v: Value, fuel: nat): (r: Result<ResolvedValue, ResolveError>)
    ensures r.Ok? ==> Mirrors(g, v, r.value, fuel)
    decreases fuel, v, 2
  {
    match v
    case Float32(f) => Ok(ResolvedValue.Float32(f))
    case Uint32(u) => Ok(ResolvedValue.Uint32(u))
    case Int32(i) => Ok(ResolvedValue.Int32(i))
    case Ivec2(x, y) => Ok(ResolvedValue.Ivec2(x, y))
    case Vec4(a, b, c, d) => Ok(ResolvedValue.Vec4(a, b, c, d))
    case Bundle(hs) =>
      (match ResolveBundle(g, hs, fuel)
       case Ok(rs) => Ok(ResolvedValue.Bundle(rs))
       case Err(e) => Err(e))
    case Float32Asset(h) =>
      (match g.float32(h)
       case Ok(x) => Ok(ResolvedValue.Float32Asset(x))
       case Err(e) => Err(AssetFailed(e)))
    case Uint32Asset(h) =>
      (match g.uint32(h)
       case Ok(x) => Ok(ResolvedValue.Uint32Asset(x))
       case Err(e) => Err(AssetFailed(e)))
    case UsizeAsset(h) =>
      (match g.usize(h)
       case Ok(x) => Ok(ResolvedValue.UsizeAsset(x))
       case Err(e) => Err(AssetFailed(e)))
    case TextureAsset(h) =>
      (match g.texture(h)
       case Ok(x) => Ok(ResolvedValue.TextureAsset(x))
       case Err(e) => Err(AssetFailed(e)))
    case BufferAsset(h) =>
      (match g.buffer(h)
       case Ok(x) => Ok(ResolvedValue.BufferAsset(x))
       case Err(e) => Err(AssetFailed(e)))
    case BundleAsset(h) =>
      if fuel == 0 then Err(TooDeep)
      else
        (match g.bundle(h)
         case Err(e) => Err(AssetFailed(e))
         case Ok(hs) =>
           (match ResolveBundle(g, hs, fuel - 1)
            case Ok(rs) => Ok(ResolvedValue.BundleAsset(rs))
            case Err(e) => Err(e)))
  }

  /** Resolves a holder: the name is kept, the value is resolved. */
  function ResolveHolder(g: AssetGraph, u: Holder, fuel: nat): (r: Result<ResolvedHolder, ResolveError>)
    ensures r.Ok? ==> r.value.name == u.name && Mirrors(g, u.value, r.value.value, fuel)
    decreases fuel, u, 1
  {
    match ResolveValue(g, u.value, fuel)
    case Ok(rv) => Ok(ResolvedHolder(u.name, rv))
    case Err(e) => Err(e)
  }

  /** Resolves a whole bundle: the same holders, in the same order, or the
      failure of one of them. The source resolves the holders concurrently and
      joins them; here they are resolved in order. */
  function ResolveBundle(g: AssetGraph, b: seq<Holder>, fuel: nat): (r: Result<seq<ResolvedHolder>, ResolveError>)
    ensures r.Ok? ==> MirrorsAll(g, b, r.value, fuel)
    decreases fuel, b, 0
  {
    if b == [] then Ok([])
    else
      match ResolveHolder(g, b[0], fuel)
      case Err(e) => Err(e)
      case Ok(first) =>
        match ResolveBundle(g, b[1..], fuel)
        case Err(e) => Err(e)
        case Ok(rest) => Ok([first] + rest)
  }

  /** The whole bundle fails exactly when one of its holders fails. */
  lemma {:induction false} ResolveBundleFailsIff(g: AssetGraph, b: seq<Holder>, fuel: nat)
    ensures ResolveBundle(g, b, fuel).Err? <==>
      exists i :: 0 <= i < |b| && ResolveHolder(g, b[i], fuel).Err?
    decreases |b|
  {
    if b != [] {
      ResolveBundleFailsIff(g, b[1..], fuel);
      if ResolveHolder(g, b[0], fuel).Ok? && ResolveBundle(g, b[1..], fuel).Err? {
        var j :| 0 <= j < |b[1..]| && ResolveHolder(g, b[1..][j], fuel).Err?;
        assert b[1..][j] == b[j + 1];
      }
      if exists i :: 0 <= i < |b| && ResolveHolder(g, b[i], fuel).Err? {
        var i :| 0 <= i < |b| && ResolveHolder(g, b[i], fuel).Err?;
        if i > 0 { assert b[1..][i - 1] == b[i]; }
      }
    }
  }

  /** On success, element `i` of the result is the resolution of holder `i`. */
  lemma {:induction false} ResolveBundleElement(g: AssetGraph, b: seq<Holder>, fuel: nat, i: nat)
    requires i < |b|
    requires ResolveBundle(g, b, fuel).Ok?
    ensures ResolveHolder(g, b[i], fuel) == Ok(ResolveBundle(g, b, fuel).value[i])
    decreases i
  {
    if i > 0 {
      ResolveBundleElement(g, b[1..], fuel, i - 1);
      assert b[1..][i - 1] == b[i];
    }
  }

  /** `Mirrors` is exactly what resolution computes: a resolved value mirrors
      `v` iff resolving `v` with the same fuel yields it. */
  lemma {:induction false} MirrorsResolves(g: AssetGraph, v: Value, rv: ResolvedValue, fuel: nat)
    ensures Mirrors(g, v, rv, fuel) <==> ResolveValue(g, v, fuel) == Ok(rv)
    decreases fuel, v, 1
  {
    if v.Bundle? && Mirrors(g, v, rv, fuel) {
      MirrorsAllResolves(g, v.holders, rv.holders, fuel);
    } else if v.BundleAsset? && Mirrors(g, v, rv, fuel) {
      MirrorsAllResolves(g, g.bundle(v.h).value, rv.holders, fuel - 1);
    }
  }

  /** `MirrorsAll` is exactly what resolving a bundle computes. */
  lemma {:induction false} MirrorsAllResolves(g: AssetGraph, hs: seq<Holder>, rs: seq<ResolvedHolder>, fuel: nat)
    ensures MirrorsAll(g, hs, rs, fuel) <==> ResolveBundle(g, hs, fuel) == Ok(rs)
    decreases fuel, hs, 0
  {
    if MirrorsAll(g, hs, rs, fuel) && hs != [] {
      MirrorsResolves(g, hs[0].value, rs[0].value, fuel);
      assert MirrorsAll(g, hs[1..], rs[1..], fuel) by {
        forall i | 0 <= i < |hs[1..]|
          ensures rs[1..][i].name == hs[1..][i].name && Mirrors(g, hs[1..][i].value, rs[1..][i].value, fuel)
        {
          assert hs[1..][i] == hs[i + 1] && rs[1..][i] == rs[i + 1];
        }
      }
      MirrorsAllResolves(g, hs[1..], rs[1..], fuel);
      assert rs == [rs[0]] + rs[1..];
    }
  }

  /** No asset reference anywhere in the tree. */
  ghost predicate AssetFree(b: seq<Holder>) {
    forall i :: 0 <= i < |b| ==> AssetFreeValue(b[i].value)
  }

  ghost predicate AssetFreeValue(v: Value) {
    IsLiteral(v) || (v.Bundle? && forall i :: 0 <= i < |v.holders| ==> AssetFreeValue(v.holders[i].value))
  }

  /** A bundle without asset references always resolves, whatever the asset
      graph and the fuel, and its literals come out unchanged. */
  lemma {:induction false} AssetFreeResolves(g: AssetGraph, b: seq<Holder>, fuel: nat)
    requires AssetFree(b)
    ensures ResolveBundle(g, b, fuel).Ok?
    decreases b
  {
    if b != [] {
      AssetFreeValueResolves(g, b[0].value, fuel);
      assert AssetFree(b[1..]) by {
        forall i | 0 <= i < |b[1..]| ensures AssetFreeValue(b[1..][i].value) {
          assert b[1..][i] == b[i + 1];
        }
      }
      AssetFreeResolves(g, b[1..], fuel);
    }
  }

  lemma {:induction false} AssetFreeValueResolves(g: AssetGraph, v: Value, fuel: nat)
    requires AssetFreeValue(v)
    ensures ResolveValue(g, v, fuel).Ok?
    decreases v
  {
    if v.Bundle? {
      AssetFreeResolves(g, v.holders, fuel);
    }
  }
}
