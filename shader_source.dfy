/** Shader source handling: where an `#include` directive points, and the
    text handed to the GLSL compiler. */
module ShaderSource {
  import opened Common

  /** An asset address: the crate that owns the asset and its path inside the crate. */
  datatype AssetPath = AssetPath(crateName: string, assetName: string)

  // ---------------------------------------------------------------------------
  // Include paths

  /** `"::"` starts at index `j` of `s`. */
  predicate IsSepAt(s: string, j: int) {
    0 <= j && j + 1 < |s| && s[j] == ':' && s[j + 1] == ':'
  }

  /** The character index of the first `"::"` in `s` at or after `from`. */
  function FindSepFrom(s: string, from: nat): (r: Option<nat>)
    ensures r.Some? ==>
      (from <= r.value && IsSepAt(s, r.value) && forall j :: from <= j < r.value ==> !IsSepAt(s, j))
    ensures r.None? ==> forall j :: from <= j ==> !IsSepAt(s, j)
    decreases |s| - from
  {
    if from + 1 >= |s| then None
    else if s[from] == ':' && s[from + 1] == ':' then Some(from)
    else FindSepFrom(s, from + 1)
  }

  /** The character index of the first `"::"` in `s`, if any. */
  function FindSep(s: string): (r: Option<nat>)
    ensures r.Some? ==> IsSepAt(s, r.value) && forall j :: 0 <= j < r.value ==> !IsSepAt(s, j)
    ensures r.None? ==> forall j :: 0 <= j ==> !IsSepAt(s, j)
  {
    FindSepFrom(s, 0)
  }

  /** The folder of an asset: everything before its last `/`, or the empty
      path when it has none. */
  function Parent(a: string): (r: string)
    ensures |r| <= |a| && r == a[..|r|]
  {
    if a == [] then []
    else if a[|a| - 1] == '/' then a[..|a| - 1]
    else Parent(a[..|a| - 1])
  }

  /** Appends a relative path to a folder, with a separator unless the folder is empty. */
  function Join(folder: string, path: string): string {
    if folder == [] then path else folder + "/" + path
  }

  /** An include without a crate prefix: a leading `/` is relative to the
      including crate's root, anything else to the including asset's folder. */
  function LocalInclude(path: string, ctx: AssetPath): AssetPath {
    if |path| > 0 && path[0] == '/' then AssetPath(ctx.crateName, path[1..])
    else AssetPath(ctx.crateName, Join(Parent(ctx.assetName), path))
  }

  /** Where an include directive `path`, found in asset `ctx`, points: a
      `crate::asset` path names its crate, otherwise the including crate. */
  function IncludePath(path: string, ctx: AssetPath): (r: AssetPath)
    ensures FindSep(path).Some? ==> r.crateName + "::" + r.assetName == path
    ensures FindSep(path).None? ==> r.crateName == ctx.crateName
  {
    match FindSep(path)
    case Some(k) => AssetPath(path[..k], path[k + 2..])
    case None => LocalInclude(path, ctx)
  }

  /** A `crate::asset` include splits at the first `"::"`: crate, separator and
      asset put back together give the path, and the crate contains no `"::"`. */
  lemma {:induction false} IncludeQualified(path: string, ctx: AssetPath, k: nat)
    requires IsSepAt(path, k)
    ensures var r := IncludePath(path, ctx);
      r.crateName + "::" + r.assetName == path &&
      (forall j :: 0 <= j < |r.crateName| ==> !IsSepAt(path, j)) &&
      |r.crateName| <= k
  {
    var i := FindSep(path).value;
    assert path == path[..i] + "::" + path[i + 2..];
  }

  /** An unqualified include with a leading `/` stays in the including crate
      and drops the `/`. */
  lemma {:induction false} IncludeRooted(path: string, ctx: AssetPath)
    requires FindSep(path).None? && |path| > 0 && path[0] == '/'
    ensures var r := IncludePath(path, ctx);
      r.crateName == ctx.crateName && "/" + r.assetName == path
  {
  }

  /** Any other include is resolved next to the including asset: same crate,
      and the asset's folder followed by the include path. */
  lemma {:induction false} IncludeRelative(path: string, ctx: AssetPath)
    requires FindSep(path).None? && !(|path| > 0 && path[0] == '/')
    ensures var r := IncludePath(path, ctx);
      r.crateName == ctx.crateName &&
      r.assetName == Join(Parent(ctx.assetName), path) &&
      Parent(ctx.assetName) <= ctx.assetName
  {
  }

  /** The folder is what comes before the last `/` of the asset; an asset
      without `/` lives at the crate root. */
  lemma {:induction false} ParentSplits(a: string)
    ensures (forall j :: 0 <= j < |a| ==> a[j] != '/') ==> Parent(a) == []
    ensures (exists j :: 0 <= j < |a| && a[j] == '/') ==>
      |Parent(a)| < |a| && a[|Parent(a)|] == '/' &&
      forall j :: |Parent(a)| < j < |a| ==> a[j] != '/'
    decreases |a|
  {
    if a != [] && a[|a| - 1] != '/' {
      var a' := a[..|a| - 1];
      ParentSplits(a');
      if exists j :: 0 <= j < |a| && a[j] == '/' {
        var j :| 0 <= j < |a| && a[j] == '/';
        assert a'[j] == '/';
      }
    }
  }

  // ---------------------------------------------------------------------------
  // The crate split as written

  /** Bytes of `c` in UTF-8. */
  function Utf8Len(c: char): nat {
    if c as int < 0x80 then 1 else if c as int < 0x800 then 2 else if c as int < 0x1_0000 then 3 else 4
  }

  /** Bytes of `s` in UTF-8: the index `str::find` reports for a match after `s`. */
  function ByteLen(s: string): (r: nat)
    ensures r >= |s|
  {
    if s == [] then 0 else ByteLen(s[..|s| - 1]) + Utf8Len(s[|s| - 1])
  }

  /** `chars().take(n)` and `chars().skip(n)`. */
  function TakeChars(s: string, n: nat): string {
    if n <= |s| then s[..n] else s
  }

  function SkipChars(s: string, n: nat): string {
    if n <= |s| then s[n..] else []
  }

  /** The include split of the source: the byte offset of `"::"` is used as a
      count of characters. */
  function IncludePathAsWritten(path: string, ctx: AssetPath): (r: AssetPath)
    ensures FindSep(path).None? ==> r == IncludePath(path, ctx)
    ensures FindSep(path).Some? ==> r.crateName <= path
  {
    match FindSep(path)
    case Some(k) =>
      var crateEnd := ByteLen(path[..k]);
      AssetPath(TakeChars(path, crateEnd), SkipChars(path, crateEnd + 2))
    case None => LocalInclude(path, ctx)
  }

  predicate IsAscii(s: string) {
    forall j :: 0 <= j < |s| ==> s[j] as int < 0x80
  }

  lemma {:induction false} AsciiByteLen(s: string)
    requires IsAscii(s)
    ensures ByteLen(s) == |s|
    decreases |s|
  {
    if s != [] {
      AsciiByteLen(s[..|s| - 1]);
    }
  }

  /** On ASCII paths the byte offset equals the character index, and the
      split as written is the intended one. */
  lemma {:induction false} AsciiIncludeAgrees(path: string, ctx: AssetPath)
    requires IsAscii(path)
    ensures IncludePathAsWritten(path, ctx) == IncludePath(path, ctx)
  {
    if FindSep(path).Some? {
      AsciiByteLen(path[..FindSep(path).value]);
    }
  }

  /** A two-byte character before `"::"` shifts the split by one: `é::a.glsl`
      yields crate `é:` and asset `.glsl` instead of crate `é` and asset `a.glsl`. */
  lemma {:induction false} NonAsciiIncludeDiffers(ctx: AssetPath)
    ensures IncludePathAsWritten("\U{E9}::a.glsl", ctx) == AssetPath("\U{E9}:", ".glsl")
    ensures IncludePath("\U{E9}::a.glsl", ctx) == AssetPath("\U{E9}", "a.glsl")
  {
    var p := "\U{E9}::a.glsl";
    assert IsSepAt(p, 1) && !IsSepAt(p, 0);
    assert FindSepFrom(p, 1) == Some(1);
    assert FindSep(p) == Some(1);
    assert p[..1] == "\U{E9}";
    assert ByteLen(p[..1]) == 2 by {
      assert p[..1][..0] == [];
    }
  }

  // ---------------------------------------------------------------------------
  // Shader text

  /** A piece of preprocessed source and the file it came from. */
  datatype SourceChunk = SourceChunk(source: string, file: string, lineOffset: nat)

  const VersionLine: string := "#version 430\n"

  function DigitChar(d: nat): (c: char)
    requires d < 10
    ensures '0' <= c <= '9' && (c as int) - ('0' as int) == d
  {
    (('0' as int) + d) as char
  }

  /** Decimal digits of `n`, without leading zeros: Rust's `{}` on an integer. */
  function NatToString(n: nat): (r: string)
    ensures |r| >= 1 && (|r| > 1 ==> r[0] != '0')
    ensures forall j :: 0 <= j < |r| ==> '0' <= r[j] <= '9'
  {
    if n < 10 then [DigitChar(n)] else NatToString(n / 10) + [DigitChar(n % 10)]
  }

  function ParseNat(s: string): nat
    requires forall j :: 0 <= j < |s| ==> '0' <= s[j] <= '9'
  {
    if s == [] then 0 else ParseNat(s[..|s| - 1]) * 10 + ((s[|s| - 1] as int) - ('0' as int))
  }

  /** Reading the digits back gives the number. */
  lemma {:induction false} ParseNatToString(n: nat)
    ensures ParseNat(NatToString(n)) == n
  {
    if n >= 10 {
      ParseNatToString(n / 10);
      var s := NatToString(n);
      assert s[..|s| - 1] == NatToString(n / 10);
    }
  }

  /** The header that restarts line numbering for the chunk numbered `k`. */
  function LineDirective(k: nat): string {
    "#line 0 " + NatToString(k) + "\n"
  }

  /** The header is `#line 0 `, the decimal digits of `k`, and a line break:
      reading the digits back gives `k`. */
  lemma {:induction false} LineDirectiveReadsBack(k: nat)
    ensures var r := LineDirective(k);
      |r| >= 10 && r[..8] == "#line 0 " && r[|r| - 1] == '\n' &&
      var digits := r[8..|r| - 1];
      (forall j :: 0 <= j < |digits| ==> '0' <= digits[j] <= '9') && ParseNat(digits) == k
  {
    var digits := NatToString(k);
    ParseNatToString(k);
    assert ("#line 0 " + digits + "\n")[8..8 + |digits|] == digits;
  }

  /** The chunks, each preceded by its header; chunk `i` is numbered `i + 1`. */
  function Body(chunks: seq<SourceChunk>): string {
    if chunks == [] then [] else Body(chunks[..|chunks| - 1]) + LineDirective(|chunks|) + chunks[|chunks| - 1].source
  }

  /** Every chunk adds a header of at least ten characters, and a non-empty
      body opens with the first chunk's header. */
  lemma {:induction false} BodyHeaders(chunks: seq<SourceChunk>)
    ensures |Body(chunks)| >= 10 * |chunks|
    ensures chunks != [] ==> |Body(chunks)| >= 8 && Body(chunks)[..8] == "#line 0 "
    decreases |chunks|
  {
    if chunks != [] {
      var n := |chunks| - 1;
      BodyHeaders(chunks[..n]);
      LineDirectiveReadsBack(|chunks|);
      var b, h := Body(chunks[..n]), LineDirective(|chunks|);
      if n > 0 {
        assert (b + h + chunks[n].source)[..8] == b[..8];
      } else {
        assert b == [];
        assert (b + h + chunks[n].source)[..8] == h[..8];
      }
    }
  }

  /** The compiler input: the version line, then the headed chunks. */
  function ShaderText(chunks: seq<SourceChunk>): (r: string)
    ensures |VersionLine| <= |r| && r[..|VersionLine|] == VersionLine
  {
    VersionLine + Body(chunks)
  }

  /** The text of the first chunks is a prefix of the text of all of them. */
  lemma {:induction false} BodyPrefix(chunks: seq<SourceChunk>, i: nat)
    requires i <= |chunks|
    ensures |Body(chunks[..i])| <= |Body(chunks)| && Body(chunks)[..|Body(chunks[..i])|] == Body(chunks[..i])
    decreases |chunks| - i
  {
    if i < |chunks| {
      BodyPrefix(chunks, i + 1);
      var c := chunks[..i + 1];
      assert c[..|c| - 1] == chunks[..i];
      var before, upTo, all := Body(chunks[..i]), Body(c), Body(chunks);
      assert upTo == before + LineDirective(i + 1) + chunks[i].source;
      SliceWithin(all, upTo, 0, |before|);
      assert upTo[..|before|] == before;
    } else {
      assert chunks[..i] == chunks;
    }
  }

  /** Chunk `i` appears in the text right after the chunks before it, as the
      header `#line 0 <i + 1>` followed by the chunk's source. */
  lemma {:induction false} ChunkAt(chunks: seq<SourceChunk>, i: nat)
    requires i < |chunks|
    ensures var t := ShaderText(chunks);
      var p := |VersionLine| + |Body(chunks[..i])|;
      var q := p + |LineDirective(i + 1)|;
      q + |chunks[i].source| <= |t| &&
      t[p .. q] == LineDirective(i + 1) && t[q .. q + |chunks[i].source|] == chunks[i].source
  {
    var c := chunks[..i + 1];
    assert c[..|c| - 1] == chunks[..i];
    BodyPrefix(chunks, i + 1);
    var b, h, src := Body(chunks[..i]), LineDirective(i + 1), chunks[i].source;
    var whole := Body(chunks);
    assert Body(c) == b + h + src;
    assert whole[..|b| + |h| + |src|] == b + h + src;
    SliceWithin(whole, b + h + src, |b|, |b| + |h|);
    SliceWithin(whole, b + h + src, |b| + |h|, |b| + |h| + |src|);
    SliceAfter(VersionLine, whole, |b|, |b| + |h|);
    SliceAfter(VersionLine, whole, |b| + |h|, |b| + |h| + |src|);
  }

  lemma {:induction false} SliceWithin<T>(whole: seq<T>, prefix: seq<T>, lo: nat, hi: nat)
    requires lo <= hi <= |prefix| <= |whole| && whole[..|prefix|] == prefix
    ensures whole[lo..hi] == prefix[lo..hi]
  {
    assert forall j :: lo <= j < hi ==> whole[j] == whole[..|prefix|][j];
  }

  lemma {:induction false} SliceAfter<T>(front: seq<T>, back: seq<T>, lo: nat, hi: nat)
    requires lo <= hi <= |back|
    ensures (front + back)[|front| + lo .. |front| + hi] == back[lo..hi]
  {
  }

  /** The text grows by exactly one header and one source per chunk. */
  lemma {:induction false} ShaderTextLength(chunks: seq<SourceChunk>)
    ensures |ShaderText(chunks)| == |VersionLine| + TotalLength(chunks)
    decreases |chunks|
  {
    if chunks != [] {
      ShaderTextLength(chunks[..|chunks| - 1]);
    }
  }

  function TotalLength(chunks: seq<SourceChunk>): nat {
    if chunks == [] then 0
    else TotalLength(chunks[..|chunks| - 1]) + |LineDirective(|chunks|)| + |chunks[|chunks| - 1].source|
  }
}
