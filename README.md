# rendertoy shader binding core, in Dafny

This project models the data side of rendertoy's compute-shader invocation in
`src/shader.rs`. A tree of named uniform values goes in. It is resolved
against the asset graph and flattened into an ordered stream of
`SetUniform` / `EnterScope` / `LeaveScope` events. That stream is folded into a
name-to-value map. From the map and the shader's reflected descriptor
bindings, the binder fills uniform-buffer regions and builds descriptor
writes. Two string helpers are modelled beside it: the resolution of
`#include` paths and the shader text handed to the GLSL compiler.

Modules:

- `Common` (common.dfy): `Result`, `Option`, `Outcome`, the Rust integer
  widths, and `ConcatMap` with its lemmas.
- `Uniforms` (uniforms.dfy): the uniform value enum, holders, and resolution
  against an abstract asset graph.
- `Flatten` (flatten.dfy): the two-phase flattener, as a recursive method
  proved against the `Flattened` function, and its ordering lemmas.
- `FlattenScopes` (scopes.dfy): scope balance, counts and nesting depth of
  the stream.
- `ComputeTex` (compute.dfy): the `compute_tex` data path. The implicit
  `outputTex` holder is appended, the map is built last-write-wins, and the
  dispatch size is computed.
- `Reflection` (reflection.dfy): reflected bindings as input data, and the
  layout classification of `generate_descriptor_set_layouts`.
- `Binder` (binder.dfy): `update_descriptor_sets`. Member bytes are copied
  into an arena region (an `array<bv8>`). The uniform arena and the device
  are classes. The descriptor writes are planned from the bindings.
- `ShaderSource` (shader_source.dfy): the path part of `get_include`, and
  `get_shader_text`.

Panics in the source are modelled as error values:

- `expect` on the arena becomes `ArenaExhausted`.
- `unimplemented!` on a member value becomes `UnsupportedMemberValue`.
- A failing `copy_from_slice` becomes `SizeMismatch`.
- An out-of-range slice becomes `SliceOutOfRange`.
- Indexing `descriptor_sets[0]` when it is empty becomes `NoDescriptorSet`.

## Model

| member | source | states |
|---|---|---|
| Uniforms.ResolveValue | src/shader.rs:52-62 | a resolved value mirrors its input at every depth: literals unchanged, assets replaced by what the graph returns, and a nested or fetched bundle resolved holder by holder, with the same names in the same order |
| Uniforms.ResolveHolder | src/shader.rs:126-131 | a resolved holder keeps its name and mirrors its value |
| Uniforms.ResolveBundle | src/shader.rs:137-152 | on success the result has the same length, and each element has the same name as the holder at that position and mirrors its value at every depth |
| Uniforms.ResolveBundleFailsIff | src/shader.rs:137-152 | the bundle fails exactly when some holder's resolution fails |
| Uniforms.ResolveBundleElement | src/shader.rs:137-152 | on success, element i is exactly the resolution of holder i |
| Uniforms.AssetFreeResolves | src/shader.rs:52-62 | a tree without asset references always resolves, whatever the graph |
| Uniforms.MirrorsResolves | src/shader.rs:52-62 | a resolved value mirrors `v` iff resolving `v` with the same fuel yields exactly that value |
| Uniforms.MirrorsAllResolves | src/shader.rs:137-152 | a sequence of resolved holders mirrors a bundle iff resolving the bundle yields exactly that sequence |
| Flatten.FlattenUniforms | src/shader.rs:781-845 | the recursive two-loop traversal appends exactly `Flattened(uniforms)` to the sink |
| Flatten.EmitValues | src/shader.rs:791-831 | the first loop appends the value phase of the level: one piece per non-bundle holder, in order |
| Flatten.HolderEvents | src/shader.rs:791-831 | holder i's events appear unchanged at its offset, inside the value phase |
| Flatten.ValueOffsetMonotone | src/shader.rs:791-831 | earlier holders emit strictly before later ones |
| Flatten.TextureEventPair | src/shader.rs:796-822 | a texture `n` yields `SetUniform(n+"_size", Vec4(w, h, 1/w, 1/h))` immediately followed by `SetUniform(n, tex)` |
| Flatten.PlainEvent | src/shader.rs:823-829 | any other non-bundle holder yields exactly one `SetUniform` with its own name and value |
| Flatten.ValuesBeforeScopes | src/shader.rs:791-844 | every event of the value phase is a `SetUniform`, and when the level has a bundle the first event after the value phase is `EnterScope` |
| Flatten.ScopePhaseStart | src/shader.rs:833-844 | the scope phase is non-empty iff the level has a bundle holder, and then starts with `EnterScope` |
| Flatten.PlainBundleFlattens | src/shader.rs:791-844 | a bundle of N plain holders flattens to N `SetUniform` events in holder order, with no scope |
| FlattenScopes.FlattenedWellNested | src/shader.rs:833-844 | the stream is well nested: no prefix closes more scopes than it opened, and all are closed |
| FlattenScopes.FlattenedScopeCounts | src/shader.rs:833-844 | the numbers of `EnterScope` and of `LeaveScope` both equal the number of bundle holders at all depths |
| FlattenScopes.ScopeBalance | src/shader.rs:833-844 | enters equal leaves, and every prefix has at least as many enters as leaves |
| FlattenScopes.FlattenedPeak | src/shader.rs:833-844 | the largest number of simultaneously open scopes equals the bundle nesting depth |
| FlattenScopes.OpenCounts | src/shader.rs:833-844 | the open-scope count of a stream is its enters minus its leaves |
| FlattenScopes.PeakIsMaximum | src/shader.rs:833-844 | the peak bounds the open count of every prefix and is reached by one |
| ComputeTex.BuildFlatMap | src/shader.rs:964-969 | the sink closure's insertions build exactly the fold `FlatMap` of the stream |
| ComputeTex.LastWriteWins | src/shader.rs:964-969 | a name is in the map iff some event sets it, and its value is that of the last event setting it |
| ComputeTex.UntouchedTail | src/shader.rs:964-969 | events that never set a name leave its entry as it was |
| ComputeTex.DispatchUniforms | src/shader.rs:945-969 | a resolution failure aborts; otherwise the map is the fold of the flattening of the resolved bundle with `outputTex` appended |
| ComputeTex.OutputTexBound | src/shader.rs:956-969 | unless a nested bundle sets them again, `outputTex` maps to the output image and `outputTex_size` to its size vector |
| ComputeTex.DispatchGroups | src/shader.rs:1020-1022 | the group counts are the truncated quotients of width and height by 8, and 1 |
| ComputeTex.DispatchCoverage | src/shader.rs:1020-1022 | the groups cover a dimension exactly iff it is a multiple of 8 |
| ComputeTex.DispatchExamples | src/shader.rs:1020-1022 | 1024 x 768 gives (128, 96, 1); 1023 x 767 gives (127, 95, 1) |
| Reflection.LayoutFor | src/shader.rs:363-381 | a uniform buffer becomes one dynamic-uniform-buffer binding and a storage image one storage-image binding, each with the same index and count; any other kind is dropped |
| Reflection.GenerateDescriptorSetLayouts | src/shader.rs:350-403 | one layout per reflected set, in set order, each the classification of that set's bindings |
| Reflection.SetLayoutLength | src/shader.rs:360-381 | a layout holds one binding per supported reflected binding |
| Reflection.SetLayoutPosition | src/shader.rs:360-381 | supported binding i lands at the position given by the supported bindings before it |
| Reflection.CountSupportedMonotone | src/shader.rs:360-381 | the positions of kept bindings strictly increase, so their relative order is preserved |
| Reflection.SetLayoutOrigin | src/shader.rs:360-381 | every layout binding comes from some supported reflected binding |
| Binder.MemberBytes | src/shader.rs:876-892 | `Float32` and `Float32Asset` give 4 bytes and `Vec4` gives 16 (its four encodings in order); every other kind gives none |
| Binder.WriteMember | src/shader.rs:872-892 | succeeds iff the member range fits, the value kind is copyable and its bytes have the member's size; then the range holds those bytes and every other byte is unchanged; each failure names the member |
| Binder.WriteMembers | src/shader.rs:870-894 | the member loop as a fold: on success the block keeps its size, and every failure is a member error |
| Binder.WriteMembersFrame | src/shader.rs:870-894 | bytes outside every written member range are unchanged |
| Binder.WriteMembersContent | src/shader.rs:870-894 | a written member that no later written member overlaps holds its value's bytes |
| Binder.WriteMembersOkIff | src/shader.rs:870-894 | the block fills without error iff every member whose name is in the map is writable; members absent from the map are skipped |
| Binder.ErrorPersists | src/shader.rs:870-894 | once a member write fails, the whole block write fails with that error |
| Binder.WriteBlock | src/shader.rs:870-894 | the in-place loop over members leaves the region equal to the pure fold, or fails with the fold's error |
| Binder.WriteMemberInPlace | src/shader.rs:872-886 | the in-place copy into the region equals the pure member write |
| Binder.UniformArena.Allocate | src/shader.rs:863-868 | a fresh region of the requested size; success iff it fits, and then the head advances by the size and the offset and the region are recorded together |
| Binder.Device.UpdateDescriptorSets | src/shader.rs:936-939 | the batch of writes is appended to the device's update log |
| Binder.WriteFor | src/shader.rs:896-932 | one binding yields at most one write, aimed at `ds` and the binding's slot; exactly one for a uniform block, and exactly one for a storage image the map holds a texture for |
| Binder.PlannedWrites | src/shader.rs:857-933 | the bindings yield at most one write each, all aimed at `ds` |
| Binder.BindUniformBlock | src/shader.rs:863-894 | without room the arena is unchanged and the result is `ArenaExhausted`; with room, the head advances by the block size and the offset and fresh region are recorded together, and the region then holds the member writes or the first member error is returned |
| Binder.BindBinding | src/shader.rs:862-933 | a failure comes only from a uniform block that does not fit or is not writable; on success the new arena regions hold the written bytes, and the binding contributes its write, its offset and its filled region |
| Binder.StorageImageWrite | src/shader.rs:912-931 | a storage image produces a write iff the map holds a texture under the binding's name, and that write names the texture's view |
| Binder.UniformBlockWrite | src/shader.rs:896-911 | a uniform block always produces a dynamic-uniform-buffer write of its block size into the arena buffer |
| Binder.UnsupportedNoWrite | src/shader.rs:932 | any other descriptor kind adds no write |
| Binder.WritesTargetOneSet | src/shader.rs:857-858 | every write targets the first descriptor set and comes from some supported binding |
| Binder.BindSet | src/shader.rs:859-933 | walking one set's bindings adds one arena region per uniform block that holds that block's member writes, and plans exactly its writes, or fails with a reason the bindings explain |
| Binder.BindSetAt | src/shader.rs:857-934 | binding one more set extends the writes, offsets and stored regions of the sets before it, or fails for a reason all the bindings explain |
| Common.TruncateU32 | src/shader.rs:901 | `buffer_offset as u32` keeps the one 32-bit value that differs from the offset by a multiple of 2^32, so offsets below 2^32 are kept as they are |
| Binder.BindSets | src/shader.rs:857-934 | walking all sets in order accumulates the writes, offsets and regions of all their bindings, all aimed at `descriptor_sets[0]`; the arena's new regions hold the written bytes |
| Binder.AllWritableIff | src/shader.rs:870-894 | a sequence of blocks is writable as a whole iff each block in it is writable; every Ok and member-error result of the binder is stated in these terms |
| Binder.FilledAt | src/shader.rs:859-933 | each filled region has its block's size and holds exactly the member writes applied to the freshly allocated bytes |
| Binder.FilledWritable | src/shader.rs:859-933 | every block that the binder filled is writable |
| Binder.UpdateDescriptorSets | src/shader.rs:847-941 | Ok iff reflection succeeds, a descriptor set exists when there are sets, the arena has room and every block is writable (`AllWritable`). A member error means some block is not writable; exhaustion means the blocks exceed the arena. On Ok: one offset per uniform block in binding order, cut to 32 bits; the arena records one new region per block, and region k holds the member writes of block k; one device batch iff there are writes. On Err the device is untouched |
| ShaderSource.FindSep | src/shader.rs:266 | the index of the first `"::"`, or none when there is no `"::"` |
| ShaderSource.IncludePath | src/shader.rs:266-288 | a qualified include reassembles as crate + "::" + asset; an unqualified one stays in the including crate |
| ShaderSource.IncludePathAsWritten | src/shader.rs:266-268 | the split as the source writes it: identical to the intended one when there is no `"::"`; otherwise the crate is some prefix of the path |
| ShaderSource.IncludeQualified | src/shader.rs:266-273 | a `crate::asset` include splits at the first `"::"`: crate + "::" + asset is the path, and the crate contains no `"::"` |
| ShaderSource.IncludeRooted | src/shader.rs:275-279 | a leading `/` keeps the including crate and drops the `/` |
| ShaderSource.IncludeRelative | src/shader.rs:280-286 | otherwise the path is joined to the including asset's folder, in the including crate |
| ShaderSource.ParentSplits | src/shader.rs:281-282 | the folder is everything before the asset's last `/`, or empty when it has none |
| ShaderSource.AsciiIncludeAgrees | src/shader.rs:266-268 | on ASCII paths the split as written equals the intended split |
| ShaderSource.NonAsciiIncludeDiffers | src/shader.rs:266-268 | on `é::a.glsl` the split as written gives (`é:`, `.glsl`), while the intended split gives (`é`, `a.glsl`) |
| ShaderSource.ShaderText | src/shader.rs:299-310 | the text starts with `#version 430\n` |
| ShaderSource.LineDirectiveReadsBack | src/shader.rs:303 | the header of chunk k is `#line 0 `, decimal digits, and a line break, and the digits read back as k |
| ShaderSource.BodyHeaders | src/shader.rs:302-305 | every chunk adds a header of at least ten characters, and the body opens with the first chunk's header |
| ShaderSource.ChunkAt | src/shader.rs:299-310 | chunk i's header `#line 0 (i+1)\n` and then its source sit right after the text of the chunks before it |
| ShaderSource.BodyPrefix | src/shader.rs:299-310 | the text of the first chunks is a prefix of the text of all of them |
| ShaderSource.ShaderTextLength | src/shader.rs:299-310 | the text is the preamble plus exactly one header and one source per chunk |
| ShaderSource.ParseNatToString | src/shader.rs:303 | the decimal rendering of the line number in each header reads back as that number |

## Left out

- Concurrency of resolution: the holders are resolved in order, not spawned and joined with `try_join_all`. The result and the error returned are those of the first failing holder in order. Completion order is not modelled.
- Uniforms.ResolveValue: fetching a `BundleAsset` spends one unit of a `fuel` bound. Nothing in the value bounds the depth of asset-bundle chains, so a chain deeper than the fuel gives `TooDeep` here, where the source would keep fetching.
- The asset graph is an abstract record of lookup functions from handle to `Result`. The snoozy context, its caching and the `SnoozyRef` machinery are not modelled.
- `shallow_hash` and `whatever_hash` are kept as an opaque field of the holder.
- Floating point: the `1/width` reciprocals are symbolic `F32` components. `f32::to_ne_bytes` and the `Vec4` transmute are an abstract encoder that yields four bytes per float.
- Vulkan calls are left out: descriptor-set-layout and pipeline creation, `allocate_descriptor_sets`, the image barrier, `cmd_bind_*` and `cmd_dispatch`. The device is only a log of the descriptor-write batches it receives.
- The per-frame uniform arena is a bump allocator with a capacity. Its offset is the running head. The real `vk_frame().uniforms` allocator is not part of this model.
- The array returned by allocation is a fresh region. Its aliasing with the GPU buffer behind it is not modelled.
- shaderc compilation, SPIR-V reflection parsing and `shader_prepper` are left out. Reflection enters as input data: a `Result` of reflected sets.
- `get_include`'s blob load and UTF-8 decode are left out.
- ShaderSource.Parent: keeps everything before the asset name's last `/`. The `relative_path` crate's `pop` removes the last path component instead. The two differ for an asset name that ends in `/` or in a `.` component: for `a/b/` the source's folder is `a`, the model's is `a/b`. `folder.join(path)` is modelled as `ShaderSource.Join`, which joins with one `/`.
- Dead code and debug output are not modelled: the `print!` of unsupported kinds, `dbg!`, `reflect_shader`, the commented-out `plumb_uniform` and GL dispatch, the raster pipeline, `load_cs*`, and the `gpu_debugger` report.
- src/backend/opengl.rs and src/consts.rs are not part of this model.
- Dispatch size: the live code divides width and height by 8 and truncates (src/shader.rs:1022). Only the commented-out GL dispatch (src/shader.rs:1063-1064) rounds up. The model follows the live line, so 1023 x 767 gives 127 x 95 groups.
- Binder.UpdateDescriptorSets: the source panics on `descriptor_sets[0]` only when it reaches the first reflected set. The model checks this once, before the walk. The outcome is the same, because the check happens before any allocation or write.
- Binder.UpdateDescriptorSets: after a failure, the arena regions already filled are not described. The source panics at that point, leaving them unspecified.

## Findings

| source | as written | input that shows it | evidently intended | confidence | as-written member | corrected member |
|---|---|---|---|---|---|---|
| src/shader.rs:266-268 | `path.find("::")` returns a byte offset, which is then used as a character count in `chars().take(..)` and `chars().skip(.. + 2)` | `é::a.glsl` (`é` is two bytes in UTF-8) gives crate `é:` and asset `.glsl` | split at the first `"::"`: crate `é`, asset `a.glsl` | not executed | ShaderSource.NonAsciiIncludeDiffers | ShaderSource.IncludeQualified |
