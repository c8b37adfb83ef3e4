# Explosion RHI core, modelled in Dafny

This project models the self-contained logic of the Explosion engine's
backend-agnostic rendering interface (RHI) and of the pieces around it. It
also proves properties of that model. The logic covered is:

- **DirectX 12 runtime descriptor arena** (`DescriptorHeap`). `RuntimeDescriptorHeap` is a bump
  allocator with a `used` cursor, a fixed capacity, a hard bound and a reset.
  `RuntimeDescriptorCompact` routes sampler requests to one heap and all other
  requests to the other.
- **DirectX 12 buffer usage translation** (`DX12Buffer`). This covers the heap type, the initial
  resource states and the map mode derived from a usage set, the descriptor
  chosen at creation, and the map-mode check of `Map`. The rules live in
  `std::unordered_map`s whose iteration order is unspecified. That order
  is an explicit parameter, and the lemmas hold for every order.
- **Flag vocabulary and `CombineBits`** (`Bits`). The enumerator values are
  64-bit flags. The OR fold starts from an uninitialised accumulator, so its
  start value is an arbitrary parameter.
- **Swap chains** (`VulkanSwapChain`, `DX12SwapChain`, with the shared vocabulary in
  `Rhi`):
  - Vulkan's clamping of extent and image count into the surface limits;
  - the back-buffer descriptors both backends build;
  - the Vulkan `currentImage` handoff from acquire to present;
  - DirectX 12's pass-through of the request, its sync interval and its fence-value protocol.
- **The SSAO sample** (`SsaoBindings`, `SsaoFrame`, `SsaoSync`):
  - the bind-group layouts, bind groups and pipeline layouts it builds;
  - the command encoder traces it records (uploads and one frame) as a state machine;
  - the per-frame fence and semaphore protocol over a ring of two frame slots.

  The state machine tracks each texture's state and rejects three things:
  - a barrier whose "before" state is not the current one;
  - a pass opened inside another pass;
  - a draw whose bound groups sample a texture that is not shader-readable.
- **Asset URIs** (`UriParsing`):
  - the scheme is split off at `://` and the content extracted;
  - asset content is classified by prefix;
  - classified content is mapped, in branch order, to a plugin or asset directory, with `.expa` appended.
- **`Common::Color`** (`ColorModel`): the binary type-tag-and-channels form,
  the `{r=R, g=G, b=B, a=A}` string form and the JSON object form.
- **The sample `Application`** (`SampleApplication`):
  - backend selection from the `-rhi` string, with a fallback;
  - the backend's shader byte-code kind;
  - the order in which `Run` drives the sample hooks.

`Wrappers` holds `Option` and `Result`. `Text` holds the string helpers the
URI and colour code relies on: decimal rendering and reading, `Split`,
`AfterFirst`, `BeforeFirst`, and the `Prefix.*` regular-expression match.

Points where the code is followed over what its names or headers suggest:

- `Uri::Protocal` looks up any scheme other than `asset` with `at`, so such a
  scheme is an error (`UnknownScheme`), not `max`.
- `Buffer.cpp` tests buffer usages by name: MAP_READ, MAP_WRITE, COPY_SRC,
  COPY_DST, UNIFORM, STORAGE and so on. `Enum.h` gives `BufferUsageBits` a
  different enumerator list. The model keeps both. `DX12Buffer` uses a set of
  the names `Buffer.cpp` uses, and `Bits` keeps the header's values.
- The Vulkan image count is clamped with `std::clamp` even when the surface
  reports no upper limit (see Findings).
- The `LinearColor` serializer writes and checks `Color`'s type tag (see
  Findings).
- The source renders a `Color` as a string but has no reader for that string.
  `ColorModel.ParseColorString` is a reference reader, written only to show
  that the string form loses nothing.

## Model

| member | source | states |
|---|---|---|
| DescriptorHeap.NewRuntimeDescriptorHeap | Engine/Source/RHI-DirectX12/Src/CommandBuffer.cpp:12-26 | construction fails exactly when the native heap creation fails (the `Assert` on `CreateDescriptorHeap`); otherwise the new arena is empty (`used` 0), keeps the requested capacity and type, and satisfies the arena invariant |
| DescriptorHeap.ResetUsed | Engine/Source/RHI-DirectX12/Src/CommandBuffer.cpp:30-33 | a reset rewinds the cursor to 0, keeps capacity and heap addresses, and keeps the invariant |
| DescriptorHeap.NewGpuDescriptorHandle | Engine/Source/RHI-DirectX12/Src/CommandBuffer.cpp:40-56 | an allocation succeeds exactly when `used + 1 < capacity`; it returns slot = old `used` and advances `used` by one; the copy destination and the GPU handle have the same offset; both are `used` × increment for capacities within `int32` |
| DescriptorHeap.Int32Cast | Engine/Source/RHI-DirectX12/Src/CommandBuffer.cpp:49-53 | `static_cast<int32_t>` of the cursor lands in the `int32` range and is congruent to it modulo 2^32 |
| DescriptorHeap.ResetThenAllocateGivesSlotZero | Engine/Source/RHI-DirectX12/Src/CommandBuffer.cpp:30-56 | after a reset the next allocation succeeds (capacity ≥ 2) and returns slot 0 |
| DescriptorHeap.AllocateSeveral | Engine/Source/RHI-DirectX12/Src/CommandBuffer.cpp:40-56 | n successive allocations succeed exactly when `used + n < capacity`; they return the consecutive slots `used`, `used + 1`, …, strictly increasing and each carrying its own source |
| DescriptorHeap.FreshArenaHoldsCapacityMinusOne | Engine/Source/RHI-DirectX12/Src/CommandBuffer.cpp:42 | from an empty arena, a batch of allocations fits exactly when it has at most capacity − 1 requests |
| DescriptorHeap.NewRuntimeDescriptorCompact | Engine/Source/RHI-DirectX12/Src/CommandBuffer.cpp:58-63 | the compact is built exactly when both native heaps are created, and then holds one empty CBV/SRV/UAV heap and one empty sampler heap of the given capacities |
| DescriptorHeap.ResetCompact | Engine/Source/RHI-DirectX12/Src/CommandBuffer.cpp:65-69 | resetting the compact rewinds both heaps and keeps both capacities |
| DescriptorHeap.CompactNewGpuDescriptorHandle | Engine/Source/RHI-DirectX12/Src/CommandBuffer.cpp:76-83 | sampler ranges allocate from the sampler heap and every other range type from the CBV/SRV/UAV heap: the routed heap advances by one, the handle is the one that heap's own allocation returns, and the other heap is unchanged |
| DescriptorHeap.CompactHandleLiesInRoutedHeap | Engine/Source/RHI-DirectX12/Src/CommandBuffer.cpp:40-83 | a compact allocation returns the routed heap's next slot, the caller's source, and a copy destination and GPU handle at that slot's offset from the routed heap's CPU and GPU starts |
| DX12Buffer.FirstMatch | Engine/RHI-DirectX12/Src/Buffer.cpp:25-30 | the rule loop returns the value of the first rule whose key shares a bit with the usages, or the fallback when none does |
| DX12Buffer.GetDX12HeapType | Engine/RHI-DirectX12/Src/Buffer.cpp:16-31 | DEFAULT exactly when the usages share no bit with either key; UPLOAD or READBACK when they share a bit with only that key; otherwise the map order decides |
| DX12Buffer.HeapTypeIsAChoiceAmongMatchingRules | Engine/RHI-DirectX12/Src/Buffer.cpp:18-29 | every iteration order yields a heap type of a matching rule (or DEFAULT), and every such type is yielded by some order |
| DX12Buffer.OneKeyBitSelectsTheHeap | Engine/RHI-DirectX12/Src/Buffer.cpp:26 | the test is intersection: MAP_WRITE alone gives UPLOAD, COPY_DST with UNIFORM gives READBACK, usages outside both keys give DEFAULT |
| DX12Buffer.MatchedStates | Engine/RHI-DirectX12/Src/Buffer.cpp:47-51 | the states collected are exactly those of the rules whose usage is present |
| DX12Buffer.StatesFoldIsCombine | Engine/RHI-DirectX12/Src/Buffer.cpp:46-52 | the `result \|=` loop equals `CombineBits` of the matched states from COMMON |
| DX12Buffer.SameRulesSameMatches | Engine/RHI-DirectX12/Src/Buffer.cpp:35-51 | two orders of the same rules match the same set of states |
| DX12Buffer.GetDX12ResourceStates | Engine/RHI-DirectX12/Src/Buffer.cpp:33-53 | the states are COMMON combined with the matched rules' states, and hold the state of every usage present whatever the table order |
| DX12Buffer.ResourceStatesIgnoreOrder | Engine/RHI-DirectX12/Src/Buffer.cpp:46-52 | the initial resource states do not depend on the map's iteration order |
| DX12Buffer.ResourceStatesAreExactlyThoseOfThePresentUsages | Engine/RHI-DirectX12/Src/Buffer.cpp:33-53 | the result contains the state of every present usage and nothing beyond COMMON and those states |
| DX12Buffer.ResourceStatesAreMonotone | Engine/RHI-DirectX12/Src/Buffer.cpp:33-53 | adding usages never removes a state bit |
| DX12Buffer.GetMapMode | Engine/RHI-DirectX12/Src/Buffer.cpp:55-68 | MAP_READ alone gives READ, MAP_WRITE alone gives WRITE, neither gives READ, and with both the map order decides |
| DX12Buffer.CreateDX12Descriptor | Engine/RHI-DirectX12/Src/Buffer.cpp:141-158 | UNIFORM gives a constant-buffer view even with STORAGE; STORAGE alone gives an unordered-access view from element 0; otherwise no descriptor; sizes are truncated to 32 bits |
| DX12Buffer.CreateDX12Buffer | Engine/RHI-DirectX12/Src/Buffer.cpp:82-86 | creation fails only when the native call fails; the heap type is the one the usages select under the map order, the map mode is fixed from the usages, the states are order-independent and the descriptor is the one `CreateDX12Descriptor` builds |
| DX12Buffer.CreatedBufferFollowsUsages | Engine/RHI-DirectX12/Src/Buffer.cpp:82-86 | a created buffer has a constant-buffer view exactly with UNIFORM and an unordered-access view exactly with STORAGE alone, keeps a size below 2^32, lands in DEFAULT exactly when no usage bit meets the upload or readback key, and a MAP_WRITE-only buffer lands in UPLOAD |
| DX12Buffer.Map | Engine/RHI-DirectX12/Src/Buffer.cpp:90-102 | `Map` throws "unsuitable map mode" exactly when the mode differs from the fixed one; otherwise a native failure throws and success maps `[offset, offset + length)` |
| DX12Buffer.MapModeCheckFollowsUsages | Engine/RHI-DirectX12/Src/Buffer.cpp:82-94 | a write-only buffer accepts write mappings and rejects read mappings; without MAP_WRITE writes are rejected; with both flags exactly one mode is accepted |
| Bits.CombineBits | Engine/RHI/Include/RHI/Enum.h:204-210 | the result contains the start value and every argument's bits |
| Bits.CombineIsStartOrUnion | Engine/RHI/Include/RHI/Enum.h:207-208 | the fold equals the uninitialised start value ORed with the union of the arguments |
| Bits.CombineIsLeast | Engine/RHI/Include/RHI/Enum.h:204-210 | nothing outside the start value and the arguments is set in the result |
| Bits.CombineDependsOnlyOnElements | Engine/RHI/Include/RHI/Enum.h:205-209 | for one start value, argument order and duplicates do not change the result |
| Bits.EnumeratorsAreDistinctSingleBits | Engine/RHI/Include/RHI/Enum.h:145-197 | within each `*Bits` enumeration every enumerator before `MAX` is a single bit and no two share a bit |
| Bits.NoneIsARealBitAndMaxOverlapsIt | Engine/RHI/Include/RHI/Enum.h:145-196 | `NONE` is 0x1; every `MAX` is the last value plus one (0x11, 0x9, 0x5), is not a single bit and overlaps the first enumerator |
| Bits.AllColorComponentsCombine | Engine/RHI/Include/RHI/Enum.h:190-210 | combining R, G, B, A adds exactly 0xF to the start value, and gives 0xF from a zero start |
| VulkanSwapChain.StdClamp | Engine/Source/RHI-Vulkan/Src/SwapChain.cpp:89-90 | with ordered bounds the result lies within them and keeps values already inside; below the bound gives the lower bound, above it the upper |
| VulkanSwapChain.StdClampIsAProjection | Engine/Source/RHI-Vulkan/Src/SwapChain.cpp:88-90 | clamping is idempotent and fixes exactly the values within the bounds |
| VulkanSwapChain.ImageCountAsWritten | Engine/Source/RHI-Vulkan/Src/SwapChain.cpp:112 | the clamp as written lies within [minImageCount, maxImageCount] whenever the surface has an upper limit |
| VulkanSwapChain.UnboundedSurfaceGetsZeroImages | Engine/Source/RHI-Vulkan/Src/SwapChain.cpp:112 | with maxImageCount 0 (no limit) the clamp as written yields 0 images, below the surface minimum |
| VulkanSwapChain.ImageCount | Engine/Source/RHI-Vulkan/Src/SwapChain.cpp:112 | the corrected count is at least the minimum and within the maximum when there is one; it keeps any request that fits |
| VulkanSwapChain.ImageCountAgreesWhenBounded | Engine/Source/RHI-Vulkan/Src/SwapChain.cpp:112 | the corrected count equals the written clamp on every surface with an upper limit |
| VulkanSwapChain.BackBufferInfo | Engine/Source/RHI-Vulkan/Src/SwapChain.cpp:129-138 | every back buffer is a 2D, depth-1, one-mip, one-sample render attachment that starts in `present`, with the given extent and format |
| VulkanSwapChain.WrapImages | Engine/Source/RHI-Vulkan/Src/SwapChain.cpp:140-146 | exactly one texture per driver image, in the driver's order, each with the shared descriptor |
| VulkanSwapChain.CreateSwapChain | Engine/Source/RHI-Vulkan/Src/SwapChain.cpp:75-147 | creation succeeds exactly when the queue, surface and format are present and the present mode is supported; the extent is clamped into the surface limits (requests that fit are kept), the image count is the source's clamp of the request whenever the surface bounds it, and one back buffer exists per image |
| VulkanSwapChain.GetTextureNum | Engine/Source/RHI-Vulkan/Src/SwapChain.cpp:40-43 | the texture count is the image count through a `uint8_t` |
| VulkanSwapChain.TextureNumCountsTheTextures | Engine/Source/RHI-Vulkan/Src/SwapChain.cpp:140-146 | `GetTextureNum` of a created swap chain is the number of textures whenever it fits a byte |
| VulkanSwapChain.AcquireBackTexture | Engine/Source/RHI-Vulkan/Src/SwapChain.cpp:50-56 | an acquire stores the driver's index as `currentImage` and returns it through a `uint8_t` |
| VulkanSwapChain.Present | Engine/Source/RHI-Vulkan/Src/SwapChain.cpp:58-73 | a present hands the stored `currentImage` to the driver |
| VulkanSwapChain.PresentUsesLatestAcquire | Engine/Source/RHI-Vulkan/Src/SwapChain.cpp:53-69 | in any call sequence, each present presents the index of the most recent acquire before it |
| VulkanSwapChain.Destroy | Engine/Source/RHI-Vulkan/Src/SwapChain.cpp:25-38 | the destructor deletes exactly the swap chain's textures and leaves the list empty |
| VulkanSwapChain.DestroyDeletesEveryImage | Engine/Source/RHI-Vulkan/Src/SwapChain.cpp:30-33 | destroying a created swap chain deletes one texture per driver image |
| DX12SwapChain.GetSyncInterval | Engine/Source/RHI-DirectX12/Src/SwapChain.cpp:18-21 | the sync interval is 0 exactly for `immediately` and at most 1 |
| DX12SwapChain.NativeDesc | Engine/Source/RHI-DirectX12/Src/SwapChain.cpp:73-80 | the native descriptor mirrors the request: buffer count, size and format as given, one sample, render-target output, flip-discard |
| DX12SwapChain.BackBufferName | Engine/Source/RHI-DirectX12/Src/SwapChain.cpp:113 | the debug name is `BackBuffer-` followed by digits that read back as the index |
| DX12SwapChain.BackBufferNamesAreDistinct | Engine/Source/RHI-DirectX12/Src/SwapChain.cpp:113 | different indices give different debug names |
| DX12SwapChain.FetchTextures | Engine/Source/RHI-DirectX12/Src/SwapChain.cpp:96-116 | exactly `textureNum` descriptors, each a back buffer of the request's size and format, named after its index, with pairwise distinct names |
| DX12SwapChain.CreateSwapChain | Engine/Source/RHI-DirectX12/Src/SwapChain.cpp:25-34 | the texture count and present mode are stored unchanged (no clamping) and the swap chain holds the `FetchTextures` descriptors; a missing queue or surface fails |
| DX12SwapChain.GetTextureNum | Engine/Source/RHI-DirectX12/Src/SwapChain.cpp:38-41 | the count reported is the stored request count, with no clamp and no narrowing |
| DX12SwapChain.AcquireBackTexture | Engine/Source/RHI-DirectX12/Src/SwapChain.cpp:48-56 | an acquire signals the fence to 0 and then to 1, and returns the back-buffer index through a `uint8_t` |
| DX12SwapChain.Present | Engine/Source/RHI-DirectX12/Src/SwapChain.cpp:58-63 | a present waits for the fence value 1, then presents with the mode's sync interval |
| DX12SwapChain.AcquireSatisfiesPresentWait | Engine/Source/RHI-DirectX12/Src/SwapChain.cpp:53-61 | after an acquire the present's wait is already satisfied; a fence still at 0 would not satisfy it |
| SsaoBindings.GroupsMatchTheirLayouts | Engine/Source/RHI/Sample/SSAO/SSAOApplication.cpp:646-817 | every bind group lists its layout's (type, binding) entries in the same order on every backend, each with a resource of the entry's kind |
| SsaoBindings.BackendsBindTheSameResources | Engine/Source/RHI/Sample/SSAO/SSAOApplication.cpp:746-817 | the two backend branches bind the same resources in the same order; only the binding notation differs |
| SsaoBindings.GlslSlotsAreConsecutive | Engine/Source/RHI/Sample/SSAO/SSAOApplication.cpp:646-737 | in each GLSL-style layout the slots are 0, 1, 2, … in order |
| SsaoBindings.HlslRegistersAreNumberedPerRange | Engine/Source/RHI/Sample/SSAO/SSAOApplication.cpp:646-737 | in each HLSL-style layout, each register is the number of earlier entries of its range type |
| SsaoBindings.RegistersAreDistinctPerRange | Engine/Source/RHI/Sample/SSAO/SSAOApplication.cpp:646-737 | registers numbered per range type are distinct within each range type |
| SsaoBindings.LayoutEntries | Engine/Source/RHI/Sample/SSAO/SSAOApplication.cpp:646-737 | every layout has entries; DirectX 12 uses HLSL registers and the other backends GLSL slots; every entry is visible to the pixel stage, and to the vertex stage exactly in the G-buffer layout |
| SsaoBindings.GroupEntries | Engine/Source/RHI/Sample/SSAO/SSAOApplication.cpp:746-817 | the binding notation follows the backend; no group samples a back buffer; a renderable's group binds that renderable's diffuse map first, and no other group binds a diffuse map |
| SsaoBindings.PipelineLayouts | Engine/Source/RHI/Sample/SSAO/SSAOApplication.cpp:668-743 | each pipeline layout lists its group layouts at their set indices, and only the G-buffer pipeline layout holds the renderable layout |
| SsaoBindings.LayoutsSitAtTheirSetIndex | Engine/Source/RHI/Sample/SSAO/SSAOApplication.cpp:646-743 | each pipeline layout's group layouts sit at the set index they were created with |
| SsaoBindings.RunInfoSteps | Engine/Source/RHI/Sample/SSAO/SSAOApplication.cpp:668-743 | each creation takes the first `bindGroupLayoutNum` layouts of the current vector, and a count beyond the vector stops the run |
| SsaoBindings.PipelineLayoutInfoReuseIsSound | Engine/Source/RHI/Sample/SSAO/SSAOApplication.cpp:696-743 | with the count left at 1 after the SSAO layout, blur and composition still receive exactly their one group layout |
| SsaoFrame.SamplesAreTheGroupsTextureViews | Engine/Source/RHI/Sample/SSAO/SSAOApplication.cpp:746-817 | a group samples a texture exactly when it is in that group's sample list, on every backend |
| SsaoFrame.ReadableSamplesSuffice | Engine/Source/RHI/Sample/SSAO/SSAOApplication.cpp:146-233 | if every listed texture is shader-readable, so is every texture the group's entries bind |
| SsaoFrame.Step | Engine/Source/RHI/Sample/SSAO/SSAOApplication.cpp:84-236 | one command: a barrier needs its "before" state to be current and applies "after"; passes do not nest; draws need a pipeline and readable bound groups; nothing follows `End` |
| SsaoFrame.FirstNotIn | Engine/Source/RHI/Sample/SSAO/SSAOApplication.cpp:121 | finds a pass attachment that is not in the required state, when there is one |
| SsaoFrame.Run | Engine/Source/RHI/Sample/SSAO/SSAOApplication.cpp:84-236 | an empty trace leaves the encoder as it was; a trace succeeds only if its first command does, and a failing first command is the trace's violation |
| SsaoFrame.RunAppend | Engine/Source/RHI/Sample/SSAO/SSAOApplication.cpp:84-236 | recording a concatenation is recording the first part, then the second from where it left off |
| SsaoFrame.RunThen | Engine/Source/RHI/Sample/SSAO/SSAOApplication.cpp:84-236 | two successive successful runs make a successful run of their concatenation |
| SsaoFrame.RunStopsAtFailure | Engine/Source/RHI/Sample/SSAO/SSAOApplication.cpp:84-236 | a failed run stays failed whatever is recorded after it |
| SsaoFrame.EndEndsRecording | Engine/Source/RHI/Sample/SSAO/SSAOApplication.cpp:236 | `End` on a recording encoder ends it and keeps the texture states |
| SsaoFrame.RunKeepsStatesWithoutBarriers | Engine/Source/RHI/Sample/SSAO/SSAOApplication.cpp:121-136 | without barriers no texture state changes |
| SsaoFrame.NothingAfterEnd | Engine/Source/RHI/Sample/SSAO/SSAOApplication.cpp:236 | any command after `End` fails |
| SsaoFrame.UploadCommands | Engine/Source/RHI/Sample/SSAO/SSAOApplication.cpp:338-351 | an upload opens a copy pass, ends the encoder, touches only its texture, and brackets its copy between a barrier into `copyDst` and one from `copyDst` to `shaderReadOnly` |
| SsaoFrame.UploadMakesReadable | Engine/Source/RHI/Sample/SSAO/SSAOApplication.cpp:338-351 | an upload moves its texture undefined → copyDst → shaderReadOnly around its one copy, leaves every other texture alone and ends the encoder |
| SsaoFrame.CopyWithoutBarrierFails | Engine/Source/RHI/Sample/SSAO/SSAOApplication.cpp:340-346 | a copy into a texture not in `copyDst` is a violation |
| SsaoFrame.PartlyUploadedStep | Engine/Source/RHI/Sample/SSAO/SSAOApplication.cpp:334-351 | uploading one more diffuse map advances the partly-uploaded state by one renderable |
| SsaoFrame.PartlyUploadedAll | Engine/Source/RHI/Sample/SSAO/SSAOApplication.cpp:334-351 | once every diffuse map is uploaded, the textures are in their between-frames states |
| SsaoFrame.DiffuseUploadsComplete | Engine/Source/RHI/Sample/SSAO/SSAOApplication.cpp:334-351 | the per-renderable uploads from any point all succeed and reach the fully uploaded state |
| SsaoFrame.StartupReachesFrameStates | Engine/Source/RHI/Sample/SSAO/SSAOApplication.cpp:914-937 | starting from the creation states, the noise and diffuse uploads succeed and leave every texture in its between-frames state |
| SsaoFrame.QuadPassKeepsStates | Engine/Source/RHI/Sample/SSAO/SSAOApplication.cpp:146-172 | a full-screen pass whose target is at rest and whose group samples readable textures records and restores every state |
| SsaoFrame.QuadPass | Engine/Source/RHI/Sample/SSAO/SSAOApplication.cpp:144-173 | a full-screen pass has seven commands, transitions only its target, opens on it alone without depth, and its closing barrier undoes its opening one |
| SsaoFrame.DrawLoop | Engine/Source/RHI/Sample/SSAO/SSAOApplication.cpp:131-134 | renderable k contributes binding its own group at set 1 and then one draw, in order, two commands per renderable |
| SsaoFrame.DrawLoopRecords | Engine/Source/RHI/Sample/SSAO/SSAOApplication.cpp:131-134 | the per-renderable bind-and-draw loop records without a violation and changes no state |
| SsaoFrame.GBufferHeadOpensThePass | Engine/Source/RHI/Sample/SSAO/SSAOApplication.cpp:86-127 | the four pre-pass barriers succeed from rest, and the G-buffer pass opens with its pipeline and scene group |
| SsaoFrame.GBufferTailClosesThePass | Engine/Source/RHI/Sample/SSAO/SSAOApplication.cpp:136-141 | closing the pass and the four post-pass barriers return the attachments to rest |
| SsaoFrame.GBufferSegment | Engine/Source/RHI/Sample/SSAO/SSAOApplication.cpp:86-141 | the G-buffer segment is 12 commands plus two per renderable; its four closing barriers undo its four opening ones attachment by attachment, it opens the pass on the three colour targets with depth, and no barrier falls inside the pass |
| SsaoFrame.GBufferSegmentKeepsStates | Engine/Source/RHI/Sample/SSAO/SSAOApplication.cpp:86-141 | the whole G-buffer segment records and leaves every texture's state as it found it |
| SsaoFrame.FrameTexturesAreAtFrameStart | Engine/Source/RHI/Sample/SSAO/SSAOApplication.cpp:948-971 | the between-frames states satisfy the frame-start condition, back buffers in `present` |
| SsaoFrame.ReadableAfterOtherUpdate | Engine/Source/RHI/Sample/SSAO/SSAOApplication.cpp:146 | changing a texture not in a list keeps the list readable |
| SsaoFrame.FrameStartIsReadable | Engine/Source/RHI/Sample/SSAO/SSAOApplication.cpp:146-233 | at frame start every texture the full-screen passes sample is readable |
| SsaoFrame.SsaoPassKeepsStates | Engine/Source/RHI/Sample/SSAO/SSAOApplication.cpp:144-173 | the SSAO pass records and keeps every state |
| SsaoFrame.BlurPassKeepsStates | Engine/Source/RHI/Sample/SSAO/SSAOApplication.cpp:175-204 | the blur pass records and keeps every state |
| SsaoFrame.CompositionPassKeepsStates | Engine/Source/RHI/Sample/SSAO/SSAOApplication.cpp:206-234 | the composition pass moves the back buffer present → renderTarget → present and keeps every state |
| SsaoFrame.FrameKeepsStates | Engine/Source/RHI/Sample/SSAO/SSAOApplication.cpp:84-236 | from any frame-start state the frame records without a violation, ends the encoder and restores every texture's state |
| SsaoFrame.FrameCommands | Engine/Source/RHI/Sample/SSAO/SSAOApplication.cpp:84-236 | a frame has 34 commands plus two per renderable, ends the encoder exactly once and last, and transitions no back buffer but the one it was given |
| SsaoFrame.FrameReturnsToStartStates | Engine/Source/RHI/Sample/SSAO/SSAOApplication.cpp:72-248 | for a back-buffer index below 2, the whole frame from the between-frames states succeeds and ends in exactly those states |
| SsaoFrame.BackIndexOutOfRangeFails | Engine/Source/RHI/Sample/SSAO/SSAOApplication.cpp:220 | a back-buffer index of 2 or more names no tracked texture, and the composition barrier fails |
| SsaoFrame.MissingBarrierFails | Engine/Source/RHI/Sample/SSAO/SSAOApplication.cpp:146-160 | leaving out a full-screen pass's first barrier makes the pass open on a texture that is not a render target |
| SsaoSync.Created | Engine/Source/RHI/Sample/SSAO/SSAOApplication.cpp:631-638 | creation makes two slots, and the ring starts at 0 |
| SsaoSync.NextIndex | Engine/Source/RHI/Sample/SSAO/SSAOApplication.cpp:247 | the ring step stays below 2 and is (i + 1) mod 2 for indices in range |
| SsaoSync.Frame | Engine/Source/RHI/Sample/SSAO/SSAOApplication.cpp:80-247 | a frame succeeds exactly when its slot's fence is signalled or pending and its semaphores are unsignalled; only that slot changes and the ring advances |
| SsaoSync.FramePreservesQuiescence | Engine/Source/RHI/Sample/SSAO/SSAOApplication.cpp:238-247 | from a quiescent state a frame succeeds, leaves its fence pending and is quiescent again |
| SsaoSync.FramesNeverBlock | Engine/Source/RHI/Sample/SSAO/SSAOApplication.cpp:636 | with fences created signalled any number of frames succeed, and after n frames the ring index is n mod 2 |
| SsaoSync.FramesFrom | Engine/Source/RHI/Sample/SSAO/SSAOApplication.cpp:72-247 | n frames from a quiescent state succeed and advance the ring index by n mod 2 |
| SsaoSync.UnsignalledFencesBlock | Engine/Source/RHI/Sample/SSAO/SSAOApplication.cpp:80 | fences created unsignalled would make the first wait never return |
| UriParsing.SameIsTextEquality | Engine/Source/Core/Src/Uri.cpp:49-80 | URI equality is string equality, and `Empty` holds exactly for the empty string |
| UriParsing.Protocol | Engine/Source/Core/Src/Uri.cpp:59-70 | `max` exactly when splitting on `://` does not give two pieces; `asset` exactly for two pieces with scheme `asset`; any other scheme is an error |
| UriParsing.NoSeparatorMeansNoProtocol | Engine/Source/Core/Src/Uri.cpp:65-68 | a text without `://` has protocol `max` |
| UriParsing.Content | Engine/Source/Core/Src/Uri.cpp:72-75 | the content is the text after the first `://`: scheme, separator and content rebuild the URI; without a separator it is empty |
| UriParsing.AssetUriRoundTrip | Engine/Source/Core/Src/Uri.cpp:59-75 | `asset://` + a path without `://` has protocol `asset` and content equal to the path |
| UriParsing.NewAssetUriParser | Engine/Source/Core/Src/Uri.cpp:82-86 | the parser is constructed exactly when the protocol is `asset`, and keeps the URI's content |
| UriParsing.PrefixClassesNest | Engine/Source/Core/Src/Uri.cpp:88-106 | engine-plugin and engine-test assets are engine assets; project-plugin assets are project assets; engine and project assets are disjoint, and so are plugin and test assets |
| UriParsing.AbsoluteFilePath | Engine/Source/Core/Src/Uri.cpp:108-130 | resolution succeeds exactly for engine or project content; the result ends in `.expa`; plugin content resolves to a plugin directory, test content to the test directory when the build has tests, other engine content to the engine asset directory and other project content to the project asset directory |
| UriParsing.EnginePluginAssetResolvesToItsPlugin | Engine/Source/Core/Src/Uri.cpp:114-119 | `Engine/Plugin/P/x` is also an engine asset, yet resolves to plugin P's asset directory / `x.expa` |
| UriParsing.EngineAssetResolvesToEngineDir | Engine/Source/Core/Src/Uri.cpp:123-124 | plain `Engine/x` resolves to the engine asset directory / `x.expa` |
| UriParsing.ProjectPluginAssetResolvesToItsPlugin | Engine/Source/Core/Src/Uri.cpp:120-122 | `Project/Plugin/P/x` is a project asset, yet resolves to project plugin P's asset directory / `x.expa` |
| UriParsing.ProjectAssetResolvesToProjectDir | Engine/Source/Core/Src/Uri.cpp:125-126 | `Project/x`, with x not under `Plugin/`, resolves to the project asset directory / `x.expa` |
| UriParsing.EngineTestContentClasses | Engine/Source/Core/Src/Uri.cpp:88-139 | `Engine/Test/x` is a test asset and an engine asset, and no kind of plugin asset |
| UriParsing.EngineTestAssetInTestBuild | Engine/Source/Core/Src/Uri.cpp:111-113 | with tests in the build, `Engine/Test/x` resolves to the engine test directory / `x.expa` |
| UriParsing.EngineTestAssetOutsideTestBuild | Engine/Source/Core/Src/Uri.cpp:115-124 | without tests, `Engine/Test/x` falls through to the engine asset directory / `Test/x.expa` |
| ColorModel.Serialize | Engine/Source/Common/Include/Common/Math/Color.h:76-84 | serializing appends Color's tag and then the r, g, b, a bytes, in that order, to the stream |
| ColorModel.Deserialize | Engine/Source/Common/Include/Common/Math/Color.h:86-97 | reading succeeds exactly when the stream starts with Color's tag; on a mismatch the target is untouched; after the tag the channel reads are not checked |
| ColorModel.SerializeRoundTrip | Engine/Source/Common/Include/Common/Math/Color.h:76-97 | reading back a serialized colour gives the colour, whatever the target held, and leaves the stream just after it |
| ColorModel.SerializeTwiceRoundTrip | Engine/Source/Common/Include/Common/Math/Color.h:76-97 | two colours written to one stream read back in order |
| ColorModel.TruncatedStreamIsAccepted | Engine/Source/Common/Include/Common/Math/Color.h:92-96 | a stream holding only Color's tag is accepted, and the target keeps its value |
| ColorModel.ReadTag | Engine/Source/Common/Include/Common/Math/Color.h:88 | the tag check holds exactly when the stream starts with the expected tag, which is then consumed |
| ColorModel.ReadByte | Engine/Source/Common/Include/Common/Math/Color.h:92-95 | a channel read takes the next byte, or keeps the channel when there is none |
| ColorModel.SerializeLinearAsWritten | Engine/Source/Common/Include/Common/Math/Color.h:104-112 | the LinearColor serializer as written starts its stream with Color's tag |
| ColorModel.ColorReaderAcceptsLinearStream | Engine/Source/Common/Include/Common/Math/Color.h:106 | as written, Color's reader accepts a LinearColor stream |
| ColorModel.SerializeLinear | Engine/Source/Common/Include/Common/Math/Color.h:102-112 | the corrected LinearColor serializer starts with LinearColor's own tag |
| ColorModel.ReadFloat | Engine/Source/Common/Include/Common/Math/Color.h:120-123 | a float channel read takes the next float, or keeps the channel when there is none |
| ColorModel.DeserializeLinear | Engine/Source/Common/Include/Common/Math/Color.h:114-125 | the corrected LinearColor reader succeeds exactly on LinearColor's tag and leaves the target alone otherwise |
| ColorModel.DistinctTagsSeparateTheTypes | Engine/Source/Common/Include/Common/Math/Color.h:102-125 | with distinct tags, each reader rejects the other type's stream, and a LinearColor reads back whole |
| ColorModel.ColorString | Engine/Source/Common/Include/Common/Math/Color.h:130-140 | the string form is braced |
| ColorModel.ParseFieldOfWritten | Engine/Source/Common/Include/Common/Math/Color.h:133-138 | a label and a decimal byte followed by a non-digit read back as that byte |
| ColorModel.ColorStringRoundTrip | Engine/Source/Common/Include/Common/Math/Color.h:128-141 | `{r=R, g=G, b=B, a=A}` reads back as the colour it was made from |
| ColorModel.ColorStringIsInjective | Engine/Source/Common/Include/Common/Math/Color.h:128-141 | distinct colours have distinct string forms |
| ColorModel.FindMember | Engine/Source/Common/Include/Common/Math/Color.h:171-174 | a member lookup finds a member with that name when there is one, and nothing exactly when there is none |
| ColorModel.FindAfterOthers | Engine/Source/Common/Include/Common/Math/Color.h:171-174 | members with other names before a position are skipped |
| ColorModel.FindsTheFirst | Engine/Source/Common/Include/Common/Math/Color.h:171-174 | with repeated names, the first member of that name is found |
| ColorModel.FindInChannelOrder | Engine/Source/Common/Include/Common/Math/Color.h:162-166 | in an r, g, b, a object each channel is found under its own name |
| ColorModel.ChannelOf | Engine/Source/Common/Include/Common/Math/Color.h:171-174 | a channel reads only an existing unsigned 32-bit member, truncated to its low byte |
| ColorModel.JsonSerialize | Engine/Source/Common/Include/Common/Math/Color.h:160-167 | the JSON form is a four-member object whose r, g, b, a members hold the channels |
| ColorModel.JsonDeserialize | Engine/Source/Common/Include/Common/Math/Color.h:169-175 | reading JSON succeeds exactly for an object with four readable channels, and the colour is made of them |
| ColorModel.JsonRoundTrip | Engine/Source/Common/Include/Common/Math/Color.h:158-176 | reading back the JSON form is the identity |
| ColorModel.JsonTruncatesToLowByte | Engine/Source/Common/Include/Common/Math/Color.h:171-174 | unsigned values above 255 are cut modulo 256, and member order does not matter |
| SampleApplication.NewApplication | Engine/Source/RHI/Sample/Application.h:39 | a new application targets Vulkan at 1024 × 768 |
| SampleApplication.RhiName | Engine/Source/RHI/Sample/Application.h:55-59 | every backend has its entry in the name table |
| SampleApplication.SelectRhi | Engine/Source/RHI/Sample/Application.h:55-61 | a table name selects its backend by exact match; any other string selects DirectX 12 |
| SampleApplication.SelectRhiInvertsRhiName | Engine/Source/RHI/Sample/Application.h:55-61 | every backend is selected by its own name |
| SampleApplication.FallbackDiffersFromDefault | Engine/Source/RHI/Sample/Application.h:39-61 | a lower-case `vulkan` selects DirectX 12, not the constructor's Vulkan |
| SampleApplication.ByteCodeFor | Engine/Source/RHI/Sample/Application.h:107-113 | DirectX 12 gets DXIL, Vulkan SPIR-V and Metal MBC, each exactly |
| SampleApplication.ByteCodeForIsInjective | Engine/Source/RHI/Sample/Application.h:107-113 | distinct backends get distinct byte code |
| SampleApplication.OptionsFor | Engine/Source/RHI/Sample/Application.h:103-114 | the extra include paths follow the existing ones in order; the byte code is the backend's; debug information is off |
| SampleApplication.CompileShader | Engine/Source/RHI/Sample/Application.h:95-124 | compiling succeeds exactly when the compiler reports success for the built options, and then yields its byte code |
| SampleApplication.Run | Engine/Source/RHI/Sample/Application.h:43-75 | a failed parse returns −1 with no hook called; otherwise `OnCreate` once, one `OnDrawFrame` per loop turn, `OnDestroy` once, then 0; the backend and size come from the arguments |

## Left out

- Native graphics calls (D3D12, DXGI and Vulkan resource, heap, swap-chain and descriptor-copy calls) are opaque. Their results are parameters, or success flags: a flag that is false is the failed `Assert` or thrown error, and the operation returns a `Failure`.
- GPU execution and timing of fences and semaphores are abstracted. `SsaoSync` treats a pending signal as delivered by the time the wait returns. `Wait`, `Flush` and `vkDeviceWaitIdle` are not modelled.
- Every `Assert` on a native result is modelled as an error result, not a precondition. `std::clamp`'s `lo <= hi` is a requirement of the C++ library, not an `Assert`: the surface capabilities allow a maximum image count of 0, which breaks it, and the Findings table covers that case.
- VulkanSwapChain.CreateSwapChain: the image count is the corrected `ImageCount`, which treats a maximum of 0 as no upper limit. It equals the source's `std::clamp` (`ImageCountAsWritten`) whenever the maximum is not 0, and the contract says so; for a maximum of 0 the model does not follow the clamp, which would violate `lo <= hi`.
- The `TextureState` enumeration is not shown in the source, so its default state is taken to be `undefined`: the diffuse and noise textures, created without an initial state, are modelled in that state.
- The SSAO sample's per-slot arrays have two elements. `SsaoFrame` proves the frame for back-buffer indices below 2, and shows that a larger index is a failure.
- Floating point is left out: `LinearColor` values, viewports, camera matrices and SSAO kernel and noise generation. Float channels are uninterpreted.
- ColorModel.Deserialize: stream items are typed (tag, byte, float), so reinterpreting float bytes as colour bytes is not modelled; a read that finds no byte keeps the channel.
- ColorModel.JsonDeserialize: a failed member read returns an error rather than leaving the earlier channels written.
- A type tag is the CRC-32 of the type's name. It is modelled by the name itself, so distinct names are assumed not to collide.
- `StringUtils::Split`, `AfterFirst`, `BeforeFirst`, `RegexMatch`, `Serializer<uint8_t>`, `TypeIdSerializer`, `std::to_string` and `fmt::format` are not part of this model's source. `Text` gives each its evident meaning:
  - `Split` splits on every occurrence and keeps empty pieces;
  - `AfterFirst` and `BeforeFirst` give the empty string when the separator is absent;
  - the `P.*` match means prefix P followed by no line terminator.
- `Paths::*` directories and `Path::Absolute` are filesystem pieces. The directories are named constructors of `AssetDir`, and the absolute-path step is not modelled.
- Windowing, argument parsing, shader compilation and file reading are parameters of `SampleApplication`: the window's close flag, the parse outcome, the compiler and the source text. `GetPlatformWindow` is platform glue and is not modelled.
- Object lifetime is not modelled: `Destroy()` via `delete this`, `UniqueRef` ownership, and views outliving their resources.
- Declaration-only headers, the Mirror reflection test and the runtime ECS files carry no statable logic.

## Findings

| source | as written | input that shows it | evidently intended | confidence | as-written member | corrected member |
|---|---|---|---|---|---|---|
| Engine/Source/RHI-Vulkan/Src/SwapChain.cpp:112 | the image count is `std::clamp(textureNum, minImageCount, maxImageCount)` | a surface with minImageCount 2 and maxImageCount 0 (the Vulkan value for "no upper limit") with textureNum 3: the clamp yields 0, below the minimum, and `lo <= hi` is violated | treat maxImageCount 0 as unbounded, giving 3 | medium, not executed | VulkanSwapChain.UnboundedSurfaceGetsZeroImages | VulkanSwapChain.ImageCount |
| Engine/Source/Common/Include/Common/Math/Color.h:106 | the LinearColor serializer writes and checks `TypeIdSerializer<Color>` although it declares its own type id | serialize any LinearColor, then deserialize it as a Color: the tag check passes | write and check LinearColor's own tag so each reader rejects the other type | high, not executed | ColorModel.ColorReaderAcceptsLinearStream | ColorModel.DistinctTagsSeparateTheTypes |
