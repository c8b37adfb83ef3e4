/** The backend-neutral RHI vocabulary shared by the swap chains and the
    SSAO sample: texture states, texture descriptors and swap-chain
    requests. Pixel formats are opaque codes: only their identity matters
    here. */
module Rhi {

  const Uint8Limit: nat := 0x100
  const Uint32Limit: nat := 0x1_0000_0000

  /** `RHIType`: the backend an instance drives. */
  datatype RhiType = DirectX12 | Vulkan | Metal

  datatype PixelFormat = PixelFormat(code: nat)

  /** `PresentMode`: `immediately` is the only mode the code distinguishes;
      every other mode behaves alike wherever the code compares modes. */
  datatype PresentMode = Immediately | Vsync

  datatype TextureState =
    | Undefined
    | Present
    | RenderTarget
    | ShaderReadOnly
    | CopyDst
    | DepthStencilReadonly
    | DepthStencilWrite

  datatype TextureUsage = RenderAttachment | DepthStencilAttachment | TextureBindingUsage | CopyDstUsage

  datatype TextureDimension = T1D | T2D | T3D

  /** `TextureCreateInfo`. */
  datatype TextureCreateInfo = TextureCreateInfo(
    dimension: TextureDimension,
    width: nat,
    height: nat,
    depthOrArraySize: nat,
    format: PixelFormat,
    usages: set<TextureUsage>,
    mipLevels: nat,
    samples: nat,
    initialState: TextureState,
    debugName: string)

  /** The fixed shape every back buffer has in both backends: a single-level,
      single-sample 2D render attachment that starts in the `present` state. */
  predicate IsBackBufferInfo(t: TextureCreateInfo, width: nat, height: nat, format: PixelFormat) {
    && t.dimension == T2D
    && t.width == width && t.height == height && t.depthOrArraySize == 1
    && t.format == format
    && t.usages == {RenderAttachment}
    && t.mipLevels == 1 && t.samples == 1
    && t.initialState == Present
  }

  /** `SwapChainCreateInfo`; the queue and surface pointers are reduced to
      whether they are set. */
  datatype SwapChainCreateInfo = SwapChainCreateInfo(
    hasPresentQueue: bool,
    hasSurface: bool,
    textureNum: nat,
    format: PixelFormat,
    width: nat,
    height: nat,
    presentMode: PresentMode)
  {
    /** `textureNum` is a `uint8_t`, width and height `uint32_t`. */
    predicate Valid() {
      textureNum < Uint8Limit && width < Uint32Limit && height < Uint32Limit
    }
  }
}
