/** The DirectX 12 swap chain: the native descriptor that mirrors the
    request, the named back-buffer descriptors of `FetchTextures`, the sync
    interval, and the fence-value protocol between `AcquireBackTexture` and
    `Present`. The RHI semaphore is a D3D12 fence, modelled by its value. */
module DX12SwapChain {
  import opened Wrappers
  import opened Rhi
  import Text

  /** `GetSyncInterval`: 0 (tear) for `immediately`, 1 (wait for one
      vertical blank) for every other mode. */
  function GetSyncInterval(mode: PresentMode): (interval: nat)
    ensures interval == 0 <==> mode == Immediately
    ensures interval <= 1
  {
    if mode == Immediately then 0 else 1
  }

  /** The fields of `DXGI_SWAP_CHAIN_DESC1` the code sets. */
  datatype SwapChainDesc = SwapChainDesc(
    bufferCount: nat,
    width: nat,
    height: nat,
    format: PixelFormat,
    renderTargetOutput: bool,
    flipDiscard: bool,
    sampleCount: nat)

  /** The descriptor `CreateDX12SwapChain` hands to DXGI. */
  function NativeDesc(request: SwapChainCreateInfo): (desc: SwapChainDesc)
    ensures desc.bufferCount == request.textureNum
    ensures desc.width == request.width && desc.height == request.height
    ensures desc.format == request.format && desc.sampleCount == 1
    ensures desc.renderTargetOutput && desc.flipDiscard
  {
    SwapChainDesc(request.textureNum, request.width, request.height, request.format, true, true, 1)
  }

  /** The debug name of back buffer `i`: `"BackBuffer-"` and `i` in decimal. */
  function BackBufferName(i: nat): (name: string)
    ensures |name| > 11 && name[..11] == "BackBuffer-"
    ensures Text.AllDigits(name[11..]) && Text.ParseDecimal(name[11..]) == i
  {
    Text.ParseInvertsToDecimal(i);
    var name := "BackBuffer-" + Text.ToDecimal(i);
    assert name[11..] == Text.ToDecimal(i);
    name
  }

  /** No two back buffers share a debug name. */
  lemma BackBufferNamesAreDistinct(i: nat, j: nat)
    requires i != j
    ensures BackBufferName(i) != BackBufferName(j)
  {
  }

  /** `FetchTextures`: `textureNum` descriptors; descriptor `i` is the fixed
      back-buffer shape with the request's size and format, named after `i`. */
  method FetchTextures(request: SwapChainCreateInfo) returns (textures: seq<TextureCreateInfo>)
    requires request.Valid()
    ensures |textures| == request.textureNum
    ensures forall i :: 0 <= i < |textures| ==>
              IsBackBufferInfo(textures[i], request.width, request.height, request.format)
    ensures forall i :: 0 <= i < |textures| ==> textures[i].debugName == BackBufferName(i)
    ensures forall i, j :: 0 <= i < j < |textures| ==> textures[i].debugName != textures[j].debugName
  {
    textures := [];
    var i := 0;
    while i < request.textureNum
      invariant 0 <= i <= request.textureNum
      invariant |textures| == i
      invariant forall k :: 0 <= k < i ==>
                  IsBackBufferInfo(textures[k], request.width, request.height, request.format)
      invariant forall k :: 0 <= k < i ==> textures[k].debugName == BackBufferName(k)
    {
      var info := TextureCreateInfo(T2D, request.width, request.height, 1, request.format,
                                    {RenderAttachment}, 1, 1, TextureState.Present, BackBufferName(i));
      textures := textures + [info];
      i := i + 1;
    }
    forall i, j | 0 <= i < j < |textures| ensures textures[i].debugName != textures[j].debugName {
      BackBufferNamesAreDistinct(i, j);
    }
  }

  datatype DX12SwapChain = DX12SwapChain(
    presentMode: PresentMode,
    textureNum: nat,
    desc: SwapChainDesc,
    textures: seq<TextureCreateInfo>)

  datatype SwapChainError =
    | MissingPresentQueue
    | MissingSurface
    | NativeCreateFailed
    | GetBufferFailed
    | SignalFailed
    | WaitFailed
    | PresentFailed

  /** `GetTextureNum`: the requested count, with no clamping. */
  function GetTextureNum(sc: DX12SwapChain): (n: nat)
    ensures n == sc.textureNum
  {
    sc.textureNum
  }

  /** The constructor: the requested mode and texture count are stored
      unchanged, the native swap chain is created from `NativeDesc`, and the
      back buffers are fetched. Native failures are parameters. */
  method CreateSwapChain(request: SwapChainCreateInfo, nativeCreateSucceeds: bool, getBufferSucceeds: bool)
    returns (r: Result<DX12SwapChain, SwapChainError>)
    requires request.Valid()
    ensures r.Success? <==> request.hasPresentQueue && request.hasSurface && nativeCreateSucceeds
                            && (request.textureNum == 0 || getBufferSucceeds)
    ensures !request.hasPresentQueue ==> r == Failure(MissingPresentQueue)
    ensures request.hasPresentQueue && !request.hasSurface ==> r == Failure(MissingSurface)
    ensures r.Success? ==> GetTextureNum(r.value) == request.textureNum && r.value.presentMode == request.presentMode
    ensures r.Success? ==> r.value.desc == NativeDesc(request)
    ensures r.Success? ==> |r.value.textures| == request.textureNum == r.value.desc.bufferCount
    ensures r.Success? ==> forall i :: 0 <= i < |r.value.textures| ==>
              && IsBackBufferInfo(r.value.textures[i], request.width, request.height, request.format)
              && r.value.textures[i].debugName == BackBufferName(i)
  {
    if !request.hasPresentQueue {
      return Failure(MissingPresentQueue);
    }
    if !request.hasSurface {
      return Failure(MissingSurface);
    }
    if !nativeCreateSucceeds {
      return Failure(NativeCreateFailed);
    }
    if request.textureNum > 0 && !getBufferSucceeds {
      return Failure(GetBufferFailed);
    }
    var textures := FetchTextures(request);
    r := Success(DX12SwapChain(request.presentMode, request.textureNum, NativeDesc(request), textures));
  }

  // ---------------------------------------------------------------------
  // Fence protocol

  /** A D3D12 fence: its current value and the values signalled so far. */
  datatype Fence = Fence(value: nat, signals: seq<nat>)

  function Signal(f: Fence, v: nat): (f': Fence)
    ensures f'.value == v && f'.signals == f.signals + [v]
  {
    Fence(v, f.signals + [v])
  }

  /** `AcquireBackTexture`: reads the back-buffer index (returned through a
      `uint8_t`), then signals the semaphore to 0 and then to 1. */
  function AcquireBackTexture(fence: Fence, currentBackBufferIndex: nat, signalsSucceed: bool)
    : (r: Result<(Fence, nat), SwapChainError>)
    requires currentBackBufferIndex < Uint32Limit
    ensures r.Success? <==> signalsSucceed
    ensures r.Success? ==> r.value.0.value == 1
    ensures r.Success? ==> r.value.0.signals == fence.signals + [0, 1]
    ensures r.Success? ==> r.value.1 < Uint8Limit && (r.value.1 - currentBackBufferIndex) % Uint8Limit == 0
  {
    if !signalsSucceed then Failure(SignalFailed)
    else Success((Signal(Signal(fence, 0), 1), currentBackBufferIndex % Uint8Limit))
  }

  /** What `Present` asks of the native queue and swap chain: a GPU wait
      until the semaphore reaches `waitValue`, then a present with
      `syncInterval`. */
  datatype PresentCall = PresentCall(waitValue: nat, syncInterval: nat)

  function Present(sc: DX12SwapChain, waitSucceeds: bool, presentSucceeds: bool)
    : (r: Result<PresentCall, SwapChainError>)
    ensures r.Success? <==> waitSucceeds && presentSucceeds
    ensures !waitSucceeds ==> r == Failure(WaitFailed)
    ensures r.Success? ==> r.value.waitValue == 1
    ensures r.Success? ==> (r.value.syncInterval == 0 <==> sc.presentMode == Immediately)
  {
    if !waitSucceeds then Failure(WaitFailed)
    else if !presentSucceeds then Failure(PresentFailed)
    else Success(PresentCall(1, GetSyncInterval(sc.presentMode)))
  }

  /** A GPU wait on `fence` for `waitValue` is already satisfied. */
  predicate WaitSatisfied(fence: Fence, waitValue: nat) {
    fence.value >= waitValue
  }

  /** Whatever value the semaphore held, an acquire leaves it where the
      following present's wait is satisfied; a semaphore still at 0 (never
      acquired with) would make the present wait. */
  lemma AcquireSatisfiesPresentWait(sc: DX12SwapChain, fence: Fence, index: nat)
    requires index < Uint32Limit
    ensures WaitSatisfied(AcquireBackTexture(fence, index, true).value.0, Present(sc, true, true).value.waitValue)
    ensures !WaitSatisfied(Fence(0, fence.signals), Present(sc, true, true).value.waitValue)
  {
  }
}
