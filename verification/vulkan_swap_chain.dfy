/** The Vulkan swap chain: how the requested extent and image count are fitted
    into the surface's limits, the back-buffer descriptors built for the
    images the driver returns, and the `currentImage` handoff from
    `AcquireBackTexture` to `Present`.

    What the driver reports (surface capabilities, supported formats and
    present modes, the images of the created swap chain, success of each
    native call) is a parameter. */
module VulkanSwapChain {
  import opened Wrappers
  import opened Rhi

  // ---------------------------------------------------------------------
  // Clamping

  /** `std::clamp(v, lo, hi)` as the C++ library spells it out:
      `v < lo ? lo : (hi < v ? hi : v)`. The standard demands `lo <= hi`; the
      expression itself is evaluated whatever the bounds are. */
  function StdClamp(v: nat, lo: nat, hi: nat): (r: nat)
    ensures lo <= hi ==> lo <= r <= hi
    ensures lo <= hi && lo <= v <= hi ==> r == v
    ensures v < lo ==> r == lo
    ensures lo <= v && hi < v ==> r == hi
  {
    if v < lo then lo else if hi < v then hi else v
  }

  /** Clamping is idempotent and keeps values that already fit. */
  lemma StdClampIsAProjection(v: nat, lo: nat, hi: nat)
    requires lo <= hi
    ensures StdClamp(StdClamp(v, lo, hi), lo, hi) == StdClamp(v, lo, hi)
    ensures StdClamp(v, lo, hi) == v <==> lo <= v <= hi
  {
  }

  /** `VkSurfaceCapabilitiesKHR`, as far as the swap chain reads it. Vulkan
      guarantees `minImageCount >= 1`, ordered extent bounds, and uses
      `maxImageCount == 0` for "no upper limit". */
  datatype SurfaceCapabilities = SurfaceCapabilities(
    minImageCount: nat,
    maxImageCount: nat,
    minWidth: nat,
    minHeight: nat,
    maxWidth: nat,
    maxHeight: nat)
  {
    predicate Valid() {
      && 1 <= minImageCount < Uint32Limit && maxImageCount < Uint32Limit
      && (maxImageCount == 0 || minImageCount <= maxImageCount)
      && minWidth <= maxWidth < Uint32Limit && minHeight <= maxHeight < Uint32Limit
    }
  }

  /** The image count as written: a plain clamp into
      `[minImageCount, maxImageCount]`, including when `maxImageCount` is the
      "unbounded" value 0. */
  function ImageCountAsWritten(requested: nat, caps: SurfaceCapabilities): (n: nat)
    ensures caps.maxImageCount != 0 && caps.minImageCount <= caps.maxImageCount ==>
              caps.minImageCount <= n <= caps.maxImageCount
  {
    StdClamp(requested, caps.minImageCount, caps.maxImageCount)
  }

  /** On a surface without an upper image limit, the clamp as written asks
      for zero images, below the surface's minimum, for any request that
      meets the minimum. */
  lemma UnboundedSurfaceGetsZeroImages(requested: nat, caps: SurfaceCapabilities)
    requires caps.Valid() && caps.maxImageCount == 0
    requires caps.minImageCount <= requested
    ensures ImageCountAsWritten(requested, caps) == 0 < caps.minImageCount
  {
  }

  /** The image count with `maxImageCount == 0` read as "no upper limit":
      the request raised to the surface minimum, and otherwise clamped. */
  function ImageCount(requested: nat, caps: SurfaceCapabilities): (n: nat)
    requires caps.Valid()
    ensures caps.minImageCount <= n
    ensures caps.maxImageCount != 0 ==> n <= caps.maxImageCount
    ensures (requested >= caps.minImageCount && (caps.maxImageCount == 0 || requested <= caps.maxImageCount))
              ==> n == requested
  {
    if caps.maxImageCount == 0 then
      if requested < caps.minImageCount then caps.minImageCount else requested
    else StdClamp(requested, caps.minImageCount, caps.maxImageCount)
  }

  /** The two agree on every surface that does have an upper limit. */
  lemma ImageCountAgreesWhenBounded(requested: nat, caps: SurfaceCapabilities)
    requires caps.Valid() && caps.maxImageCount != 0
    ensures ImageCount(requested, caps) == ImageCountAsWritten(requested, caps)
  {
  }

  // ---------------------------------------------------------------------
  // Creation

  /** The fields of `VkSwapchainCreateInfoKHR` the code computes. */
  datatype NativeSwapChainInfo = NativeSwapChainInfo(
    minImageCount: nat,
    format: PixelFormat,
    presentMode: PresentMode,
    width: nat,
    height: nat,
    imageArrayLayers: nat)

  /** Everything the driver answers during creation. */
  datatype Driver = Driver(
    caps: SurfaceCapabilities,
    formatSupported: bool,
    presentModes: seq<PresentMode>,
    createSucceeds: bool,
    images: seq<nat>)

  /** A back-buffer texture: its descriptor and the driver image it wraps. */
  datatype Texture = Texture(info: TextureCreateInfo, image: nat)

  datatype VulkanSwapChain = VulkanSwapChain(
    nativeInfo: NativeSwapChainInfo,
    textures: seq<Texture>,
    imageCount: nat,
    currentImage: nat)

  datatype SwapChainError =
    | MissingPresentQueue
    | MissingSurface
    | FormatUnsupported
    | NoPresentModes
    | PresentModeUnsupported
    | NativeCreateFailed
    | AcquireFailed
    | PresentFailed

  /** The descriptor given to every back buffer (the debug name is left
      empty). */
  function BackBufferInfo(width: nat, height: nat, format: PixelFormat): (t: TextureCreateInfo)
    ensures IsBackBufferInfo(t, width, height, format) && t.debugName == ""
  {
    TextureCreateInfo(T2D, width, height, 1, format, {RenderAttachment}, 1, 1, TextureState.Present, "")
  }

  /** One texture per driver image, in the driver's order. */
  function WrapImages(images: seq<nat>, info: TextureCreateInfo): (textures: seq<Texture>)
    ensures |textures| == |images|
    ensures forall i :: 0 <= i < |images| ==> textures[i] == Texture(info, images[i])
  {
    seq(|images|, i requires 0 <= i < |images| => Texture(info, images[i]))
  }

  /** The constructor (`CreateNativeSwapChain`). `currentImage` is not
      initialised by the constructor, so its first value is a parameter. */
  function CreateSwapChain(request: SwapChainCreateInfo, driver: Driver, initialCurrentImage: nat)
    : (r: Result<VulkanSwapChain, SwapChainError>)
    requires request.Valid() && driver.caps.Valid()
    ensures r.Success? <==>
              && request.hasPresentQueue && request.hasSurface && driver.formatSupported
              && |driver.presentModes| > 0 && request.presentMode in driver.presentModes
              && driver.createSucceeds
    ensures !request.hasPresentQueue ==> r == Failure(MissingPresentQueue)
    ensures request.hasPresentQueue && !request.hasSurface ==> r == Failure(MissingSurface)
    ensures r.Success? ==>
              var sc := r.value;
              var caps := driver.caps;
              && caps.minWidth <= sc.nativeInfo.width <= caps.maxWidth
              && caps.minHeight <= sc.nativeInfo.height <= caps.maxHeight
              && (caps.minWidth <= request.width <= caps.maxWidth ==> sc.nativeInfo.width == request.width)
              && (caps.minHeight <= request.height <= caps.maxHeight ==> sc.nativeInfo.height == request.height)
              && sc.nativeInfo.minImageCount == ImageCount(request.textureNum, caps)
              && (caps.maxImageCount != 0 ==>
                    sc.nativeInfo.minImageCount == ImageCountAsWritten(request.textureNum, caps))
              && sc.nativeInfo.format == request.format
              && sc.nativeInfo.presentMode == request.presentMode
              && sc.nativeInfo.imageArrayLayers == 1
              && |sc.textures| == |driver.images| == sc.imageCount
              && (forall i :: 0 <= i < |sc.textures| ==>
                    && sc.textures[i].image == driver.images[i]
                    && IsBackBufferInfo(sc.textures[i].info, sc.nativeInfo.width, sc.nativeInfo.height, request.format))
  {
    if !request.hasPresentQueue then Failure(MissingPresentQueue)
    else if !request.hasSurface then Failure(MissingSurface)
    else
      var caps := driver.caps;
      var width := StdClamp(request.width, caps.minWidth, caps.maxWidth);
      var height := StdClamp(request.height, caps.minHeight, caps.maxHeight);
      if !driver.formatSupported then Failure(FormatUnsupported)
      else if |driver.presentModes| == 0 then Failure(NoPresentModes)
      else if request.presentMode !in driver.presentModes then Failure(PresentModeUnsupported)
      else
        var native := NativeSwapChainInfo(ImageCount(request.textureNum, caps), request.format,
                                          request.presentMode, width, height, 1);
        if !driver.createSucceeds then Failure(NativeCreateFailed)
        else
          var textures := WrapImages(driver.images, BackBufferInfo(width, height, request.format));
          Success(VulkanSwapChain(native, textures, |driver.images|, initialCurrentImage))
  }

  /** `GetTextureNum`: the number of driver images, returned through a
      `uint8_t`. */
  function GetTextureNum(sc: VulkanSwapChain): (n: nat)
    ensures n < Uint8Limit
    ensures sc.imageCount < Uint8Limit ==> n == sc.imageCount
    ensures (sc.imageCount - n) % Uint8Limit == 0
  {
    sc.imageCount % Uint8Limit
  }

  /** Every texture of a created swap chain is counted, as long as the driver
      returned fewer than 256 images. */
  lemma TextureNumCountsTheTextures(request: SwapChainCreateInfo, driver: Driver, initialCurrentImage: nat)
    requires request.Valid() && driver.caps.Valid()
    requires CreateSwapChain(request, driver, initialCurrentImage).Success?
    requires |driver.images| < Uint8Limit
    ensures GetTextureNum(CreateSwapChain(request, driver, initialCurrentImage).value)
              == |CreateSwapChain(request, driver, initialCurrentImage).value.textures|
  {
  }

  // ---------------------------------------------------------------------
  // Acquire and present

  /** `AcquireBackTexture`: the driver's image index is stored in
      `currentImage` and returned through a `uint8_t`. */
  function AcquireBackTexture(sc: VulkanSwapChain, driverIndex: nat, succeeded: bool)
    : (r: Result<(VulkanSwapChain, nat), SwapChainError>)
    requires driverIndex < Uint32Limit
    ensures r.Success? <==> succeeded
    ensures r.Success? ==> r.value.0 == sc.(currentImage := driverIndex)
    ensures r.Success? ==> r.value.1 < Uint8Limit && (r.value.1 - driverIndex) % Uint8Limit == 0
  {
    if !succeeded then Failure(AcquireFailed)
    else Success((sc.(currentImage := driverIndex), driverIndex % Uint8Limit))
  }

  /** `Present`: the image index handed to the driver. */
  function Present(sc: VulkanSwapChain, succeeded: bool): (r: Result<nat, SwapChainError>)
    ensures r.Success? <==> succeeded
    ensures r.Success? ==> r.value == sc.currentImage
  {
    if succeeded then Success(sc.currentImage) else Failure(PresentFailed)
  }

  /** A successful call on the swap chain, with the driver's image index for
      an acquire. */
  datatype Call = AcquireCall(driverIndex: nat) | PresentCall

  predicate ValidCalls(calls: seq<Call>) {
    forall k :: 0 <= k < |calls| && calls[k].AcquireCall? ==> calls[k].driverIndex < Uint32Limit
  }

  /** The image indices presented by a sequence of successful calls. */
  function Replay(sc: VulkanSwapChain, calls: seq<Call>): (presented: seq<nat>)
    requires ValidCalls(calls)
    decreases |calls|
  {
    if |calls| == 0 then []
    else
      var rest := calls[1..];
      assert ValidCalls(rest) by {
        forall k | 0 <= k < |rest| && rest[k].AcquireCall? ensures rest[k].driverIndex < Uint32Limit {
          assert rest[k] == calls[k + 1];
        }
      }
      match calls[0]
      case AcquireCall(index) =>
        Replay(AcquireBackTexture(sc, index, true).value.0, rest)
      case PresentCall =>
        [Present(sc, true).value] + Replay(sc, rest)
  }

  function CountPresents(calls: seq<Call>): nat
    decreases |calls|
  {
    if |calls| == 0 then 0
    else (if calls[0].PresentCall? then 1 else 0) + CountPresents(calls[1..])
  }

  /** Reference: the image index of the latest acquire among the first `k`
      calls, or `initial` when there is none. */
  function LatestAcquired(calls: seq<Call>, k: nat, initial: nat): nat
    requires k <= |calls|
    decreases k
  {
    if k == 0 then initial
    else if calls[k - 1].AcquireCall? then calls[k - 1].driverIndex
    else LatestAcquired(calls, k - 1, initial)
  }

  /** The `j`-th present of the trace presents the index acquired last before
      it. */
  lemma {:induction false} PresentUsesLatestAcquire(sc: VulkanSwapChain, calls: seq<Call>, k: nat)
    requires ValidCalls(calls)
    requires k < |calls| && calls[k].PresentCall?
    ensures CountPresents(calls[..k]) < |Replay(sc, calls)|
    ensures Replay(sc, calls)[CountPresents(calls[..k])] == LatestAcquired(calls, k, sc.currentImage)
    decreases k
  {
    var rest := calls[1..];
    assert ValidCalls(rest) by {
      forall j | 0 <= j < |rest| && rest[j].AcquireCall? ensures rest[j].driverIndex < Uint32Limit {
        assert rest[j] == calls[j + 1];
      }
    }
    if k == 0 {
      assert calls[..0] == [];
    } else {
      var next := if calls[0].AcquireCall? then sc.(currentImage := calls[0].driverIndex) else sc;
      PresentUsesLatestAcquire(next, rest, k - 1);
      assert calls[..k] == [calls[0]] + rest[..k - 1];
      assert CountPresents(calls[..k]) == (if calls[0].PresentCall? then 1 else 0) + CountPresents(rest[..k - 1]);
      LatestAcquiredShift(calls, k, sc.currentImage);
    }
  }

  /** Dropping the first call moves the reference point by one, with the
      first call's effect folded into the initial value. */
  lemma {:induction false} LatestAcquiredShift(calls: seq<Call>, k: nat, initial: nat)
    requires 1 <= k <= |calls|
    ensures LatestAcquired(calls, k, initial)
            == LatestAcquired(calls[1..], k - 1,
                 if calls[0].AcquireCall? then calls[0].driverIndex else initial)
    decreases k
  {
    if k > 1 {
      assert calls[1..][k - 2] == calls[k - 1];
      if !calls[k - 1].AcquireCall? {
        LatestAcquiredShift(calls, k - 1, initial);
      }
    }
  }

  // ---------------------------------------------------------------------
  // Destruction

  /** The destructor: every texture is deleted and the list left empty. */
  function Destroy(sc: VulkanSwapChain): (r: (VulkanSwapChain, seq<Texture>))
    ensures |r.0.textures| == 0
    ensures r.0.nativeInfo == sc.nativeInfo
    ensures forall t :: t in sc.textures <==> t in r.1
  {
    (sc.(textures := []), sc.textures)
  }

  /** Destroying a created swap chain deletes one texture per driver image. */
  lemma DestroyDeletesEveryImage(request: SwapChainCreateInfo, driver: Driver, initialCurrentImage: nat)
    requires request.Valid() && driver.caps.Valid()
    requires CreateSwapChain(request, driver, initialCurrentImage).Success?
    ensures var deleted := Destroy(CreateSwapChain(request, driver, initialCurrentImage).value).1;
            |deleted| == |driver.images|
            && forall i :: 0 <= i < |deleted| ==> deleted[i].image == driver.images[i]
  {
  }
}
