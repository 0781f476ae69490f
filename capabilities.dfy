/**
 * What a GPU can do on a surface (src/app/capabilities.rs).
 *
 * `Capabilities::for_device_on_surface` scores a physical device by its type, reads the
 * surface capabilities and formats, picks the swapchain image count, composite alpha
 * and image format, and checks the device features and extensions.  The device and
 * surface queries are foreign calls into the Vulkan driver: here their answers are the
 * fields of a `PhysicalDeviceInfo` value.
 */
module AppCapabilities {
  import opened Wrappers

  /** `u32` */
  type U32 = x: int | 0 <= x < 0x1_0000_0000

  /** `u32::MAX` */
  const U32_MAX: U32 := 0xFFFF_FFFF

  /** `PhysicalDeviceType`; the enum is non-exhaustive, so a driver may report a type the match does not name. */
  datatype DeviceType = DiscreteGpu | IntegratedGpu | VirtualGpu | Other | Cpu | Unrecognised

  /** `CompositeAlpha` */
  datatype CompositeAlpha = Opaque | PreMultiplied | PostMultiplied | Inherit

  /** `(Format, ColorSpace)`, both opaque driver values. */
  datatype SurfaceFormat = SurfaceFormat(format: nat, colorSpace: nat)

  /** A `Validated<VulkanError>` reported by the driver. */
  datatype VkError = VkError(code: int)

  /** `SurfaceCapabilities`: the fields the code reads. */
  datatype SurfaceCaps = SurfaceCaps(
    minImageCount: U32,
    maxImageCount: Option<U32>,
    /** `supported_composite_alpha`, in the order its iterator yields them */
    supportedCompositeAlpha: seq<CompositeAlpha>)

  /**
   * The answers a physical device gives on a surface: its type, the surface
   * capabilities and formats (either query may fail), and its supported features
   * and extensions, as sets of names.
   */
  datatype PhysicalDeviceInfo = PhysicalDeviceInfo(
    deviceType: DeviceType,
    surfaceCaps: Result<SurfaceCaps, VkError>,
    surfaceFormats: Result<seq<SurfaceFormat>, VkError>,
    supportedFeatures: set<string>,
    supportedExtensions: set<string>)

  /** `CapabilityError` */
  datatype CapabilityError = VulkanError(error: VkError) | Unsuitable

  /**
   * `Capabilities`; the accessors `score`, `required_features`, `required_extensions`,
   * `swapchain_images`, `composite_alpha` and `image_format` return these fields.
   */
  datatype Capabilities = Capabilities(
    deviceFeatures: set<string>,
    deviceExtensions: set<string>,
    score: U32,
    swapchainImages: U32,
    compositeAlpha: CompositeAlpha,
    imageFormat: SurfaceFormat)

  /** `REQUIRED_DEVICE_EXTENSIONS`: only `khr_swapchain`. */
  const REQUIRED_DEVICE_EXTENSIONS: set<string> := {"khr_swapchain"}

  /** `REQUIRED_DEVICE_FEATURES`: none. */
  const REQUIRED_DEVICE_FEATURES: set<string> := {}

  /** `OPTIONAL_DEVICE_EXTENSIONS`: the required ones and nothing more. */
  const OPTIONAL_DEVICE_EXTENSIONS: set<string> := REQUIRED_DEVICE_EXTENSIONS

  /** `OPTIONAL_DEVICE_FEATURES`: the required ones and nothing more. */
  const OPTIONAL_DEVICE_FEATURES: set<string> := REQUIRED_DEVICE_FEATURES

  /**
   * The score of a device type: discrete GPUs rank highest, then integrated, virtual,
   * other and CPU; a type the match does not name scores nothing.
   */
  function Score(t: DeviceType): (s: U32)
    ensures s <= 5
    ensures s == 0 <==> t == Unrecognised
  {
    match t
    case DiscreteGpu => 5
    case IntegratedGpu => 4
    case VirtualGpu => 3
    case Other => 2
    case Cpu => 1
    case Unrecognised => 0
  }

  /** The ranking the scores induce, best first. */
  const Ranking: seq<DeviceType> := [DiscreteGpu, IntegratedGpu, VirtualGpu, Other, Cpu, Unrecognised]

  /** Scores strictly follow the ranking, so two device types never tie. */
  lemma ScoreFollowsRanking(a: nat, b: nat)
    requires a < b < |Ranking|
    ensures Score(Ranking[a]) > Score(Ranking[b])
  {
    assert forall k :: 0 <= k < |Ranking| ==> Score(Ranking[k]) == 5 - k;
  }

  function Max(a: int, b: int): int { if a < b then b else a }

  function Min(a: int, b: int): int { if a < b then a else b }

  /**
   * `min(max(min_image_count, 3), max_image_count.unwrap_or(u32::MAX))`: ask for
   * triple buffering or the driver's minimum if it is higher, but never more than a
   * maximum the driver states.
   */
  function SwapchainImages(minImageCount: U32, maxImageCount: Option<U32>): (n: U32)
    ensures maxImageCount.Some? ==> n <= maxImageCount.value
    ensures maxImageCount.None? ==> n >= 3 && n >= minImageCount
    ensures n == Max(minImageCount, 3) ||
      (maxImageCount.Some? && n == maxImageCount.value < Max(minImageCount, 3))
  {
    var cap := match maxImageCount case Some(m) => m case None => U32_MAX;
    Min(Max(minImageCount, 3), cap)
  }

  /**
   * `for_device_on_surface`.  The queries run in the order `for_device_on_surface` makes them: the surface
   * capabilities, then the surface formats; the first failing query's error is
   * returned.  `supported_composite_alpha.into_iter().next().unwrap()` panics when no
   * composite alpha is supported, so a device must report at least one.
   */
  function ForDeviceOnSurface(pd: PhysicalDeviceInfo): (r: Result<Capabilities, CapabilityError>)
    requires pd.surfaceCaps.Ok? ==> |pd.surfaceCaps.value.supportedCompositeAlpha| >= 1
    ensures pd.surfaceCaps.Err? ==> r == Err(VulkanError(pd.surfaceCaps.error))
    ensures pd.surfaceCaps.Ok? && pd.surfaceFormats.Err? ==> r == Err(VulkanError(pd.surfaceFormats.error))
    ensures r.Ok? ==> pd.surfaceCaps.Ok? && pd.surfaceFormats.Ok? && |pd.surfaceFormats.value| >= 1
    ensures r.Ok? ==>
      var caps := pd.surfaceCaps.value;
      && r.value.score == Score(pd.deviceType)
      && r.value.swapchainImages == SwapchainImages(caps.minImageCount, caps.maxImageCount)
      && r.value.compositeAlpha == caps.supportedCompositeAlpha[0]
      && r.value.imageFormat == pd.surfaceFormats.value[0]
      && r.value.deviceFeatures <= pd.supportedFeatures
      && r.value.deviceExtensions <= pd.supportedExtensions
  {
    var score := Score(pd.deviceType);
    match pd.surfaceCaps
    case Err(e) => Err(VulkanError(e))
    case Ok(caps) =>
      var swapchainImages := SwapchainImages(caps.minImageCount, caps.maxImageCount);
      var compositeAlpha := caps.supportedCompositeAlpha[0];
      match pd.surfaceFormats
      case Err(e) => Err(VulkanError(e))
      case Ok(formats) =>
        if |formats| == 0 then Err(Unsuitable)
        else if !(REQUIRED_DEVICE_FEATURES <= pd.supportedFeatures)
             || !(OPTIONAL_DEVICE_EXTENSIONS <= pd.supportedExtensions) then
          Err(Unsuitable)
        else
          Ok(Capabilities(
            pd.supportedFeatures * OPTIONAL_DEVICE_FEATURES,
            pd.supportedExtensions * OPTIONAL_DEVICE_EXTENSIONS,
            score, swapchainImages, compositeAlpha, formats[0]))
  }

  /**
   * A device is suitable exactly when both queries answer, some surface format
   * exists, and the required features and extensions are supported; it is rejected
   * as unsuitable exactly when the queries answer but one of those checks fails.
   */
  lemma SuitableIff(pd: PhysicalDeviceInfo)
    requires pd.surfaceCaps.Ok? ==> |pd.surfaceCaps.value.supportedCompositeAlpha| >= 1
    ensures ForDeviceOnSurface(pd).Ok? <==>
      && pd.surfaceCaps.Ok? && pd.surfaceFormats.Ok? && |pd.surfaceFormats.value| >= 1
      && REQUIRED_DEVICE_FEATURES <= pd.supportedFeatures
      && REQUIRED_DEVICE_EXTENSIONS <= pd.supportedExtensions
    ensures ForDeviceOnSurface(pd) == Err(Unsuitable) <==>
      && pd.surfaceCaps.Ok? && pd.surfaceFormats.Ok?
      && (|pd.surfaceFormats.value| == 0
          || !(REQUIRED_DEVICE_FEATURES <= pd.supportedFeatures)
          || !(REQUIRED_DEVICE_EXTENSIONS <= pd.supportedExtensions))
  {
  }

  /**
   * The features and extensions a suitable device gets enabled are supported ∩
   * optional; since the optional sets are the required sets, and those are
   * supported, they are exactly the optional sets.
   */
  lemma EnabledAreOptional(pd: PhysicalDeviceInfo)
    requires pd.surfaceCaps.Ok? ==> |pd.surfaceCaps.value.supportedCompositeAlpha| >= 1
    requires ForDeviceOnSurface(pd).Ok?
    ensures ForDeviceOnSurface(pd).value.deviceFeatures == OPTIONAL_DEVICE_FEATURES
    ensures ForDeviceOnSurface(pd).value.deviceExtensions == OPTIONAL_DEVICE_EXTENSIONS
    ensures "khr_swapchain" in ForDeviceOnSurface(pd).value.deviceExtensions
  {
  }
}
