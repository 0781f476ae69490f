/**
 * The GPU resource lifecycle (src/app/resources.rs).
 *
 * `RenderResources` owns an optional `DeviceResources`, which owns an optional
 * `SwapchainResources`: device resources live as long as the window, the swapchain
 * may be destroyed and recreated at any time.  Every Vulkan object is opaque here;
 * a call into the driver that may fail becomes a parameter carrying its outcome, and
 * a driver query becomes a field of the device description it is asked of.
 */
module AppResources {
  import opened Wrappers
  import opened AppCapabilities

  /** A `HandleError` of the windowing layer, opaque. */
  datatype HandleError = HandleError(code: int)

  /** `ResourceError`, with the variants the modelled code can produce. */
  datatype ResourceError =
    | VulkanNoSuitableDevice
    | VulkanError(error: VkError)
    | ValidatedVulkanError(validated: VkError)
    | ValidatedHandleError(handle: HandleError)
    | SurfaceCreationError

  // ---------------------------------------------------------------------------
  // Choosing the physical device
  // ---------------------------------------------------------------------------

  /** A physical device with its capabilities on the surface, as `for_device_on_surface` reported them. */
  datatype Assessed<D> = Assessed(device: D, caps: Result<Capabilities, CapabilityError>)

  /** A device that passed: the device and its capabilities. */
  datatype Candidate<D> = Candidate(device: D, caps: Capabilities)

  /** The assessment is a driver failure (as opposed to a verdict of unsuitability). */
  predicate Failed<D>(a: Assessed<D>) {
    a.caps.Err? && a.caps.error.VulkanError?
  }

  /** Device `k` is the first whose assessment failed, with error `e`. */
  predicate FirstFailure<D>(assessed: seq<Assessed<D>>, k: nat, e: VkError) {
    && k < |assessed|
    && assessed[k].caps == Err(CapabilityError.VulkanError(e))
    && forall j :: 0 <= j < k ==> !Failed(assessed[j])
  }

  /** The devices whose assessment is `Ok`, with their capabilities, in enumeration order. */
  function Suitable<D>(assessed: seq<Assessed<D>>): seq<Candidate<D>>
    decreases |assessed|
  {
    if assessed == [] then []
    else
      (if assessed[0].caps.Ok? then [Candidate(assessed[0].device, assessed[0].caps.value)] else [])
      + Suitable(assessed[1..])
  }

  /** Every suitable device appears among the suitable ones. */
  lemma {:induction false} SuitableHas<D>(assessed: seq<Assessed<D>>, k: nat)
    requires k < |assessed| && assessed[k].caps.Ok?
    ensures Candidate(assessed[k].device, assessed[k].caps.value) in Suitable(assessed)
    decreases |assessed|
  {
    if k > 0 {
      SuitableHas(assessed[1..], k - 1);
      assert assessed[1..][k - 1] == assessed[k];
    }
  }

  /**
   * The `filter_map` and `collect::<Result<Vec<_>, _>>()` of `DeviceResources::new`:
   * unsuitable devices are dropped, suitable ones kept in order, and the first driver
   * failure ends the collection with its error.
   */
  function Candidates<D>(assessed: seq<Assessed<D>>): (r: Result<seq<Candidate<D>>, VkError>)
    ensures r.Err? <==> exists k :: 0 <= k < |assessed| && Failed(assessed[k])
    ensures r.Err? ==> exists k :: FirstFailure(assessed, k, r.error)
    ensures r.Ok? ==> r.value == Suitable(assessed)
    ensures r.Ok? ==> forall c :: c in r.value ==> Assessed(c.device, Ok(c.caps)) in assessed
    ensures r.Ok? ==> forall k :: 0 <= k < |assessed| && assessed[k].caps.Ok? ==>
      Candidate(assessed[k].device, assessed[k].caps.value) in r.value
    decreases |assessed|
  {
    if assessed == [] then Ok([])
    else
      var a := assessed[0];
      var rest := Candidates(assessed[1..]);
      assert forall k :: 1 <= k < |assessed| ==> assessed[k] == assessed[1..][k - 1];
      assert !Failed(a) && rest.Err? ==> exists k :: FirstFailure(assessed, k, rest.error) by {
        if !Failed(a) && rest.Err? {
          var k: nat :| FirstFailure(assessed[1..], k, rest.error);
          assert FirstFailure(assessed, k + 1, rest.error);
        }
      }
      match a.caps
      case Err(err) =>
        if err.VulkanError? then
          assert FirstFailure(assessed, 0, err.error);
          Err(err.error)
        else
          rest
      case Ok(caps) =>
        match rest
        case Err(e) => Err(e)
        case Ok(cs) => Ok([Candidate(a.device, caps)] + cs)
  }

  /**
   * `max_by_key(|(_, caps)| caps.score())`: the position of a best-scoring candidate;
   * like `Iterator::max_by_key`, the last of several equally good ones.
   */
  function BestIndex<D>(cands: seq<Candidate<D>>): (k: nat)
    requires |cands| >= 1
    ensures k < |cands|
    ensures forall j :: 0 <= j < |cands| ==> cands[j].caps.score <= cands[k].caps.score
    ensures forall j :: k < j < |cands| ==> cands[j].caps.score < cands[k].caps.score
    decreases |cands|
  {
    if |cands| == 1 then 0
    else
      var m := BestIndex(cands[..|cands| - 1]);
      if cands[|cands| - 1].caps.score >= cands[m].caps.score then |cands| - 1 else m
  }

  /** The last best candidate is the only position scoring at least every other and more than every later one. */
  lemma BestIndexUnique<D>(cands: seq<Candidate<D>>, k: nat)
    requires k < |cands|
    requires forall j :: 0 <= j < |cands| ==> cands[j].caps.score <= cands[k].caps.score
    requires forall j :: k < j < |cands| ==> cands[j].caps.score < cands[k].caps.score
    ensures BestIndex(cands) == k
  {
  }

  /**
   * Device `k` of the enumeration is suitable with the capabilities of `c`, and every
   * suitable device enumerated after it scores less.
   */
  ghost predicate LastBestAt<D>(assessed: seq<Assessed<D>>, k: nat, c: Candidate<D>) {
    && k < |assessed|
    && assessed[k] == Assessed(c.device, Ok(c.caps))
    && forall j :: k < j < |assessed| && assessed[j].caps.Ok? ==> assessed[j].caps.value.score < c.caps.score
  }

  /** A position after which every suitable device scores less keeps that property one device later. */
  lemma LastBestShift<D>(assessed: seq<Assessed<D>>, k: nat, c: Candidate<D>)
    requires |assessed| >= 1 && LastBestAt(assessed[1..], k, c)
    ensures LastBestAt(assessed, k + 1, c)
  {
    assert forall j :: k + 1 < j < |assessed| ==> assessed[j] == assessed[1..][j - 1];
  }

  /** A suitable first device that outscores every later suitable one is the last best. */
  lemma HeadLastBest<D>(assessed: seq<Assessed<D>>)
    requires |assessed| >= 1 && assessed[0].caps.Ok?
    requires forall j :: 0 < j < |Suitable(assessed)| ==>
      Suitable(assessed)[j].caps.score < Suitable(assessed)[0].caps.score
    ensures LastBestAt(assessed, 0, Suitable(assessed)[0])
  {
    var s, rest := Suitable(assessed), Suitable(assessed[1..]);
    var c0 := Candidate(assessed[0].device, assessed[0].caps.value);
    assert s == [c0] + rest;
    forall j | 0 < j < |assessed| && assessed[j].caps.Ok?
      ensures assessed[j].caps.value.score < c0.caps.score
    {
      SuitableHas(assessed[1..], j - 1);
      assert assessed[1..][j - 1] == assessed[j];
      var m :| 0 <= m < |rest| && rest[m] == Candidate(assessed[j].device, assessed[j].caps.value);
      assert s[m + 1] == rest[m];
    }
  }

  /** Past a suitable first device, suitable device `i` is suitable device `i'` of the rest, and so are those after it. */
  lemma SuitableTail<D>(assessed: seq<Assessed<D>>, i: nat) returns (i': nat)
    requires i < |Suitable(assessed)| && !(assessed[0].caps.Ok? && i == 0)
    requires forall j :: i < j < |Suitable(assessed)| ==>
      Suitable(assessed)[j].caps.score < Suitable(assessed)[i].caps.score
    ensures i' < |Suitable(assessed[1..])| && Suitable(assessed[1..])[i'] == Suitable(assessed)[i]
    ensures forall j :: i' < j < |Suitable(assessed[1..])| ==>
      Suitable(assessed[1..])[j].caps.score < Suitable(assessed[1..])[i'].caps.score
  {
    var s, rest := Suitable(assessed), Suitable(assessed[1..]);
    if assessed[0].caps.Ok? {
      assert s == [Candidate(assessed[0].device, assessed[0].caps.value)] + rest;
      i' := i - 1;
      assert forall j :: 0 <= j < |rest| ==> rest[j] == s[j + 1];
    } else {
      assert s == rest;
      i' := i;
    }
  }

  /**
   * A suitable device that outscores every later suitable one stands at a position
   * of the enumeration after which every suitable device scores less.
   */
  lemma {:induction false} SuitableLastBest<D>(assessed: seq<Assessed<D>>, i: nat)
    requires i < |Suitable(assessed)|
    requires forall j :: i < j < |Suitable(assessed)| ==>
      Suitable(assessed)[j].caps.score < Suitable(assessed)[i].caps.score
    ensures exists k :: LastBestAt(assessed, k, Suitable(assessed)[i])
    decreases |assessed|
  {
    if assessed[0].caps.Ok? && i == 0 {
      HeadLastBest(assessed);
    } else {
      var i' := SuitableTail(assessed, i);
      SuitableLastBest(assessed[1..], i');
      var k :| LastBestAt(assessed[1..], k, Suitable(assessed[1..])[i']);
      LastBestShift(assessed, k, Suitable(assessed)[i]);
    }
  }

  /**
   * The device choice of `DeviceResources::new`: enumerating the devices may fail; a
   * driver failure while assessing them aborts; with no suitable device left the
   * result is `VulkanNoSuitableDevice`; otherwise the best-scoring one is chosen.
   */
  function ChooseDevice<D>(enumerated: Result<seq<Assessed<D>>, VkError>): (r: Result<Candidate<D>, ResourceError>)
    ensures enumerated.Err? ==> r == Err(ResourceError.VulkanError(enumerated.error))
    ensures enumerated.Ok? && Candidates(enumerated.value).Err? ==>
      r == Err(ValidatedVulkanError(Candidates(enumerated.value).error))
    ensures r == Err(VulkanNoSuitableDevice) <==>
      enumerated.Ok? && Candidates(enumerated.value) == Ok([])
    ensures r.Ok? <==>
      enumerated.Ok? && Candidates(enumerated.value).Ok? && Candidates(enumerated.value).value != []
    ensures r.Ok? ==> Assessed(r.value.device, Ok(r.value.caps)) in enumerated.value
    ensures r.Ok? ==> forall a :: a in enumerated.value && a.caps.Ok? ==> a.caps.value.score <= r.value.caps.score
    ensures r.Ok? ==> exists k :: LastBestAt(enumerated.value, k, r.value)
  {
    match enumerated
    case Err(e) => Err(ResourceError.VulkanError(e))
    case Ok(assessed) =>
      match Candidates(assessed)
      case Err(e) => Err(ValidatedVulkanError(e))
      case Ok(cands) =>
        if cands == [] then Err(VulkanNoSuitableDevice)
        else
          var best := cands[BestIndex(cands)];
          assert forall a :: a in assessed && a.caps.Ok? ==> Candidate(a.device, a.caps.value) in cands;
          SuitableLastBest(assessed, BestIndex(cands));
          Ok(best)
  }

  // ---------------------------------------------------------------------------
  // Choosing the queue families
  // ---------------------------------------------------------------------------

  /**
   * A queue family of the chosen device: whether it supports graphics, and the answer
   * of `presentation_support(idx, window)` for it, which may be a driver failure.
   */
  datatype QueueFamily = QueueFamily(graphics: bool, presentation: Result<bool, HandleError>)

  /** `position(|q| q.queue_flags.contains(GRAPHICS))`: the first graphics-capable family. */
  function GraphicsFamily(families: seq<QueueFamily>): (r: Result<nat, ResourceError>)
    ensures r.Ok? ==> r.value < |families| && families[r.value].graphics
    ensures r.Ok? ==> forall j :: 0 <= j < r.value ==> !families[j].graphics
    ensures r.Err? ==> r.error == VulkanNoSuitableDevice
    ensures r.Err? <==> forall j :: 0 <= j < |families| ==> !families[j].graphics
    decreases |families|
  {
    if families == [] then Err(VulkanNoSuitableDevice)
    else if families[0].graphics then Ok(0)
    else
      match GraphicsFamily(families[1..])
      case Ok(i) => Ok(i + 1)
      case Err(e) => Err(e)
  }

  /** Family `k` is the first that does not deny presentation, and its query failed with `e`. */
  predicate FirstPresentFailure(families: seq<QueueFamily>, k: nat, e: HandleError) {
    && k < |families|
    && families[k].presentation == Err(e)
    && forall j :: 0 <= j < k ==> families[j].presentation == Ok(false)
  }

  /**
   * The `find_map` over the families' presentation support: the first family that
   * either supports presentation or fails to answer decides; a failure is returned
   * as `ValidatedHandleError`, and with no such family the result is
   * `VulkanNoSuitableDevice`.
   */
  function PresentFamily(families: seq<QueueFamily>): (r: Result<nat, ResourceError>)
    ensures r.Ok? ==> r.value < |families| && families[r.value].presentation == Ok(true)
    ensures r.Ok? ==> forall j :: 0 <= j < r.value ==> families[j].presentation == Ok(false)
    ensures r == Err(VulkanNoSuitableDevice) <==>
      forall j :: 0 <= j < |families| ==> families[j].presentation == Ok(false)
    ensures r.Err? && r.error != VulkanNoSuitableDevice ==> r.error.ValidatedHandleError?
    ensures r.Err? && r.error != VulkanNoSuitableDevice ==>
      exists k :: FirstPresentFailure(families, k, r.error.handle)
    decreases |families|
  {
    if families == [] then Err(VulkanNoSuitableDevice)
    else
      match families[0].presentation
      case Ok(true) => Ok(0)
      case Err(e) =>
        assert FirstPresentFailure(families, 0, e);
        Err(ValidatedHandleError(e))
      case Ok(false) =>
        match PresentFamily(families[1..])
        case Ok(i) => Ok(i + 1)
        case Err(e) =>
          assert forall j :: 1 <= j < |families| ==> families[j] == families[1..][j - 1];
          if e == VulkanNoSuitableDevice then Err(e)
          else
            assert exists k :: FirstPresentFailure(families, k, e.handle) by {
              var k: nat :| FirstPresentFailure(families[1..], k, e.handle);
              assert FirstPresentFailure(families, k + 1, e.handle);
            }
            Err(e)
  }

  /**
   * The queue create infos: one for the graphics family, and a second one for the
   * present family only when it is a different family.
   */
  function QueueCreateInfos(graphicsFamily: nat, presentFamily: nat): (infos: seq<nat>)
    ensures |infos| >= 1 && infos[0] == graphicsFamily
    ensures |infos| == 2 <==> graphicsFamily != presentFamily
    ensures |infos| <= 2 && presentFamily in infos
  {
    [graphicsFamily] + if graphicsFamily != presentFamily then [presentFamily] else []
  }

  /** A queue handle, identified by the family it belongs to. */
  datatype Queue = Queue(family: nat)

  /**
   * `queues.next().unwrap()` and `queues.next().unwrap_or_else(|| graphics_queue.clone())`
   * over the one queue `Device::new` creates per create info: the graphics queue, and
   * the present queue, which is the graphics queue when no second queue was asked for.
   */
  function TakeQueues(infos: seq<nat>): (qs: (Queue, Queue))
    requires |infos| >= 1
  {
    var created := seq(|infos|, k requires 0 <= k < |infos| => Queue(infos[k]));
    (created[0], if |created| >= 2 then created[1] else created[0])
  }

  /** Whether or not the families coincide, each queue belongs to the family it was chosen for. */
  lemma QueuesServeTheirFamilies(graphicsFamily: nat, presentFamily: nat)
    ensures TakeQueues(QueueCreateInfos(graphicsFamily, presentFamily)) ==
      (Queue(graphicsFamily), Queue(presentFamily))
  {
    var infos := QueueCreateInfos(graphicsFamily, presentFamily);
    if graphicsFamily != presentFamily {
      assert infos == [graphicsFamily, presentFamily];
    } else {
      assert infos == [graphicsFamily];
    }
  }

  // ---------------------------------------------------------------------------
  // Swapchain and device resources
  // ---------------------------------------------------------------------------

  /** The `SwapchainCreateInfo` fields the code sets. */
  datatype SwapchainCreateInfo = SwapchainCreateInfo(
    minImageCount: U32, imageFormat: nat, imageExtent: (U32, U32), compositeAlpha: CompositeAlpha)

  /**
   * `SwapchainResources`: the swapchain, known by its create info, and the render
   * pass, images and frame buffers built over it, which are opaque.
   */
  datatype SwapchainResources = SwapchainResources(createInfo: SwapchainCreateInfo)

  /**
   * `DeviceResources`: the window, the surface capabilities of the chosen device, the
   * two queues and the optional swapchain; the window, surface, device and allocator
   * handles are opaque.
   */
  datatype DeviceResources = DeviceResources(
    window: nat,
    capabilities: Capabilities,
    graphicsQueue: Queue,
    presentQueue: Queue,
    swapchain: Option<SwapchainResources>)

  /**
   * `SwapchainResources::new`: a swapchain for the device resources at the window's
   * current size, with the image count, format and composite alpha the capabilities chose.
   */
  function NewSwapchain(dr: DeviceResources, windowSize: (U32, U32)): (sc: SwapchainResources)
    ensures sc.createInfo.imageExtent == windowSize
    ensures sc.createInfo.minImageCount == dr.capabilities.swapchainImages
    ensures sc.createInfo.imageFormat == dr.capabilities.imageFormat.format
    ensures sc.createInfo.compositeAlpha == dr.capabilities.compositeAlpha
  {
    SwapchainResources(SwapchainCreateInfo(
      dr.capabilities.swapchainImages, dr.capabilities.imageFormat.format, windowSize,
      dr.capabilities.compositeAlpha))
  }

  /** `SwapchainResources::recreate`: the same create info at the new size. */
  function RecreateAt(sc: SwapchainResources, newSize: (U32, U32)): (r: SwapchainResources)
    ensures r.createInfo.imageExtent == newSize
    ensures r.createInfo.(imageExtent := sc.createInfo.imageExtent) == sc.createInfo
  {
    SwapchainResources(sc.createInfo.(imageExtent := newSize))
  }

  /** Recreating twice is recreating once at the last size; recreating at the current size changes nothing. */
  lemma RecreateAtLastSize(sc: SwapchainResources, s1: (U32, U32), s2: (U32, U32))
    ensures RecreateAt(RecreateAt(sc, s1), s2) == RecreateAt(sc, s2)
    ensures RecreateAt(sc, sc.createInfo.imageExtent) == sc
  {
  }

  /**
   * What the driver answers `DeviceResources::new`: whether the surface could be
   * created from the window, the enumerated physical devices (the enumeration may
   * fail), each device's answers on the surface and its queue families, and the
   * outcome of creating the logical device.
   */
  datatype DeviceEnv<!D> = DeviceEnv(
    surfaceCreated: bool,
    devices: Result<seq<D>, VkError>,
    infoOf: D -> PhysicalDeviceInfo,
    familiesOf: D -> seq<QueueFamily>,
    logicalDevice: Result<(), VkError>)

  /** One of the two surface queries fails, so `for_device_on_surface` returns a driver error. */
  predicate QueryFails(pd: PhysicalDeviceInfo) {
    pd.surfaceCaps.Err? || pd.surfaceFormats.Err?
  }

  /** The device reports a composite alpha whenever its capabilities query answers. */
  predicate ReportsAlpha(pd: PhysicalDeviceInfo) {
    pd.surfaceCaps.Ok? ==> |pd.surfaceCaps.value.supportedCompositeAlpha| >= 1
  }

  /** Every device enumerated before position `k` answers both surface queries. */
  predicate NoFailureBefore<D>(ds: seq<D>, infoOf: D -> PhysicalDeviceInfo, k: nat) {
    forall j :: 0 <= j < k && j < |ds| ==> !QueryFails(infoOf(ds[j]))
  }

  /**
   * Every device that gets assessed reports a composite alpha, which
   * `for_device_on_surface` unwraps.  The iterator is lazy and `collect` stops at the
   * first driver error, so these are the devices up to and including the first
   * whose query fails.
   */
  predicate AssessedReportAlpha<D>(ds: seq<D>, infoOf: D -> PhysicalDeviceInfo) {
    forall k :: 0 <= k < |ds| && NoFailureBefore(ds, infoOf, k) ==> ReportsAlpha(infoOf(ds[k]))
  }

  /**
   * What `for_device_on_surface` needs of the environment: once the surface exists
   * and the devices are enumerated, every device that gets assessed reports a
   * composite alpha.
   */
  predicate ReportsCompositeAlpha<D>(env: DeviceEnv<D>) {
    env.surfaceCreated && env.devices.Ok? ==> AssessedReportAlpha(env.devices.value, env.infoOf)
  }

  /** Dropping the first device, which answers both queries, keeps the devices after it assessable. */
  lemma AssessedReportAlphaTail<D>(ds: seq<D>, infoOf: D -> PhysicalDeviceInfo)
    requires |ds| >= 1 && !QueryFails(infoOf(ds[0])) && AssessedReportAlpha(ds, infoOf)
    ensures AssessedReportAlpha(ds[1..], infoOf)
  {
    forall k | 0 <= k < |ds[1..]| && NoFailureBefore(ds[1..], infoOf, k)
      ensures ReportsAlpha(infoOf(ds[1..][k]))
    {
      assert ds[1..][k] == ds[k + 1];
      assert forall j :: 1 <= j < k + 1 ==> ds[j] == ds[1..][j - 1];
      assert NoFailureBefore(ds, infoOf, k + 1);
    }
  }

  /**
   * The `map` over the enumerated devices as `collect` drives it: each device is
   * paired with what `for_device_on_surface` makes of it, in enumeration order,
   * and no device after the first whose query fails is assessed.
   */
  function Assess<D>(ds: seq<D>, infoOf: D -> PhysicalDeviceInfo): (a: seq<Assessed<D>>)
    requires AssessedReportAlpha(ds, infoOf)
    ensures |a| <= |ds|
    ensures forall k :: 0 <= k < |a| ==>
      && a[k].device == ds[k]
      && NoFailureBefore(ds, infoOf, k)
      && a[k].caps == ForDeviceOnSurface(infoOf(ds[k]))
    ensures |a| < |ds| ==> |a| >= 1 && QueryFails(infoOf(ds[|a| - 1]))
    decreases |ds|
  {
    if ds == [] then []
    else
      assert NoFailureBefore(ds, infoOf, 0);
      var first := Assessed(ds[0], ForDeviceOnSurface(infoOf(ds[0])));
      if QueryFails(infoOf(ds[0])) then [first]
      else
        AssessedReportAlphaTail(ds, infoOf);
        var rest := Assess(ds[1..], infoOf);
        assert forall k :: 1 <= k < |ds| ==> ds[k] == ds[1..][k - 1];
        assert forall k :: 1 <= k <= |rest| ==> NoFailureBefore(ds, infoOf, k) by {
          forall k | 1 <= k <= |rest|
            ensures NoFailureBefore(ds, infoOf, k)
          {
            assert NoFailureBefore(ds[1..], infoOf, k - 1);
          }
        }
        [first] + rest
  }

  /**
   * `enumerate_physical_devices()?` followed by the assessments, once the surface
   * exists.
   */
  function Assessments<D>(env: DeviceEnv<D>): Result<seq<Assessed<D>>, VkError>
    requires ReportsCompositeAlpha(env) && env.surfaceCreated
  {
    match env.devices
    case Err(e) => Err(e)
    case Ok(ds) => Ok(Assess(ds, env.infoOf))
  }

  /** Where the chosen device stands in the enumeration. */
  ghost function ChosenPosition<D>(env: DeviceEnv<D>): (k: nat)
    requires ReportsCompositeAlpha(env) && env.surfaceCreated && ChooseDevice(Assessments(env)).Ok?
    ensures env.devices.Ok? && k < |Assessments(env).value|
    ensures Assessments(env).value[k] ==
      Assessed(ChooseDevice(Assessments(env)).value.device, Ok(ChooseDevice(Assessments(env)).value.caps))
  {
    var k :| LastBestAt(Assessments(env).value, k, ChooseDevice(Assessments(env)).value);
    k
  }

  /**
   * The chosen device is an enumerated one whose capabilities `for_device_on_surface`
   * reported, so it supports the swapchain extension, which gets enabled.
   */
  lemma ChosenDeviceIsAssessed<D>(env: DeviceEnv<D>)
    requires ReportsCompositeAlpha(env) && env.surfaceCreated && ChooseDevice(Assessments(env)).Ok?
    ensures env.devices.Ok?
    ensures var c := ChooseDevice(Assessments(env)).value;
      exists k :: 0 <= k < |env.devices.value| && env.devices.value[k] == c.device
        && NoFailureBefore(env.devices.value, env.infoOf, k)
        && ForDeviceOnSurface(env.infoOf(env.devices.value[k])) == Ok(c.caps)
    ensures "khr_swapchain" in ChooseDevice(Assessments(env)).value.caps.deviceExtensions
  {
    var k := ChosenPosition(env);
    EnabledAreOptional(env.infoOf(env.devices.value[k]));
  }

  /**
   * `DeviceResources::new(window)`: create the surface, choose the device, choose the
   * graphics and present families, create the logical device with the chosen
   * capabilities' features and extensions, and take its queues.  Each `?` returns the
   * first failing step's error; the swapchain slot starts empty.
   */
  function NewDeviceResources<D>(window: nat, env: DeviceEnv<D>): (r: Result<DeviceResources, ResourceError>)
    requires ReportsCompositeAlpha(env)
    ensures r.Ok? <==>
      && env.surfaceCreated
      && ChooseDevice(Assessments(env)).Ok?
      && var families := env.familiesOf(ChooseDevice(Assessments(env)).value.device);
      && GraphicsFamily(families).Ok? && PresentFamily(families).Ok?
      && env.logicalDevice.Ok?
    ensures !env.surfaceCreated ==> r == Err(SurfaceCreationError)
    ensures env.surfaceCreated && ChooseDevice(Assessments(env)).Err? ==>
      r == Err(ChooseDevice(Assessments(env)).error)
    ensures env.surfaceCreated && ChooseDevice(Assessments(env)).Ok? ==>
      var families := env.familiesOf(ChooseDevice(Assessments(env)).value.device);
      && (GraphicsFamily(families).Err? ==> r == Err(GraphicsFamily(families).error))
      && (GraphicsFamily(families).Ok? && PresentFamily(families).Err? ==> r == Err(PresentFamily(families).error))
      && (GraphicsFamily(families).Ok? && PresentFamily(families).Ok? && env.logicalDevice.Err? ==>
            r == Err(ValidatedVulkanError(env.logicalDevice.error)))
    ensures r.Ok? ==> r.value.swapchain.None? && r.value.window == window
    ensures r.Ok? ==> r.value.capabilities == ChooseDevice(Assessments(env)).value.caps
    ensures r.Ok? ==>
      var families := env.familiesOf(ChooseDevice(Assessments(env)).value.device);
      && GraphicsFamily(families) == Ok(r.value.graphicsQueue.family)
      && PresentFamily(families) == Ok(r.value.presentQueue.family)
  {
    if !env.surfaceCreated then Err(SurfaceCreationError)
    else
      match ChooseDevice(Assessments(env))
      case Err(e) => Err(e)
      case Ok(chosen) =>
        var families := env.familiesOf(chosen.device);
        match GraphicsFamily(families)
        case Err(e) => Err(e)
        case Ok(g) =>
          match PresentFamily(families)
          case Err(e) => Err(e)
          case Ok(p) =>
            match env.logicalDevice
            case Err(e) => Err(ValidatedVulkanError(e))
            case Ok(_) =>
              var infos := QueueCreateInfos(g, p);
              QueuesServeTheirFamilies(g, p);
              var (graphicsQueue, presentQueue) := TakeQueues(infos);
              Ok(DeviceResources(window, chosen.caps, graphicsQueue, presentQueue, None))
  }

  /**
   * Without a surface no device is assessed: whatever the devices would report,
   * the result is `SurfaceCreationError`.
   */
  lemma NoSurfaceAssessesNothing<D>(window: nat, env: DeviceEnv<D>)
    requires !env.surfaceCreated
    ensures ReportsCompositeAlpha(env)
    ensures NewDeviceResources(window, env) == Err(SurfaceCreationError)
  {
  }

  // ---------------------------------------------------------------------------
  // The transitions of `RenderResources`
  // ---------------------------------------------------------------------------

  /** `destroy_swapchain` on the device slot: drop the swapchain if there are device resources. */
  function SwapchainDestroyed(slot: Option<DeviceResources>): (r: Option<DeviceResources>)
    ensures r.Some? <==> slot.Some?
    ensures r.Some? ==> r.value.swapchain.None? && r.value == slot.value.(swapchain := None)
  {
    match slot
    case None => None
    case Some(dr) => Some(dr.(swapchain := None))
  }

  /**
   * `recreate_swapchain` on the device slot.  The swapchain is taken out of its slot
   * before the fallible rebuild; `outcome` is that rebuild's result (`None` for
   * success).  On success the slot holds the swapchain rebuilt at the window size, or
   * a new one when there was none; on failure the slot is left empty.
   */
  function SwapchainRecreated(slot: Option<DeviceResources>, windowSize: (U32, U32), outcome: Option<ResourceError>)
    : (r: (Option<DeviceResources>, Result<(), ResourceError>))
    ensures slot.None? ==> r == (None, Ok(()))
    ensures slot.Some? ==> r.0.Some? && r.0.value == slot.value.(swapchain := r.0.value.swapchain)
    ensures slot.Some? ==> (r.1.Ok? <==> r.0.value.swapchain.Some?)
    ensures slot.Some? && outcome.Some? ==> r.1 == Err(outcome.value)
    ensures slot.Some? && outcome.None? ==> r.1.Ok? && r.0.value.swapchain.value.createInfo.imageExtent == windowSize
    ensures slot.Some? && slot.value.swapchain.Some? && outcome.None? ==>
      r.0.value.swapchain == Some(RecreateAt(slot.value.swapchain.value, windowSize))
    ensures slot.Some? && slot.value.swapchain.None? && outcome.None? ==>
      r.0.value.swapchain == Some(NewSwapchain(slot.value.(swapchain := None), windowSize))
  {
    match slot
    case None => (None, Ok(()))
    case Some(dr) =>
      var taken := dr.swapchain;
      var emptied := dr.(swapchain := None);
      match outcome
      case Some(e) => (Some(emptied), Err(e))
      case None =>
        var rebuilt := match taken
          case Some(sc) => RecreateAt(sc, windowSize)
          case None => NewSwapchain(emptied, windowSize);
        (Some(emptied.(swapchain := Some(rebuilt))), Ok(()))
  }

  /**
   * Without a swapchain, recreating builds a new one from the device's capabilities:
   * their image count, format and composite alpha, at the window size.
   */
  lemma RecreateBuildsFromCapabilities(dr: DeviceResources, windowSize: (U32, U32))
    requires dr.swapchain.None?
    ensures var (slot, res) := SwapchainRecreated(Some(dr), windowSize, None);
      && res.Ok?
      && slot.value.swapchain.value.createInfo == SwapchainCreateInfo(
        dr.capabilities.swapchainImages, dr.capabilities.imageFormat.format, windowSize,
        dr.capabilities.compositeAlpha)
  {
  }

  /** A recreated swapchain keeps its create info apart from the new extent. */
  lemma RecreateKeepsCreateInfo(dr: DeviceResources, windowSize: (U32, U32))
    requires dr.swapchain.Some?
    ensures var (slot, res) := SwapchainRecreated(Some(dr), windowSize, None);
      && res.Ok?
      && slot.value.swapchain.value.createInfo == dr.swapchain.value.createInfo.(imageExtent := windowSize)
  {
  }

  /** Destroying the swapchain is idempotent, and destroying it after a recreation undoes the recreation. */
  lemma DestroyAfterRecreate(slot: Option<DeviceResources>, windowSize: (U32, U32), outcome: Option<ResourceError>)
    ensures SwapchainDestroyed(SwapchainDestroyed(slot)) == SwapchainDestroyed(slot)
    ensures SwapchainDestroyed(SwapchainRecreated(slot, windowSize, outcome).0) == SwapchainDestroyed(slot)
  {
  }

  /**
   * `RenderResources`: the Vulkan instance (opaque) and the optional device
   * resources, which its methods assign or take in place.
   */
  class RenderResources {
    var deviceResources: Option<DeviceResources>

    /** `RenderResources::create` once the instance exists: no device resources yet. */
    constructor Create()
      ensures deviceResources == None
    {
      deviceResources := None;
    }

    /** `destroy_swapchain`: always `Ok`; without device resources it only logs a warning. */
    method DestroySwapchain() returns (r: Result<(), ResourceError>)
      modifies this
      ensures r.Ok?
      ensures deviceResources == SwapchainDestroyed(old(deviceResources))
    {
      if deviceResources.Some? {
        deviceResources := Some(deviceResources.value.(swapchain := None));
      }
      r := Ok(());
    }

    /**
     * `recreate_swapchain`.  `windowSize` is `window.inner_size()`, and `outcome` the
     * result of the rebuild the driver performs.
     */
    method RecreateSwapchain(windowSize: (U32, U32), outcome: Option<ResourceError>) returns (r: Result<(), ResourceError>)
      modifies this
      ensures (deviceResources, r) == SwapchainRecreated(old(deviceResources), windowSize, outcome)
    {
      if deviceResources.Some? {
        var dr := deviceResources.value;
        var taken := dr.swapchain;
        dr := dr.(swapchain := None);
        deviceResources := Some(dr);
        if outcome.Some? {
          return Err(outcome.value);
        }
        var rebuilt;
        if taken.Some? {
          rebuilt := RecreateAt(taken.value, windowSize);
        } else {
          rebuilt := NewSwapchain(dr, windowSize);
        }
        deviceResources := Some(dr.(swapchain := Some(rebuilt)));
      }
      r := Ok(());
    }

    /**
     * `create_device_resources(window)`: on success the new device resources (with no
     * swapchain) replace whatever was there; on failure nothing changes.
     */
    method CreateDeviceResources<D>(window: nat, env: DeviceEnv<D>) returns (r: Result<(), ResourceError>)
      requires ReportsCompositeAlpha(env)
      modifies this
      ensures NewDeviceResources(window, env).Err? ==>
        r == Err(NewDeviceResources(window, env).error) && deviceResources == old(deviceResources)
      ensures NewDeviceResources(window, env).Ok? ==>
        r.Ok? && deviceResources == Some(NewDeviceResources(window, env).value)
      ensures deviceResources.Some? ==> deviceResources.value.swapchain.None? || deviceResources == old(deviceResources)
    {
      var created := NewDeviceResources(window, env);
      if created.Err? {
        return Err(created.error);
      }
      deviceResources := Some(created.value);
      r := Ok(());
    }

    /** `destroy_device_resources`: drops the device resources, and the swapchain with them. */
    method DestroyDeviceResources()
      modifies this
      ensures deviceResources == None
    {
      deviceResources := None;
    }
  }
}
