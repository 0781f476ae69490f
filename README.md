# Icarus: archetype ECS, GPU resource lifecycle and SDL session builders in Dafny

This project models the core of Icarus, a Rust game engine:

- **Column storage** (`EcsTraits`). A component list is stored as one `Vec` per
  component type. `new_storage`, `push_to_storage` and `swap_remove_from_storage`
  create and update the columns. `to_iter` / `to_par_iter` zip the columns into
  row tuples. The columns are an `array<seq<V>>` inside class `Storage`, and
  `Push` / `SwapRemoveAt` update it in place.
- **Archetypes and systems** (`Ecs`):
  - `Entity::from`.
  - The `Archetype![S]` macro, which turns a struct's field types into a component list.
  - Selecting a system's columns by type, as frunk's `pluck` / `Sculptor` do.
  - `apply_system`, which runs the system's per-row update over the zipped rows
    of the selected columns. `Archetype` is a class whose `ApplySystem` rewrites
    the column array in place, row by row.
- **The ECS test module** (`EcsTest`):
  - `Transform + DeltaTransform` and `+=`.
  - The movement and render systems.
  - The `test_ecs` scenario with its concrete final columns.
- **Device capabilities** (`AppCapabilities`). `for_device_on_surface` scores a
  GPU, clamps the swapchain image count, picks the composite alpha and image
  format, and checks features and extensions.
- **GPU resources** (`AppResources`). Device choice in `DeviceResources::new`:
  - collecting the assessed devices, stopping at the first driver failure;
  - the last best score;
  - the graphics and present queue families;
  - the queue create infos and the queues taken.

  Also modelled: the swapchain create and recreate steps, and the four
  transitions of `RenderResources`. `RenderResources` is a class whose methods
  reassign its optional `DeviceResources`.
- **Shader words** (`Shaders`). The compile-time loop that packs the SPIR-V byte
  string into `u32` words, modelled as a method over an array. It is proved
  against `Pack`, and `Pack` is proved to round-trip with `Unpack`.
- **SDL session and game builders** (`Sdl`, `Game`). Modelled: `new`,
  `default`, `add_flag`, the eight `use_*` methods and `init`.
  - A `u32` flag word is modelled as the set of its set bits.
  - The `SDL_INIT_*` values are SDL 3's.
  - `SDL_Init` and `SDL_GetError` are parameters of `Init`.

## Model

| member | source | states |
|---|---|---|
| EcsTraits.MinLen | src/ecs/traits.rs:93-97 | a zip of the columns yields no more rows than the shortest column has, and exactly `n` when every column has `n` |
| EcsTraits.MinLenAttained | src/ecs/traits.rs:93-97 | some column has exactly `MinLen` rows: the zip stops when its shortest column runs out |
| EcsTraits.NewStorage | src/ecs/traits.rs:37-39 | one column per component type, all empty |
| EcsTraits.PushRow | src/ecs/traits.rs:41-44 | field k of the instance is appended to column k, and nothing else changes |
| EcsTraits.SwapRemove | src/ecs/traits.rs:46-48 | `Vec::swap_remove(i)`: one shorter; the last element lands at `i`; every other index is unchanged |
| EcsTraits.SwapRemovePermutes | src/ecs/traits.rs:62-64 | swap-remove loses exactly the removed element: the rest is a permutation |
| EcsTraits.SwapRemoveRow | src/ecs/traits.rs:46-48 | the returned instance is row `i` of every column, and each column is swap-removed at `i` |
| EcsTraits.ZipPrepend | src/ecs/traits.rs:93-98 | zip truncates to the shorter side and prepends each head to its tail tuple |
| EcsTraits.Rows | src/ecs/traits.rs:121-132 | `to_iter` yields `MinLen` rows; field k of row i is `cols[k][i]` |
| EcsTraits.RowsAreRow | src/ecs/traits.rs:108-118 | the zipped row i is the tuple of the i-th values of all columns |
| EcsTraits.RowsAfterPush | src/ecs/traits.rs:41-44 | on equal-length columns, pushing an instance appends exactly that row to the row view |
| EcsTraits.RowsAfterSwapRemove | src/ecs/traits.rs:46-48 | swap-removing row i returns row i, and the row view becomes `swap_remove(i)` of the old rows |
| EcsTraits.RowAfterSwapRemove | src/ecs/traits.rs:62-64 | after swap-removing row i, row j is the old row j, or the old last row when j == i |
| EcsTraits.PushThenSwapRemoveLast | src/ecs/traits.rs:41-48 | pushing then swap-removing the last row returns the pushed instance and restores the storage |
| EcsTraits.NewStorageTyped | src/ecs/traits.rs:34-39 | new storage is well typed: column k only holds the k-th component type |
| EcsTraits.PushKeepsTyped | src/ecs/traits.rs:41-44 | pushing a well-typed instance keeps every column well typed |
| EcsTraits.SwapRemoveKeepsTyped | src/ecs/traits.rs:46-48 | swap-removing returns a well-typed instance and keeps the columns well typed |
| EcsTraits.Storage.New | src/ecs/traits.rs:54-56 | a fresh column array equal to `new_storage()` |
| EcsTraits.Storage.FromColumns | src/ecs/test.rs:97-101 | a fresh column array holding the given columns |
| EcsTraits.Storage.Push | src/ecs/traits.rs:58-60 | in place: the columns become `PushRow` of the old columns |
| EcsTraits.Storage.SwapRemoveAt | src/ecs/traits.rs:62-64 | in place: returns the removed instance; the columns become the swap-removed columns |
| Ecs.EntityFrom | src/ecs.rs:18-22 | the entity wraps the given number unchanged |
| Ecs.ShapeOf | src/ecs.rs:43-49 | the component list of `Archetype![S]` is the field types of `S` in declaration order |
| Ecs.Pluck | src/ecs.rs:35-40 | the step the `Sculptor` bound repeats: `pluck` finds the first remaining column of the type, or reports that none has it |
| Ecs.Sculpt | src/ecs.rs:35-40 | each requested type gets a distinct column of that type among those still available |
| Ecs.Select | src/ecs.rs:35-40 | a selection has one column per requested type, holds that type, and no column twice (no aliasing) |
| Ecs.SculptSucceedsIff | src/ecs.rs:35-40 | with distinct column types, sculpting succeeds iff the requested types are distinct and all offered |
| Ecs.SelectSucceedsIff | src/ecs.rs:35-40 | the `CanApplySystem` bound holds iff the system's types are distinct and all in the archetype, in any order |
| Ecs.SelectFinds | src/ecs.rs:35-40 | with distinct column types, the selection of a type is the one column holding it |
| Ecs.RowCount | src/ecs/traits.rs:87-98 | the system visits no more rows than the shortest selected column has |
| Ecs.RowCountAttained | src/ecs/traits.rs:87-98 | some selected column has exactly `RowCount` rows |
| Ecs.Gather | src/ecs.rs:12-15 | the row tuple handed to `update_instance` holds the i-th value of each selected column, in declaration order |
| Ecs.Applied | src/ecs.rs:35-40 | selected columns get the update's values in the zipped rows; other columns and rows past the zip are unchanged; lengths are kept |
| Ecs.AppliedRows | src/ecs/traits.rs:87-98 | through `to_par_iter` over the selected columns, applying a system maps the update over the rows |
| Ecs.AppliedIdentity | src/ecs/test.rs:74-76 | a system that leaves every row unchanged leaves the whole storage unchanged |
| Ecs.GatherTyped | src/ecs.rs:12-15 | a system only ever sees values of the types it declares |
| Ecs.AppliedKeepsTyped | src/ecs.rs:35-40 | a type-preserving update keeps every column well typed |
| Ecs.Archetype.Default | src/ecs.rs:24-28 | `Archetype::default()`: no entities and empty columns |
| Ecs.Archetype.Build | src/ecs/test.rs:95-102 | a struct literal: the given entity list and columns |
| Ecs.Archetype.ApplySystem | src/ecs.rs:35-40 | in place: the columns become `Applied` of the old columns under the type-based selection; callable only when every requested type has exactly one column, as Rust's inference demands |
| EcsTest.Add | src/ecs/test.rs:23-33 | position, rotation and scale each add componentwise |
| EcsTest.AddUndo | src/ecs/test.rs:23-33 | adding a delta is inverted by taking it back off, and the zero delta moves nothing |
| EcsTest.AddCompose | src/ecs/test.rs:23-33 | adding two deltas in turn is adding their sum, in either order |
| EcsTest.AddAssign | src/ecs/test.rs:35-39 | `+=` leaves `self + rhs`, from which the old transform is recovered |
| EcsTest.UnitShape | src/ecs/test.rs:46-51 | `Archetype![Unit]` stores (Transform, DeltaTransform, Model) |
| EcsTest.TileShape | src/ecs/test.rs:53-57 | `Archetype![Tile]` stores (Transform, Model) |
| EcsTest.MovementUpdate | src/ecs/test.rs:63-67 | the transform becomes transform + delta and the delta is unchanged |
| EcsTest.RenderUpdate | src/ecs/test.rs:74-76 | rendering writes every row back unchanged |
| EcsTest.MovementKeepsArityAndTypes | src/ecs/test.rs:59-68 | movement keeps the row arity and the row types |
| EcsTest.MovementSelectsOnUnit | src/ecs/test.rs:116 | movement on a unit selects columns 0 and 1 |
| EcsTest.RenderSelectsOnUnit | src/ecs/test.rs:70-73 | render on a unit selects columns 0 and 2 |
| EcsTest.RenderSelectsOnTile | src/ecs/test.rs:117 | render on a tile selects columns 0 and 1 |
| EcsTest.ShapesAreUnambiguous | src/ecs/test.rs:46-57 | neither archetype has two columns of one component type, so no request on them is ambiguous |
| EcsTest.MovementAppliesToUnits | src/ecs/test.rs:116 | `apply_system::<MovementSystem, _>` on the unit archetype compiles: its selection exists, is unambiguous and is columns 0 and 1 |
| EcsTest.RenderAppliesToTiles | src/ecs/test.rs:117 | `apply_system::<RenderSystem, _>` on the tile archetype compiles: its selection exists, is unambiguous and is columns 0 and 1 |
| EcsTest.MovementCannotRunOnTile | src/ecs/test.rs:53-61 | a tile has no `DeltaTransform` column, so movement cannot be applied to it |
| EcsTest.MovementMoves | src/ecs/test.rs:63-67 | on any unit storage, each zipped row's transform moves by its delta; deltas, models and later rows are unchanged |
| EcsTest.RepeatN | src/ecs/test.rs:98 | `repeat_n(v, n)` is n copies of v |
| EcsTest.EntitiesFrom | src/ecs/test.rs:96 | the entity list holds entity k for each k in order |
| EcsTest.BaseMoves | src/ecs/test.rs:81-90 | base transform + base delta is position (-10,4,2), rotation (2,0,0,0), scale (2,2,2) |
| EcsTest.UnitScenario | src/ecs/test.rs:95-116 | for any number of rows, movement moves every unit transform and leaves deltas and models unchanged |
| EcsTest.TestEcs | src/ecs/test.rs:79-120 | the final unit and tile columns are the moved units and the unchanged tiles; both entity lists are entities 0 to 3 |
| AppCapabilities.Score | src/app/capabilities.rs:50-57 | a score of at most 5; only an unrecognised device type scores 0 |
| AppCapabilities.ScoreFollowsRanking | src/app/capabilities.rs:50-57 | discrete > integrated > virtual > other > CPU > unrecognised, strictly |
| AppCapabilities.SwapchainImages | src/app/capabilities.rs:61 | at least 3 and the driver minimum unless a stated maximum is lower; never above a stated maximum |
| AppCapabilities.ForDeviceOnSurface | src/app/capabilities.rs:47-80 | query errors come back in call order; on success it holds the score, image count, first composite alpha and first format, with features and extensions the device supports |
| AppCapabilities.SuitableIff | src/app/capabilities.rs:63-69 | `Ok` iff both queries answer, a format exists and the required features and extensions are supported; `Unsuitable` iff the queries answer but a check fails |
| AppCapabilities.EnabledAreOptional | src/app/capabilities.rs:71-73 | a suitable device enables exactly the optional features and extensions, including `khr_swapchain` |
| AppResources.Candidates | src/app/resources.rs:196-213 | fails iff some device's assessment failed, with the first failure; otherwise the suitable devices in enumeration order, as `Suitable` lists them |
| AppResources.BestIndex | src/app/resources.rs:215 | a best-scoring candidate, and the last of several equal ones |
| AppResources.BestIndexUnique | src/app/resources.rs:215 | the last best position is the only one with that property |
| AppResources.ChooseDevice | src/app/resources.rs:196-216 | the error cases in call order; `VulkanNoSuitableDevice` iff no device is suitable; `Ok` iff enumeration and collection succeed with at least one suitable device, and then a suitable device scoring at least every other, after which every suitable device scores less (`max_by_key` keeps the last maximum) |
| AppResources.SuitableLastBest | src/app/resources.rs:202-215 | a suitable device that outscores every later suitable one stands at an enumeration position after which every suitable device scores less |
| AppResources.ChosenDeviceIsAssessed | src/app/resources.rs:196-201 | the chosen device is an enumerated one, no device before it failed a query, its capabilities are what `for_device_on_surface` reported for it, and they enable `khr_swapchain` |
| AppResources.Assess | src/app/resources.rs:196-213 | devices are assessed in enumeration order by `for_device_on_surface`, and none after the first whose query fails |
| AppResources.AssessedReportAlphaTail | src/app/resources.rs:196-213 | past a device that answers both queries, the later devices still meet the unwrap's condition |
| AppResources.GraphicsFamily | src/app/resources.rs:218-224 | the first graphics-capable family; an error iff there is none |
| AppResources.PresentFamily | src/app/resources.rs:226-238 | the first family supporting presentation, unless an earlier `presentation_support` query failed, which gives `ValidatedHandleError` with that error; `VulkanNoSuitableDevice` iff none supports it |
| AppResources.QueueCreateInfos | src/app/resources.rs:240-252 | the graphics family first; a second entry iff the present family differs |
| AppResources.QueuesServeTheirFamilies | src/app/resources.rs:254-262 | the graphics queue belongs to the graphics family and the present queue to the present family, whether or not they coincide |
| AppResources.NewSwapchain | src/app/resources.rs:57-69 | the swapchain uses the window size and the capabilities' image count, first format and first composite alpha |
| AppResources.RecreateAt | src/app/resources.rs:120-124 | the new extent, with the rest of the create info kept |
| AppResources.RecreateAtLastSize | src/app/resources.rs:120-124 | recreating twice is recreating at the last size; recreating at the current size changes nothing |
| AppResources.NewDeviceResources | src/app/resources.rs:193-282 | `Ok` iff the surface, the device choice, both family searches and the logical device all succeed; otherwise the first failing step's error (`SurfaceCreationError`, the device choice's error, the graphics search's `VulkanNoSuitableDevice`, the present search's `ValidatedHandleError` or `VulkanNoSuitableDevice`, `ValidatedVulkanError`); on success: the chosen device's capabilities, queues of the chosen families, and no swapchain |
| AppResources.NoSurfaceAssessesNothing | src/app/resources.rs:194 | without a surface no device is assessed and the result is `SurfaceCreationError`, whatever the devices report |
| AppResources.SwapchainDestroyed | src/app/resources.rs:329-337 | the swapchain slot is emptied if there are device resources; nothing else changes |
| AppResources.SwapchainRecreated | src/app/resources.rs:339-352 | a no-op without device resources; otherwise only the swapchain changes: on success the old one recreated at the window size, or `NewSwapchain` when there was none; an empty slot and the error on failure |
| AppResources.RecreateBuildsFromCapabilities | src/app/resources.rs:339-352 | without a swapchain, a successful recreation builds one with the capabilities' image count, format and composite alpha at the window size |
| AppResources.RecreateKeepsCreateInfo | src/app/resources.rs:339-346 | a successful recreation keeps the create info apart from the extent |
| AppResources.DestroyAfterRecreate | src/app/resources.rs:329-352 | destroy is idempotent and undoes any recreation |
| AppResources.RenderResources.Create | src/app/resources.rs:323-326 | a new render resource has no device resources |
| AppResources.RenderResources.DestroySwapchain | src/app/resources.rs:329-337 | always `Ok`; the state becomes `SwapchainDestroyed` of the old state |
| AppResources.RenderResources.RecreateSwapchain | src/app/resources.rs:339-352 | the state and result are `SwapchainRecreated` of the old state |
| AppResources.RenderResources.CreateDeviceResources | src/app/resources.rs:354-358 | on success the new device resources replace the old; on failure the error is returned and nothing changes |
| AppResources.RenderResources.DestroyDeviceResources | src/app/resources.rs:360-364 | no device resources remain |
| Shaders.ByteOfWordOf | src/app/shaders.rs:20 | a word built from four bytes yields those bytes back, least significant first |
| Shaders.WordOfByteOf | src/app/shaders.rs:20 | a word is rebuilt from its four bytes |
| Shaders.Pack | src/app/shaders.rs:10-16 | a quarter as many words as bytes |
| Shaders.UnpackPack | src/app/shaders.rs:16-22 | packing drops and moves no byte: unpacking the words gives back the bytes |
| Shaders.PackUnpack | src/app/shaders.rs:16-22 | packing the bytes of any word stream gives back the words |
| Shaders.ShaderModuleBin | src/app/shaders.rs:6-25 | the buffer the loop fills is `Pack` of the bytes |
| Sdl.InitFlagsDisjoint | src/sdl.rs:22-52 | each subsystem sets one bit, and no two subsystems share it |
| Sdl.New | src/sdl.rs:13-15 | no flag set |
| Sdl.Default | src/sdl.rs:8-10 | no flag set |
| Sdl.AddFlag | src/sdl.rs:17-20 | old bits stay set, the new bits become set, and no other bit does |
| Sdl.AddFlagIdempotentAndCommutative | src/sdl.rs:17-20 | adding a flag twice is adding it once, and flags can be added in any order |
| Sdl.Use | src/sdl.rs:22-52 | `use_*` sets its subsystem's bit and changes no other |
| Sdl.ChainIsMask | src/sdl.rs:22-52 | a chain of `use_*` calls sets exactly the bits of the subsystems it names |
| Sdl.ChainOrderIrrelevant | src/sdl.rs:22-52 | chains naming the same subsystems, in any order or repetition, build the same flags |
| Sdl.ChainFromNew | src/sdl.rs:13-52 | starting from `new()`, a subsystem's bit is set iff the chain names it |
| Sdl.Init | src/sdl.rs:54-61 | `Ok` iff `SDL_Init(flags)` succeeds; otherwise the `SDL_GetError` text |
| Game.New | src/game.rs:15-17 | the same empty flag word as a new session builder |
| Game.Default | src/game.rs:10-12 | the same as the session builder's default |
| Game.AddFlag | src/game.rs:19-22 | the same OR as the session builder's `add_flag` |
| Game.Use | src/game.rs:24-54 | each `use_*` agrees with the session builder's |
| Game.ChainAgrees | src/game.rs:24-54 | any chain of `use_*` calls builds the flags the session builder builds |
| Game.ChainOrderIrrelevant | src/game.rs:24-54 | chains naming the same subsystems build the same game builder |
| Game.Init | src/game.rs:56-63 | `Ok` iff `SDL_Init(flags)` succeeds, as for the session builder; otherwise the `SDL_GetError` text |

## Left out

- Parallelism: `to_par_iter` and the rayon fan-out of `apply_system` are modelled sequentially, because the rows are independent and the selected columns distinct. `to_iter` and `to_par_iter` share one function, `Rows`.
- `f32` arithmetic: transform and delta fields are integers. This is exact for the values `test_ecs` uses, but it does not model rounding.
- EcsTest.AddUndo: holds only for the integer model. In `f32`, addition rounds, so taking a delta back off need not restore the transform: (1.0 + 1e8) - 1e8 is 0.0.
- EcsTest.AddCompose: holds only for the integer model. `f32` addition is neither associative nor order independent once it rounds.
- EcsTest.AddAssign: its clause that taking the delta back off restores the old transform holds only for the integer model, for the same reason.
- `usize` and `u32` widths: indices and lengths are unbounded naturals. The `as u32` casts of the queue family indices in `DeviceResources::new` are not modelled.
- Component types: frunk's type-level HLists and the sealing traits are modelled as sequences of type tags, with a typing predicate `Typed`. A selection that does not exist is a compile error in Rust and `None` here. A requested type with two columns is ambiguous for Rust's inference and does not compile either; `ApplySystem` requires `Unambiguous` for it. The selection is fixed at compile time in Rust, while the model recomputes `Select` on every `ApplySystem` call.
- The `println!` of the render system and of `test_ecs`, and the `warn!` logs of `destroy_swapchain` and `recreate_swapchain`, are left out. They are output only.
- `RenderResources::create` is left out: loading the Vulkan library, the layer check, the debug messenger and instance creation are foreign calls. `Create` starts from the instance existing.
- The render pass, image views and frame buffers of `SwapchainResources` are left out as opaque. The swapchain is known by its create info.
- Failures of the driver calls in `SwapchainResources::new` / `recreate` are a single `outcome` parameter of `RecreateSwapchain`.
- Surface creation and logical-device creation are outcome parameters of `NewDeviceResources`. Each enumerated device is described by its `PhysicalDeviceInfo`, and its assessment is `ForDeviceOnSurface` of that description.
- The window handle is a number, and the window size is a parameter.
- `IcarusShader::load` and `graphics_pipeline` are left out: they are foreign calls, and `graphics_pipeline` is `todo!()`.
- `u32::from_ne_bytes` is fixed to little-endian byte order.
- EcsTraits.SwapRemove: requires `i < |s|`, and so do `SwapRemoveRow` and `Storage.SwapRemoveAt`. `Vec::swap_remove` panics on an index out of range, and the panic is not modelled.
- AppCapabilities.ForDeviceOnSurface: requires at least one supported composite alpha when the capabilities query answers, because the code panics on `unwrap()` otherwise. `NewDeviceResources` and `CreateDeviceResources` require the same of exactly the devices the code assesses: once the surface exists, the devices up to and including the first whose query fails (`ReportsCompositeAlpha`).
- AppCapabilities: the accessors `score`, `required_features`, `required_extensions`, `swapchain_images`, `composite_alpha` and `image_format` are modelled as the fields of the `Capabilities` datatype they return.
- AppCapabilities: the code checks the supported extensions against `OPTIONAL_DEVICE_EXTENSIONS` (line 67) rather than the required ones. The two constants are equal, so the behaviour is the same; the model uses the optional set there, as the code does.
- AppResources.TakeQueues: has no contract of its own. What it yields is stated by `QueuesServeTheirFamilies`.
- AppResources.ResourceError: the variants that only `create` and the render-pass code produce (`LoadingError`, `HandleError`, `VulkanMissingLayers`, `GraphicsPipelineError`) are not modelled. `ValidatedHandleError`, which a failed `presentation_support` query produces, is modelled; `HandleError` values are opaque.
- Sdl and Game flag words are sets of bit positions, so `|` is union. The `SDL_INIT_*` values come from SDL 3's `SDL_init.h`, which is not part of this model.
- src/game/error.rs is not part of this model: `GameResult` is taken to be `Result<_, String>`, as `SDLResult` is.
- EcsTest.MovementUpdate: returns a row that is not a (Transform, DeltaTransform) pair unchanged. Rust's types rule such rows out.
- The code has no `World` or tick registry, so neither is modelled.
- The code has no removal of an entity by its handle, so none is modelled.
