/**
 * The SDL session builder (src/sdl.rs).
 *
 * `SDLSessionBuilder` is a by-value builder: each `use_*` call ORs one `SDL_INIT_*`
 * subsystem bit into a `u32` flag word, and `init` hands the word to `SDL_Init`.
 * `SDL_Init` and `SDL_GetError` are foreign calls: `init` takes their behaviour as
 * parameters.
 *
 * A `u32` flag word is modelled as the set of its set bits (positions 0 to 31): `|`
 * is union, `&` intersection, and a word with one bit set is a singleton.  The flag
 * values are those of SDL 3's `SDL_init.h`.
 */
module Sdl {
  import opened Wrappers

  /** A bit position in a `u32`. */
  type Bit = k: nat | k < 32

  /** A `u32` flag word, as the set of its set bits. */
  type Flags = set<Bit>

  /** `0x0000_0010` */
  const SDL_INIT_AUDIO: Flags := {4}
  /** `0x0000_0020` */
  const SDL_INIT_VIDEO: Flags := {5}
  /** `0x0000_0200` */
  const SDL_INIT_JOYSTICK: Flags := {9}
  /** `0x0000_1000` */
  const SDL_INIT_HAPTIC: Flags := {12}
  /** `0x0000_2000` */
  const SDL_INIT_GAMEPAD: Flags := {13}
  /** `0x0000_4000` */
  const SDL_INIT_EVENTS: Flags := {14}
  /** `0x0000_8000` */
  const SDL_INIT_SENSOR: Flags := {15}
  /** `0x0001_0000` */
  const SDL_INIT_CAMERA: Flags := {16}

  /** The subsystems a builder can ask for, one per `use_*` method. */
  datatype Subsystem = Audio | Video | Joystick | Haptic | Gamepad | Events | Sensor | Camera

  /** The `SDL_INIT_*` bit of a subsystem. */
  function InitFlag(s: Subsystem): Flags {
    match s
    case Audio => SDL_INIT_AUDIO
    case Video => SDL_INIT_VIDEO
    case Joystick => SDL_INIT_JOYSTICK
    case Haptic => SDL_INIT_HAPTIC
    case Gamepad => SDL_INIT_GAMEPAD
    case Events => SDL_INIT_EVENTS
    case Sensor => SDL_INIT_SENSOR
    case Camera => SDL_INIT_CAMERA
  }

  /** Each subsystem has a bit of its own: no two subsystems share one. */
  lemma InitFlagsDisjoint(s: Subsystem, t: Subsystem)
    ensures |InitFlag(s)| == 1
    ensures s != t ==> InitFlag(s) * InitFlag(t) == {}
  {
  }

  /** `SDLSessionBuilder { flags }` */
  datatype SdlSessionBuilder = SdlSessionBuilder(flags: Flags)

  /** `SDLSessionBuilder::new()`: no subsystem asked for. */
  function New(): (b: SdlSessionBuilder)
    ensures b.flags == {}
  {
    SdlSessionBuilder({})
  }

  /** `Default::default()`, which calls `new()`. */
  function Default(): (b: SdlSessionBuilder)
    ensures b.flags == {}
  {
    New()
  }

  /**
   * `add_flag(flag)`: `flags |= flag`.  Every bit set before stays set, every bit of
   * `flag` becomes set, and no other bit does.
   */
  function AddFlag(b: SdlSessionBuilder, flag: Flags): (r: SdlSessionBuilder)
    ensures b.flags <= r.flags && flag <= r.flags
    ensures forall k :: k in r.flags ==> k in b.flags || k in flag
  {
    SdlSessionBuilder(b.flags + flag)
  }

  /** Adding a flag twice is adding it once, and two flags can be added in either order. */
  lemma AddFlagIdempotentAndCommutative(b: SdlSessionBuilder, f: Flags, g: Flags)
    ensures AddFlag(AddFlag(b, f), f) == AddFlag(b, f)
    ensures AddFlag(AddFlag(b, f), g) == AddFlag(AddFlag(b, g), f)
  {
  }

  /**
   * The `use_*` methods: `use_audio`, `use_video`, … each add their subsystem's bit.
   * The subsystem's bit is set afterwards, and every other bit is as it was.
   */
  function Use(b: SdlSessionBuilder, s: Subsystem): (r: SdlSessionBuilder)
    ensures InitFlag(s) <= r.flags
    ensures r.flags - InitFlag(s) == b.flags - InitFlag(s)
  {
    AddFlag(b, InitFlag(s))
  }

  function UseVideo(b: SdlSessionBuilder): SdlSessionBuilder { Use(b, Video) }
  function UseAudio(b: SdlSessionBuilder): SdlSessionBuilder { Use(b, Audio) }
  function UseJoystick(b: SdlSessionBuilder): SdlSessionBuilder { Use(b, Joystick) }
  function UseHaptic(b: SdlSessionBuilder): SdlSessionBuilder { Use(b, Haptic) }
  function UseGamepad(b: SdlSessionBuilder): SdlSessionBuilder { Use(b, Gamepad) }
  function UseEvents(b: SdlSessionBuilder): SdlSessionBuilder { Use(b, Events) }
  function UseSensor(b: SdlSessionBuilder): SdlSessionBuilder { Use(b, Sensor) }
  function UseCamera(b: SdlSessionBuilder): SdlSessionBuilder { Use(b, Camera) }

  /** A chain of `use_*` calls, in the order written. */
  function Chain(b: SdlSessionBuilder, calls: seq<Subsystem>): SdlSessionBuilder
    decreases |calls|
  {
    if calls == [] then b else Chain(Use(b, calls[0]), calls[1..])
  }

  /** The bits of a set of subsystems. */
  function Mask(subsystems: set<Subsystem>): Flags {
    set s, k | s in subsystems && k in InitFlag(s) :: k
  }

  lemma MaskAdd(subsystems: set<Subsystem>, s: Subsystem)
    ensures Mask(subsystems + {s}) == Mask(subsystems) + InitFlag(s)
  {
  }

  /** A chain of `use_*` calls ORs in exactly the bits of the subsystems it names. */
  lemma {:induction false} ChainIsMask(b: SdlSessionBuilder, calls: seq<Subsystem>)
    ensures Chain(b, calls).flags == b.flags + Mask(set s | s in calls)
    decreases |calls|
  {
    if calls == [] {
      assert (set s | s in calls) == {};
    } else {
      var rest := calls[1..];
      ChainIsMask(Use(b, calls[0]), rest);
      assert (set s | s in calls) == (set s | s in rest) + {calls[0]};
      MaskAdd((set s | s in rest), calls[0]);
    }
  }

  /**
   * Neither the order of the `use_*` calls nor their repetition matters: two chains
   * naming the same subsystems build the same flags.
   */
  lemma ChainOrderIrrelevant(b: SdlSessionBuilder, calls: seq<Subsystem>, others: seq<Subsystem>)
    requires forall s :: s in calls <==> s in others
    ensures Chain(b, calls) == Chain(b, others)
  {
    ChainIsMask(b, calls);
    ChainIsMask(b, others);
    assert (set s | s in calls) == (set s | s in others);
  }

  /** A subsystem's bit is set after a chain from `new()` exactly when the chain names it. */
  lemma ChainFromNew(calls: seq<Subsystem>, s: Subsystem)
    ensures InitFlag(s) <= Chain(New(), calls).flags <==> s in calls
  {
    ChainIsMask(New(), calls);
    var k :| k in InitFlag(s);
    if InitFlag(s) <= Chain(New(), calls).flags {
      var t :| t in (set s | s in calls) && k in InitFlag(t);
      InitFlagsDisjoint(s, t);
    }
  }

  /** `SDLSession` */
  datatype SdlSession = SdlSession

  /**
   * `init`: `SDL_Init(flags)` reports success or failure; on failure the error is
   * the text `SDL_GetError` returns (`SDLResult` is `Result<_, String>`).
   */
  function Init(b: SdlSessionBuilder, sdlInit: Flags -> bool, getError: string): (r: Result<SdlSession, string>)
    ensures r.Ok? <==> sdlInit(b.flags)
    ensures r.Err? ==> r.error == getError
  {
    if sdlInit(b.flags) then Ok(SdlSession) else Err(getError)
  }
}
