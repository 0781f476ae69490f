/**
 * The game builder (src/game.rs).
 *
 * `GameBuilder` is the same by-value builder as `SDLSessionBuilder`: `use_*` ORs one
 * `SDL_INIT_*` bit into the flag word and `init` hands the word to `SDL_Init`.  The
 * flag words, subsystem bits and their laws are those of module `Sdl`; this module
 * shows that every step of the game builder agrees with the session builder, so its
 * laws carry over.
 */
module Game {
  import opened Wrappers
  import Sdl

  /** `GameBuilder { flags }` */
  datatype GameBuilder = GameBuilder(flags: Sdl.Flags)

  /** The session builder holding the same flag word. */
  function AsSession(g: GameBuilder): Sdl.SdlSessionBuilder {
    Sdl.SdlSessionBuilder(g.flags)
  }

  /** `GameBuilder::new()`: no subsystem asked for, as for a new session builder. */
  function New(): (g: GameBuilder)
    ensures AsSession(g) == Sdl.New()
  {
    GameBuilder({})
  }

  /** `Default::default()`, which calls `new()`. */
  function Default(): (g: GameBuilder)
    ensures AsSession(g) == Sdl.Default()
  {
    New()
  }

  /** `add_flag(flag)`: `flags |= flag`, as the session builder does it. */
  function AddFlag(g: GameBuilder, flag: Sdl.Flags): (r: GameBuilder)
    ensures AsSession(r) == Sdl.AddFlag(AsSession(g), flag)
  {
    GameBuilder(g.flags + flag)
  }

  /** The `use_*` methods: each adds its subsystem's bit, as the session builder's do. */
  function Use(g: GameBuilder, s: Sdl.Subsystem): (r: GameBuilder)
    ensures AsSession(r) == Sdl.Use(AsSession(g), s)
  {
    AddFlag(g, Sdl.InitFlag(s))
  }

  function UseVideo(g: GameBuilder): GameBuilder { Use(g, Sdl.Video) }
  function UseAudio(g: GameBuilder): GameBuilder { Use(g, Sdl.Audio) }
  function UseJoystick(g: GameBuilder): GameBuilder { Use(g, Sdl.Joystick) }
  function UseHaptic(g: GameBuilder): GameBuilder { Use(g, Sdl.Haptic) }
  function UseGamepad(g: GameBuilder): GameBuilder { Use(g, Sdl.Gamepad) }
  function UseEvents(g: GameBuilder): GameBuilder { Use(g, Sdl.Events) }
  function UseSensor(g: GameBuilder): GameBuilder { Use(g, Sdl.Sensor) }
  function UseCamera(g: GameBuilder): GameBuilder { Use(g, Sdl.Camera) }

  /** A chain of `use_*` calls on a game builder, in the order written. */
  function Chain(g: GameBuilder, calls: seq<Sdl.Subsystem>): GameBuilder
    decreases |calls|
  {
    if calls == [] then g else Chain(Use(g, calls[0]), calls[1..])
  }

  /** A chain on the game builder builds the flags the same chain builds on the session builder. */
  lemma {:induction false} ChainAgrees(g: GameBuilder, calls: seq<Sdl.Subsystem>)
    ensures AsSession(Chain(g, calls)) == Sdl.Chain(AsSession(g), calls)
    decreases |calls|
  {
    if calls != [] {
      ChainAgrees(Use(g, calls[0]), calls[1..]);
    }
  }

  /** Call order and repetition of `use_*` do not change the game builder's flags either. */
  lemma ChainOrderIrrelevant(g: GameBuilder, calls: seq<Sdl.Subsystem>, others: seq<Sdl.Subsystem>)
    requires forall s :: s in calls <==> s in others
    ensures Chain(g, calls) == Chain(g, others)
  {
    ChainAgrees(g, calls);
    ChainAgrees(g, others);
    Sdl.ChainOrderIrrelevant(AsSession(g), calls, others);
  }

  /** `GameSession` */
  datatype GameSession = GameSession

  /**
   * `init`: `Ok` exactly when `SDL_Init(flags)` succeeds, otherwise the text
   * `get_error` returns.
   */
  function Init(g: GameBuilder, sdlInit: Sdl.Flags -> bool, getError: string): (r: Result<GameSession, string>)
    ensures r.Ok? <==> Sdl.Init(AsSession(g), sdlInit, getError).Ok?
    ensures r.Err? ==> r.error == getError
  {
    if sdlInit(g.flags) then Ok(GameSession) else Err(getError)
  }
}
