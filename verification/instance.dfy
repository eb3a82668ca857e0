/**
 * A running game: one emulation core per cached cartridge, with the
 * snapshot it was booted from, a bounded rewind history, and the per-console
 * input state (the Game Boy's list of sent events, the NES controller word).
 * The Game Boy and NES instances share the base class's history logic and
 * differ in the core behind them, chosen by the `Core` variant.
 */
module Instance {
  import opened Common
  import History
  import BootAnimation
  import opened Joypad
  import GameBoyButtons
  import NesButtons

  /**
   * The emulation core, seen through the calls the instances make on it; its
   * machine state is identified with the snapshot `save_state` serializes.
   */
  datatype Core =
    | GameBoyCore(
        load: Bytes -> Snapshot,                              // PyBoy booted on the ROM
        tick: (Snapshot, nat) -> Snapshot,                    // tick(n)
        send: (Snapshot, GameBoyButtons.Event) -> Snapshot,   // send_input(event)
        pc: Snapshot -> int,                                  // register_file.PC
        screen: Snapshot -> Frame,                            // screen.image.copy()
        decodeGif: string -> Option<BootAnimation.Gif>)       // boot GIF asset; None when missing or undecodable
    | NesCore(
        load: Bytes -> Snapshot,                              // NES(rom)
        step: (Snapshot, bv16, nat) -> Snapshot,              // step(n), reading the controller word
        screen: Snapshot -> Frame)                            // the frame step() returns
  {
    function Console(): Console
    {
      if GameBoyCore? then GameBoy else Nes
    }
  }

  /** `max_players()`: how many users may share one instance. */
  function MaxPlayers(c: Console): (n: nat)
    ensures n >= 1
    ensures n == if c == Nes then 2 else 1
  {
    match c
    case GameBoy => 1
    case Nes => 2
  }

  /** One rendered step of an input: `1 + frame_skip` = 2 emulator frames. */
  function Advance(core: Core, s: Snapshot, controller: bv16): Snapshot
  {
    match core
    case GameBoyCore(_, tick, _, _, _, _) => tick(s, 2)
    case NesCore(_, step, _) => step(s, controller, 2)
  }

  /** The state after `n` rendered steps. */
  function After(core: Core, s: Snapshot, controller: bv16, n: nat): Snapshot
  {
    if n == 0 then s else Advance(core, After(core, s, controller, n - 1), controller)
  }

  datatype Run = Run(state: Snapshot, frames: seq<Frame>)

  /** The input loop: `duration` rendered steps, capturing the screen after each. */
  function Play(core: Core, s: Snapshot, controller: bv16, duration: nat): (r: Run)
    ensures |r.frames| == duration
    decreases duration
  {
    if duration == 0 then Run(s, [])
    else
      var s' := Advance(core, s, controller);
      var rest := Play(core, s', controller, duration - 1);
      Run(rest.state, [core.screen(s')] + rest.frames)
  }

  lemma {:induction false} AfterShift(core: Core, s: Snapshot, controller: bv16, n: nat)
    ensures After(core, Advance(core, s, controller), controller, n) == After(core, s, controller, n + 1)
  {
    if n > 0 {
      AfterShift(core, s, controller, n - 1);
    }
  }

  /**
   * The loop ends in the state after `duration` steps, and its i-th frame is
   * the screen after i + 1 steps.
   */
  lemma {:induction false} PlayAt(core: Core, s: Snapshot, controller: bv16, duration: nat)
    ensures Play(core, s, controller, duration).state == After(core, s, controller, duration)
    ensures forall i :: 0 <= i < duration ==>
      Play(core, s, controller, duration).frames[i] == core.screen(After(core, s, controller, i + 1))
    decreases duration
  {
    if duration > 0 {
      var s' := Advance(core, s, controller);
      PlayAt(core, s', controller, duration - 1);
      AfterShift(core, s, controller, duration - 1);
      forall i | 0 <= i < duration
        ensures Play(core, s, controller, duration).frames[i] == core.screen(After(core, s, controller, i + 1))
      {
        if i > 0 {
          AfterShift(core, s, controller, i);
        }
      }
    }
  }

  /**
   * Where a Game Boy command's rendered steps start from `s`: past the 127
   * unrendered boot frames when at the entry point (PC = 0), then with the
   * button's toggled event sent, when there is a button.
   */
  function GameBoyStart(core: Core, s: Snapshot, inputs: GameBoyButtons.Inputs, button: Option<Key>): Snapshot
    requires core.GameBoyCore?
  {
    var booted := if core.pc(s) == 0 then core.tick(s, BootAnimation.BOOT_FRAMES) else s;
    if button.Some? then core.send(booted, GameBoyButtons.Toggle(inputs, button.value).sent) else booted
  }

  class GameInstance {
    const core: Core
    const console: Console
    /** `__BOOT_SAVE_STATE`: the snapshot taken right after the ROM was loaded. */
    const bootSnapshot: Snapshot
    /** `__BOOT_ANIMATION` (Game Boy only). */
    const bootAnimation: seq<Frame>
    /** The core's machine state. */
    var state: Snapshot
    /** `state_history`. */
    var history: History.Log
    /** The Game Boy events last sent, per button (`inputs`). */
    var inputs: GameBoyButtons.Inputs
    /** The NES `emulator.controller` word. */
    var controller: bv16
    /** Whether `stop()` has released the core and its ROM file. */
    var stopped: bool

    /** The console tag agrees with the core (the history bound and the input consistency are in the field types). */
    ghost predicate Valid()
    {
      console == core.Console()
    }

    /** Loads the ROM into a new core and records its boot snapshot. */
    constructor (core: Core, rom: Bytes, bootAsset: string)
      ensures Valid()
      ensures this.core == core && state == core.load(rom) && bootSnapshot == state
      ensures bootAnimation == if core.GameBoyCore? then BootAnimation.Animation(core.decodeGif(bootAsset)) else []
      ensures history == [] && inputs == [] && controller == 0 && !stopped
    {
      this.core := core;
      console := core.Console();
      bootAnimation := if core.GameBoyCore? then BootAnimation.Animation(core.decodeGif(bootAsset)) else [];
      bootSnapshot := core.load(rom);
      state := core.load(rom);
      history := [];
      inputs := [];
      controller := 0;
      stopped := false;
    }

    /** `save_state`. */
    function SaveState(): Snapshot
      reads this
    {
      state
    }

    /** `load_state`: the Game Boy reads the bytes (None reads as empty); the NES ignores it. */
    method LoadState(s: Option<Snapshot>)
      requires Valid()
      modifies this`state
      ensures state == if console == GameBoy then StreamOf(s) else old(state)
    {
      if console == GameBoy {
        state := StreamOf(s);
      }
    }

    /** `restart`: reload the boot snapshot (a no-op on the NES, whose loading is disabled). */
    method Restart()
      requires Valid()
      modifies this`state
      ensures state == if console == GameBoy then bootSnapshot else old(state)
    {
      LoadState(Some(bootSnapshot));
    }

    /** The emulators' resume step: restart on a missing or empty state, otherwise load it. */
    method Resume(s: Option<Snapshot>)
      requires Valid()
      modifies this`state
      ensures state == if console == Nes then old(state) else if Truthy(s) then s.value else bootSnapshot
    {
      if !Truthy(s) {
        Restart();
      } else {
        LoadState(s);
      }
    }

    /** `screenshot`: the NES capture steps its core one frame to obtain it. */
    method Screenshot() returns (f: Frame)
      requires Valid()
      modifies this`state
      ensures console == GameBoy ==> state == old(state) && f == core.screen(state)
      ensures console == Nes ==> state == core.step(old(state), controller, 1) && f == core.screen(state)
    {
      if console == Nes {
        state := core.step(state, controller, 1);
      }
      f := core.screen(state);
    }

    /** `stop`. */
    method Stop()
      modifies this`stopped
      ensures stopped
    {
      stopped := true;
    }

    /** `save_state_to_history`. */
    method SaveStateToHistory(s: History.Entry)
      requires Valid()
      modifies this`history
      ensures Valid()
      ensures history == History.Pushed(old(history), s)
    {
      var appended := history + [s];
      if |appended| > History.LIMIT {
        history := appended[1..];
      } else {
        history := appended;
      }
    }

    /** `previous_state`: pop the newest history entry and load it. */
    method PreviousState() returns (r: Outcome)
      requires Valid()
      modifies this`state, this`history
      ensures Valid()
      ensures old(history) == [] ==> r == Fail(NoPreviousState) && history == [] && state == old(state)
      ensures old(history) != [] ==>
        && r == Pass
        && history == old(history)[..|old(history)| - 1]
        && state == if console == GameBoy then StreamOf(old(history)[|old(history)| - 1]) else old(state)
    {
      if history == [] {
        return Fail(NoPreviousState);
      }
      var top := history[|history| - 1];
      history := history[..|history| - 1];
      LoadState(top);
      r := Pass;
    }

    /** The frame loop shared by both consoles' `input`. */
    method RunFrames(duration: nat) returns (frames: seq<Frame>)
      modifies this`state
      ensures Run(state, frames) == Play(core, old(state), controller, duration)
    {
      frames := [];
      var i := 0;
      while i < duration
        invariant 0 <= i <= duration
        invariant var rest := Play(core, state, controller, duration - i);
          Play(core, old(state), controller, duration) == Run(rest.state, frames + rest.frames)
      {
        var rest := Play(core, state, controller, duration - i);
        ghost var before := frames;
        state := Advance(core, state, controller);
        var next := Play(core, state, controller, duration - i - 1);
        assert rest.frames == [core.screen(state)] + next.frames;
        frames := frames + [core.screen(state)];
        assert frames + next.frames == before + rest.frames by {
          assert (before + [core.screen(state)]) + next.frames
              == before + ([core.screen(state)] + next.frames);
        }
        i := i + 1;
      }
      assert frames + [] == frames;
    }

    /**
     * Game Boy `input`: from the boot entry point (PC = 0) the boot animation
     * is shown and 127 frames are run unrendered; a button is toggled and its
     * event sent; then `duration` rendered steps are captured.
     */
    method GameBoyInput(button: Option<Key>, duration: nat) returns (frames: seq<Frame>)
      requires Valid() && console == GameBoy
      modifies this`state, this`inputs
      ensures Valid()
      ensures inputs == if button.Some? then GameBoyButtons.Toggle(old(inputs), button.value).held else old(inputs)
      ensures var run := Play(core, GameBoyStart(core, old(state), old(inputs), button), controller, duration);
        && state == run.state
        && frames == (if core.pc(old(state)) == 0 then bootAnimation else []) + run.frames
    {
      frames := [];
      if core.pc(state) == 0 {
        if |bootAnimation| > 0 {
          frames := frames + bootAnimation;
        }
        state := core.tick(state, BootAnimation.BOOT_FRAMES);
      }
      if button.Some? {
        var t := GameBoyButtons.Toggle(inputs, button.value);
        GameBoyButtons.ToggleKeepsConsistent(inputs, button.value);
        inputs := t.held;
        state := core.send(state, t.sent);
      }
      var run := RunFrames(duration);
      frames := frames + run;
    }

    /** NES `input`: XOR the button into the controller word, then capture `duration` steps. */
    method NesInput(button: Option<bv16>, duration: nat) returns (frames: seq<Frame>)
      requires Valid() && console == Nes
      modifies this`state, this`controller
      ensures Valid()
      ensures controller == if button.Some? then NesButtons.Pressed(old(controller), button.value) else old(controller)
      ensures Run(state, frames) == Play(core, old(state), controller, duration)
    {
      if button.Some? {
        controller := NesButtons.Pressed(controller, button.value);
      }
      frames := RunFrames(duration);
    }
  }
}
