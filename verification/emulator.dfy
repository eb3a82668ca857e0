/**
 * The console emulators: `start` acquires the cartridge's instance, resumes
 * it from the cartridge's stored state and captures one frame; `input`
 * acquires, resumes, pushes the stored state on the rewind history, applies
 * one joypad command and writes the new state and the play time back to the
 * cartridge. The Game Boy emulator also reads its owner's premium settings.
 */
module Emulator {
  import opened Common
  import opened Instance
  import opened Joypad
  import History
  import GameBoyButtons
  import NesButtons
  import Strings
  import Database
  import Manager

  /** What `start` hands back: the instance and its captured frame. */
  datatype Shown = Shown(instance: GameInstance, frame: Frame)

  /** The instance fields `input` reads before its command, and the caller's joypad index. */
  datatype Before = Before(state: Snapshot, history: seq<History.Entry>, inputs: GameBoyButtons.Inputs,
                           controller: bv16, player: nat)

  /** What `input` hands back: the instance and the frames of the command. */
  datatype Played = Played(instance: GameInstance, frames: seq<Frame>)

  /** The frame options `__get_premium_features` returns: colour, border, border image path. */
  datatype Premium = Premium(enableColor: bool, enableBorder: bool, border: Option<string>)

  /** Python truthiness of an optional string. */
  predicate Filled(s: Option<string>)
  {
    s.Some? && |s.value| > 0
  }

  /** `os.path.join(str(id), "gameboy")`: the owner's Game Boy asset directory. */
  function OwnerDir(id: UserId): string
  {
    Strings.PathJoin(Strings.ShowInt(id), "gameboy")
  }

  /**
   * `__get_premium_features` for a Game Boy cartridge titled `title`, with
   * border asset `border`, owned by `owner`. A premium owner without a Game
   * Boy profile raises AttributeError; a premium owner's cartridge without a
   * border raises TypeError in `os.path.join`.
   */
  function PremiumFeatures(owner: Database.User, title: string, border: Option<string>): (r: Result<Premium>)
    ensures r.Err? <==> owner.premium && (owner.profile.None? || border.None?)
    ensures r.Err? ==> r.error == if owner.profile.None? then AttributeError else TypeError
    ensures !owner.premium ==> r == Ok(Premium(false, false, border))
    ensures owner.premium && r.Ok? ==>
      && r.value.enableColor == owner.profile.value.enableColor
      && r.value.enableBorder == owner.profile.value.enableBorder
      && r.value.border.Some?
  {
    if !owner.premium then Ok(Premium(false, false, border))
    else if owner.profile.None? then Err(AttributeError)
    else if border.None? then Err(TypeError)
    else
      var p := owner.profile.value;
      var path := Strings.PathJoin(Strings.PathJoin(OwnerDir(owner.id), title), border.value);
      if p.enableBorder && Filled(p.customBorder) then
        Ok(Premium(p.enableColor, p.enableBorder, Some(Strings.PathJoin(OwnerDir(owner.id), p.customBorder.value))))
      else Ok(Premium(p.enableColor, p.enableBorder, Some(path)))
  }

  /** A single path component: non-empty and without a separator. */
  predicate Component(s: string)
  {
    |s| > 0 && '/' !in s
  }

  /** `str(id)` ends in a digit, so joining after it inserts a separator. */
  lemma ShowIntEndsInDigit(id: UserId)
    ensures var s := Strings.ShowInt(id); |s| > 0 && s[|s| - 1] != '/'
  {
    var n := if id < 0 then -id else id;
    var d := Strings.ShowNat(n);
    assert Strings.IsDigit(d[|d| - 1]);
    if id < 0 {
      assert Strings.ShowInt(id)[|Strings.ShowInt(id)| - 1] == d[|d| - 1];
    }
  }

  /**
   * For a premium owner with a profile, and plain file and title names, the
   * border is `<id>/gameboy/<title>/<border>`, or `<id>/gameboy/<custom>`
   * when the border is enabled and a custom one is set; an absolute custom
   * border path replaces the owner's directory altogether.
   */
  lemma PremiumBorderPath(owner: Database.User, title: string, border: string)
    requires owner.premium && owner.profile.Some?
    ensures var r := PremiumFeatures(owner, title, Some(border));
      var p := owner.profile.value;
      var dir := Strings.ShowInt(owner.id) + "/gameboy/";
      && r.Ok?
      && (p.enableBorder && Filled(p.customBorder) && Component(p.customBorder.value) ==>
            r.value.border == Some(dir + p.customBorder.value))
      && (p.enableBorder && Filled(p.customBorder) && p.customBorder.value[0] == '/' ==>
            r.value.border == p.customBorder)
      && (!(p.enableBorder && Filled(p.customBorder)) && Component(title) && Component(border) ==>
            r.value.border == Some(dir + title + "/" + border))
  {
    var p := owner.profile.value;
    var id := Strings.ShowInt(owner.id);
    ShowIntEndsInDigit(owner.id);
    assert OwnerDir(owner.id) == id + "/gameboy";
    if p.enableBorder && Filled(p.customBorder) {
      var c := p.customBorder.value;
      if Component(c) {
        assert c[0] != '/' by { assert c[0] in c; }
        assert (id + "/gameboy") + "/" + c == id + "/gameboy/" + c;
      }
    } else if Component(title) && Component(border) {
      assert title[0] != '/' by { assert title[0] in title; }
      assert border[0] != '/' by { assert border[0] in border; }
      var t := Strings.PathJoin(OwnerDir(owner.id), title);
      assert t == id + "/gameboy/" + title;
      assert t[|t| - 1] == title[|title| - 1];
      assert t[|t| - 1] != '/' by { assert title[|title| - 1] in title; }
      assert t + "/" + border == id + "/gameboy/" + title + "/" + border;
    }
  }

  /**
   * The state `start` and `input` resume a Game Boy instance from: the
   * cartridge's stored state, or the boot snapshot when there is none or it
   * is empty. (An NES instance ignores both, its loading being disabled.)
   */
  function Resumed(boot: Snapshot, stored: Option<Snapshot>): (s: Snapshot)
    ensures Truthy(stored) ==> s == stored.value
    ensures !Truthy(stored) ==> s == boot
  {
    if Truthy(stored) then stored.value else boot
  }

  /**
   * The part of `start` after the instance is acquired: resume, capture, and
   * fail on a blank capture; the Game Boy emulator then reads the owner's
   * premium settings, which may fail.
   */
  method Show(inst: GameInstance, cartridge: Database.Cartridge, owner: Database.User) returns (r: Result<Frame>)
    requires inst.Valid()
    modifies inst`state
    ensures inst.state == if inst.console == GameBoy then Resumed(inst.bootSnapshot, cartridge.state)
                          else inst.core.step(old(inst.state), inst.controller, 1)
    ensures var f := inst.core.screen(inst.state);
      var premium := PremiumFeatures(owner, cartridge.title, cartridge.border);
      r == if f == Blank then Err(InvalidFrameData)
           else if inst.console == GameBoy && premium.Err? then Err(premium.error)
           else Ok(f)
  {
    inst.Resume(cartridge.state);
    var frame := inst.Screenshot();
    if frame == Blank {
      return Err(InvalidFrameData);
    }
    if inst.console == GameBoy {
      var premium := PremiumFeatures(owner, cartridge.title, cartridge.border);
      if premium.Err? {
        return Err(premium.error);
      }
    }
    r := Ok(frame);
  }

  /**
   * The command step of both consoles' `input`: a Game Boy button is toggled
   * in the held list and its event sent, an NES button (moved to the high
   * byte for the joypad at index 1) is XORed into the controller word; then
   * the command's frames are run. None for a string naming no button.
   */
  method Press(inst: GameInstance, player: nat, req: Request) returns (frames: Option<seq<Frame>>)
    requires inst.Valid()
    modifies inst`state, inst`inputs, inst`controller
    ensures frames.None? <==> req.button.Raw?
    ensures frames.None? ==>
      inst.state == old(inst.state) && inst.inputs == old(inst.inputs) && inst.controller == old(inst.controller)
    ensures frames.Some? && inst.console == GameBoy ==>
      var run := Play(inst.core, GameBoyStart(inst.core, old(inst.state), old(inst.inputs), req.button.KeyOf()),
                      inst.controller, req.ticks);
      && inst.state == run.state
      && frames.value == (if inst.core.pc(old(inst.state)) == 0 then inst.bootAnimation else []) + run.frames
      && inst.inputs == (if req.button.Named? then GameBoyButtons.Toggle(old(inst.inputs), req.button.key).held
                         else old(inst.inputs))
      && inst.controller == old(inst.controller)
    ensures frames.Some? && inst.console == Nes ==>
      && inst.inputs == old(inst.inputs)
      && inst.controller == (if req.button.Named?
                             then NesButtons.Pressed(old(inst.controller), NesButtons.PlayerButton(req.button.key, player))
                             else old(inst.controller))
      && Run(inst.state, frames.value) == Play(inst.core, old(inst.state), inst.controller, req.ticks)
  {
    if req.button.Raw? {
      return None;
    }
    if inst.console == GameBoy {
      var fs := inst.GameBoyInput(req.button.KeyOf(), req.ticks);
      frames := Some(fs);
    } else {
      var button := if req.button.Named? then Some(NesButtons.PlayerButton(req.button.key, player)) else None;
      var fs := inst.NesInput(button, req.ticks);
      PlayAt(inst.core, old(inst.state), inst.controller, req.ticks);
      frames := Some(fs);
    }
  }

  /**
   * What one command `req` leaves in an instance that held `before` and was
   * resumed from the stored state `stored`: the stored state was pushed on the
   * history; a Game Boy ends where the command's rendered steps from
   * `GameBoyStart` of the resumed state end, and its button is toggled in the
   * held list; an NES button (of joypad `before.player`) is XORed into the
   * controller word, which then drives every NES step.
   */
  ghost predicate Applied(inst: GameInstance, before: Before, stored: Option<Snapshot>, req: Request)
    reads inst
  {
    && inst.history == History.Pushed(before.history, stored)
    && (inst.core.GameBoyCore? ==>
          var start := Resumed(inst.bootSnapshot, stored);
          && inst.state == Play(inst.core, GameBoyStart(inst.core, start, before.inputs, req.button.KeyOf()),
                                inst.controller, req.ticks).state
          && inst.inputs == (if req.button.Named? then GameBoyButtons.Toggle(before.inputs, req.button.key).held
                             else before.inputs)
          && inst.controller == before.controller)
    && (inst.core.NesCore? ==>
          && inst.inputs == before.inputs
          && inst.controller == (if req.button.Named?
                                 then NesButtons.Pressed(before.controller, NesButtons.PlayerButton(req.button.key, before.player))
                                 else before.controller)
          && inst.state == Play(inst.core, before.state, inst.controller, req.ticks).state)
  }

  /**
   * What a refused command leaves in the same instance: the stored state was
   * pushed on the history and the instance resumed; nothing else changed.
   */
  ghost predicate Refused(inst: GameInstance, before: Before, stored: Option<Snapshot>)
    reads inst
  {
    && inst.history == History.Pushed(before.history, stored)
    && inst.state == (if inst.core.GameBoyCore? then Resumed(inst.bootSnapshot, stored) else before.state)
    && inst.inputs == before.inputs
    && inst.controller == before.controller
  }

  /**
   * The whole effect of one command, frames included: `Applied`, and the
   * frames are the boot animation (for a Game Boy resuming at its entry
   * point, PC = 0) followed by the command's rendered frames.
   */
  ghost predicate Commanded(inst: GameInstance, before: Before, stored: Option<Snapshot>, req: Request, frames: seq<Frame>)
    reads inst
  {
    && Applied(inst, before, stored, req)
    && |frames| >= req.ticks
    && (inst.core.GameBoyCore? ==>
          var start := Resumed(inst.bootSnapshot, stored);
          var run := Play(inst.core, GameBoyStart(inst.core, start, before.inputs, req.button.KeyOf()),
                          inst.controller, req.ticks);
          frames == (if inst.core.pc(start) == 0 then inst.bootAnimation else []) + run.frames)
    && (inst.core.NesCore? ==>
          frames == Play(inst.core, before.state, inst.controller, req.ticks).frames)
  }

  /** `GameBoyEmulator` / `NESEmulator`: a console's instance manager and its two commands. */
  class ConsoleEmulator {
    const console: Console
    const manager: Manager.InstanceManager

    ghost predicate Valid()
      reads manager
    {
      manager.Valid() && manager.console == console
    }

    constructor (core: Core)
      ensures Valid() && console == core.Console() && manager.core == core && fresh(manager)
      ensures manager.instances == map[] && !manager.shouldStop
    {
      console := core.Console();
      manager := new Manager.InstanceManager(core);
    }

    /** The cached instance an acquisition for `caller` hands back, if any: the one whose state a command may change. */
    ghost function Claimed(cartridge: Database.Cartridge, caller: UserId): set<GameInstance>
      reads manager
    {
      if cartridge.id in manager.instances && caller in manager.instances[cartridge.id].users
      then {manager.instances[cartridge.id].instance} else {}
    }

    /**
     * `start`: acquire the cartridge's instance for `caller` (refreshing its
     * idle clock), resume it from the stored state and capture a frame.
     * `owner` is the cartridge's owner record (`cartridge.user`).
     */
    method Start(cartridge: Database.Cartridge, caller: UserId, owner: Database.User, now: real) returns (r: Result<Shown>)
      requires Valid() && cartridge.console == console && owner.id == cartridge.owner
      modifies manager`lastUsed, manager`instances, manager`order, manager`Repr, Claimed(cartridge, caller)`state
      ensures Valid()
      ensures manager.lastUsed == old(manager.lastUsed)[cartridge.id := now]
      ensures var cached := cartridge.id in old(manager.instances);
        r == Err(UnauthorizedJoypadAccess) <==> cached && caller !in old(manager.instances)[cartridge.id].users
      ensures r.Err? ==> r.error in {UnauthorizedJoypadAccess, InvalidFrameData, AttributeError, TypeError}
      ensures Manager.Acquisition(old(manager.instances), old(manager.order), manager.instances, manager.order, cartridge, caller)
      ensures cartridge.id !in old(manager.instances) ==> fresh(manager.instances[cartridge.id].instance)
      ensures r != Err(UnauthorizedJoypadAccess) ==>
        var cached := cartridge.id in old(manager.instances);
        var inst := manager.instances[cartridge.id].instance;
        && (console == GameBoy ==> inst.state == Resumed(inst.bootSnapshot, cartridge.state))
        && (console == Nes ==>
              inst.state == manager.core.step(if cached then old(inst.state) else manager.core.load(cartridge.rom),
                                              inst.controller, 1))
      ensures forall g :: g in old(manager.Repr) - old(Claimed(cartridge, caller)) ==> g.state == old(g.state)
      ensures r.Ok? ==>
        var cached := cartridge.id in old(manager.instances);
        var inst := r.value.instance;
        && cartridge.id in manager.instances && manager.instances[cartridge.id].instance == inst
        && (cached ==> inst == old(manager.instances)[cartridge.id].instance)
        && r.value.frame == manager.core.screen(inst.state) && r.value.frame != Blank
        && (console == GameBoy ==> inst.state == Resumed(inst.bootSnapshot, cartridge.state))
        && (console == Nes ==>
              inst.state == manager.core.step(if cached then old(inst.state) else manager.core.load(cartridge.rom),
                                              inst.controller, 1))
    {
      var acquired := manager.GetGameInstance(cartridge, caller, now);
      if acquired.Err? {
        return Err(acquired.error);
      }
      var inst := acquired.value.instance;
      var shown := Show(inst, cartridge, owner);
      if shown.Err? {
        return Err(shown.error);
      }
      r := Ok(Shown(inst, shown.value));
    }

    /**
     * What an `input` by `caller` starts from: the cached instance's history,
     * held Game Boy events, NES controller word and the caller's joypad
     * index, or those of a new instance (empty, 0, index 0).
     */
    ghost function Prior(cartridge: Database.Cartridge, caller: UserId): Before
      requires Valid()
      reads manager, manager.Repr
    {
      if cartridge.id in manager.instances && caller in manager.instances[cartridge.id].users then
        var e := manager.instances[cartridge.id];
        var i := e.instance;
        Before(i.state, i.history, i.inputs, i.controller, Manager.IndexOf(e.users, caller))
      else Before(manager.core.load(cartridge.rom), [], [], 0, 0)
    }

    /**
     * The acquisition both commands open with (`get_game_instance`), seen
     * from the emulator: on success, the cartridge's valid instance of this
     * console, holding what `Prior` describes.
     */
    method Acquire(cartridge: Database.Cartridge, caller: UserId, now: real) returns (r: Result<Manager.Acquired>)
      requires Valid() && cartridge.console == console
      modifies manager`lastUsed, manager`instances, manager`order, manager`Repr
      ensures Valid()
      ensures manager.lastUsed == old(manager.lastUsed)[cartridge.id := now]
      ensures r.Err? <==> cartridge.id in old(manager.instances) && caller !in old(manager.instances)[cartridge.id].users
      ensures r.Err? ==> r.error == UnauthorizedJoypadAccess
      ensures Manager.Acquisition(old(manager.instances), old(manager.order), manager.instances, manager.order, cartridge, caller)
      ensures cartridge.id !in old(manager.instances) ==> r.Ok? && fresh(r.value.instance)
      ensures r.Ok? ==>
        var inst := r.value.instance;
        && inst.Valid() && inst.console == console && inst.core == manager.core
        && (inst in old(manager.Repr) || fresh(inst))
        && cartridge.id in manager.instances && manager.instances[cartridge.id].instance == inst
        && Before(inst.state, inst.history, inst.inputs, inst.controller, r.value.player) == old(Prior(cartridge, caller))
    {
      ghost var before := Prior(cartridge, caller);
      ghost var cached := cartridge.id in manager.instances;
      assert cached ==> manager.instances[cartridge.id].instance in manager.Repr;
      r := manager.GetGameInstance(cartridge, caller, now);
      if r.Ok? {
        var inst := r.value.instance;
        assert cached ==> inst == old(manager.instances)[cartridge.id].instance;
        assert Manager.EntryValid(manager.core, cartridge.id, manager.instances[cartridge.id]);
      }
    }

    /**
     * The part of `input` after the instance is acquired, `player` being the
     * caller's joypad index: resume, push the stored state on the history,
     * apply the command, and on success write the new state and the play time
     * back. A string naming no button is refused (see README). The command
     * always runs at least one frame, so the empty-capture check cannot fire.
     */
    method Drive(inst: GameInstance, player: nat, cartridge: Database.Cartridge, owner: Database.User, req: Request)
      returns (r: Result<seq<Frame>>)
      requires Valid() && inst.Valid() && req.ticks >= 1
      modifies inst`state, inst`history, inst`inputs, inst`controller, cartridge`state, cartridge`playTime
      ensures Valid() && unchanged(manager)
      ensures r.Err? ==> r.error in {UnsupportedButton, TypeError, AttributeError}
      ensures var premium := PremiumFeatures(owner, cartridge.title, cartridge.border);
        && inst.history == History.Pushed(old(inst.history), old(cartridge.state))
        && (req.button.Raw? ==> r == Err(if inst.console == GameBoy then UnsupportedButton else TypeError))
        && (!req.button.Raw? && inst.console == GameBoy && premium.Err? ==> r == Err(premium.error))
        && (!req.button.Raw? && (inst.console == Nes || premium.Ok?) ==> r.Ok?)
        && (r.Err? ==> cartridge.state == old(cartridge.state) && cartridge.playTime == old(cartridge.playTime))
        && (r.Ok? ==>
              && cartridge.state == Some(inst.state)
              && cartridge.playTime == old(cartridge.playTime) + |r.value|)
      ensures var before := Before(old(inst.state), old(inst.history), old(inst.inputs), old(inst.controller), player);
        && (req.button.Raw? ==> Refused(inst, before, old(cartridge.state)))
        && (!req.button.Raw? ==> Applied(inst, before, old(cartridge.state), req))
        && (r.Ok? ==> Commanded(inst, before, old(cartridge.state), req, r.value))
    {
      inst.Resume(cartridge.state);
      inst.SaveStateToHistory(cartridge.state);
      var frames := Press(inst, player, req);
      if frames.None? {
        return Err(if inst.console == GameBoy then UnsupportedButton else TypeError);
      }
      if inst.console == GameBoy {
        var premium := PremiumFeatures(owner, cartridge.title, cartridge.border);
        if premium.Err? {
          return Err(premium.error);
        }
      }
      cartridge.state := Some(inst.SaveState());
      cartridge.playTime := cartridge.playTime + |frames.value|;
      r := Ok(frames.value);
    }

    /**
     * `input`: acquire the cartridge's instance for `caller` (refreshing its
     * idle clock), then push the stored state on its history, apply the
     * command `token` with the caller's joypad, and write the new state and
     * the play time back to the cartridge.
     */
    method Input(cartridge: Database.Cartridge, caller: UserId, owner: Database.User, token: Token, now: real)
      returns (r: Result<Played>)
      requires Valid() && cartridge.console == console && owner.id == cartridge.owner
      modifies manager`lastUsed, manager`instances, manager`order, manager`Repr
      modifies Claimed(cartridge, caller)`state, Claimed(cartridge, caller)`history
      modifies Claimed(cartridge, caller)`inputs, Claimed(cartridge, caller)`controller
      modifies cartridge`state, cartridge`playTime
      ensures Valid()
      ensures manager.lastUsed == old(manager.lastUsed)[cartridge.id := now]
      ensures var cached := cartridge.id in old(manager.instances);
        && (r == Err(UnauthorizedJoypadAccess) <==> cached && caller !in old(manager.instances)[cartridge.id].users)
        && (r.Err? ==> cartridge.state == old(cartridge.state) && cartridge.playTime == old(cartridge.playTime))
      ensures r.Err? && r.error != UnauthorizedJoypadAccess && Parse(token).button.Raw? ==>
        r.error == if console == GameBoy then UnsupportedButton else TypeError
      ensures r.Err? && r.error != UnauthorizedJoypadAccess && !Parse(token).button.Raw? ==>
        console == GameBoy && PremiumFeatures(owner, cartridge.title, cartridge.border) == Err(r.error)
      ensures Manager.Acquisition(old(manager.instances), old(manager.order), manager.instances, manager.order, cartridge, caller)
      ensures r != Err(UnauthorizedJoypadAccess) ==>
        var inst := manager.instances[cartridge.id].instance;
        var req := Parse(token);
        && (req.button.Raw? ==> Refused(inst, old(Prior(cartridge, caller)), old(cartridge.state)))
        && (!req.button.Raw? ==> Applied(inst, old(Prior(cartridge, caller)), old(cartridge.state), req))
      ensures r.Ok? ==>
        && cartridge.id in manager.instances && manager.instances[cartridge.id].instance == r.value.instance
        && cartridge.state == Some(r.value.instance.state)
        && cartridge.playTime == old(cartridge.playTime) + |r.value.frames|
        && Commanded(r.value.instance, old(Prior(cartridge, caller)), old(cartridge.state), Parse(token), r.value.frames)
    {
      var acquired := Acquire(cartridge, caller, now);
      assert unchanged(cartridge);
      if acquired.Err? {
        return Err(acquired.error);
      }
      var inst := acquired.value.instance;
      assert inst in old(Claimed(cartridge, caller)) || fresh(inst);
      var req := Parse(token);
      ghost var before := Before(inst.state, inst.history, inst.inputs, inst.controller, acquired.value.player);
      ghost var stored := cartridge.state;
      assert before == old(Prior(cartridge, caller));
      assert cartridge.id in manager.instances && manager.instances[cartridge.id].instance == inst;
      var frames := Drive(inst, acquired.value.player, cartridge, owner, req);
      if frames.Err? {
        return Err(frames.error);
      }
      assert Commanded(inst, before, stored, req, frames.value);
      r := Ok(Played(inst, frames.value));
    }
  }
}
