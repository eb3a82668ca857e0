/**
 * The gaming room: the commands a player issues in a chat (`play`, `invite`,
 * `restart`, `save`, `load`, `rewind`), seen through their effect on the
 * per-user session table and on the cartridge's stored `state` and
 * `save_state`. Every command after `play` finds the game through the session
 * table and the owner lookup of the session's instance manager.
 */
module GamingRoom {
  import opened Common
  import opened Instance
  import Database
  import Manager
  import Emulator

  /** `Celebrity.Boomy`. */
  const BOOMY: UserId := 1398806152535474196
  /** `Celebrity.Berry`. */
  const BERRY: UserId := -1
  /** `Celebrity.Jax`: the same value as Berry, which makes it an alias of that member. */
  const JAX: UserId := -1

  /** The console argument of `play`: one of the two console names, or any other string. */
  datatype Choice = Pick(console: Console) | Unknown(name: string)

  /**
   * The refusals `invite` checks, in order, before it reaches any manager:
   * inviting oneself, the bot itself, Boomy, Berry, Jax.
   */
  function InviteRefusal(author: UserId, who: UserId, bot: UserId): (r: Option<Error>)
    ensures r.None? <==> who != author && who != bot && who != BOOMY && who != BERRY
    ensures who == author ==> r == Some(UserIsCartridgeOwner)
    ensures who != author && who == bot ==> r == Some(CafeRefusesInvite)
    ensures r.Some? ==> r.value in {UserIsCartridgeOwner, CafeRefusesInvite, BoomyRefusesInvite, BerryRefusesInvite}
  {
    if who == author then Some(UserIsCartridgeOwner)
    else if who == bot then Some(CafeRefusesInvite)
    else if who == BOOMY then Some(BoomyRefusesInvite)
    else if who == BERRY then Some(BerryRefusesInvite)
    else if who == JAX then Some(JaxRefusesInvite)
    else None
  }

  /** Jax's id equals Berry's, so Berry's refusal always comes first: Jax never refuses. */
  lemma JaxNeverRefuses(author: UserId, who: UserId, bot: UserId)
    ensures InviteRefusal(author, who, bot) != Some(JaxRefusesInvite)
    ensures who == JAX && who != author && who != bot ==> InviteRefusal(author, who, bot) == Some(BerryRefusesInvite)
  {
  }

  /** A second write to a key replaces the first. */
  lemma Overwrite<K, V>(m: map<K, V>, k: K, a: V, b: V)
    ensures m[k := a][k := b] == m[k := b]
  {
  }

  /** The console whose emulator a command on console `c` leaves alone. */
  function Other(c: Console): Console
  {
    if c == GameBoy then Nes else GameBoy
  }

  /** The entry `get_instance_from_user` returns from one manager's cache. */
  function OwnedEntry(instances: map<int, Manager.Entry>, order: seq<int>, user: UserId): Result<Manager.Entry>
  {
    match Manager.FirstOwned(order, instances, user, 0)
    case None => Err(GameNotStarted)
    case Some(i) => Ok(instances[order[i]])
  }

  /** The cartridges a command may write: the found one, if any. */
  function Found(c: Option<Database.Cartridge>): set<Database.Cartridge>
  {
    if c.Some? then {c.value} else {}
  }

  /**
   * The step of `rewind` before the restart: pop the newest history entry
   * into the instance and store the instance's snapshot as the cartridge's
   * state. An empty history refuses and changes nothing.
   */
  method PopState(inst: GameInstance, cartridge: Database.Cartridge) returns (r: Outcome)
    requires inst.Valid()
    modifies inst`state, inst`history, cartridge`state
    ensures old(inst.history) == [] ==>
      r == Fail(NoPreviousState) && inst.history == [] && inst.state == old(inst.state) && cartridge.state == old(cartridge.state)
    ensures old(inst.history) != [] ==>
      var h := old(inst.history);
      && r == Pass
      && inst.history == h[..|h| - 1]
      && inst.state == (if inst.console == GameBoy then StreamOf(h[|h| - 1]) else old(inst.state))
      && cartridge.state == Some(inst.state)
  {
    r := inst.PreviousState();
    if r.Pass? {
      cartridge.state := Some(inst.SaveState());
    }
  }

  /** `GamingRoom`: the two emulators, the bot's own id and the session table. */
  class Room {
    const gameboy: Emulator.ConsoleEmulator
    const nes: Emulator.ConsoleEmulator
    /** `self.bot.user.id`. */
    const bot: UserId
    /**
     * `sessions`, keyed by user id: the console whose emulator the session
     * plays, or None for the placeholder `play` inserts before it starts.
     */
    var sessions: map<UserId, Option<Console>>

    ghost predicate Valid()
      reads this, gameboy.manager, nes.manager
    {
      && gameboy.Valid() && gameboy.console == GameBoy
      && nes.Valid() && nes.console == Nes
      && gameboy.manager != nes.manager
    }

    constructor (gameboyCore: Core, nesCore: Core, bot: UserId)
      requires gameboyCore.GameBoyCore? && nesCore.NesCore?
      ensures Valid() && this.bot == bot && sessions == map[]
      ensures gameboy.manager.instances == map[] && nes.manager.instances == map[]
    {
      gameboy := new Emulator.ConsoleEmulator(gameboyCore);
      nes := new Emulator.ConsoleEmulator(nesCore);
      this.bot := bot;
      sessions := map[];
    }

    /** The emulator of a console. */
    function EmulatorOf(c: Console): (e: Emulator.ConsoleEmulator)
      ensures e == if c == GameBoy then gameboy else nes
    {
      if c == GameBoy then gameboy else nes
    }

    /** Every cartridge cached by either emulator. */
    ghost function Cartridges(): set<Database.Cartridge>
      reads gameboy.manager`instances, nes.manager`instances
    {
      (set k | k in gameboy.manager.instances :: gameboy.manager.instances[k].cartridge)
      + (set k | k in nes.manager.instances :: nes.manager.instances[k].cartridge)
    }

    /**
     * What every command after `play` finds for `user`: GameNotStarted without
     * a session, AttributeError for a placeholder (`None.game_instance_manager`),
     * otherwise the first cached game the user owns in that session's manager.
     */
    ghost function Lookup(user: UserId): Result<Manager.Entry>
      reads this`sessions, gameboy.manager`instances, gameboy.manager`order, nes.manager`instances, nes.manager`order
    {
      if user !in sessions then Err(GameNotStarted)
      else if sessions[user].None? then Err(AttributeError)
      else if sessions[user].value == GameBoy then OwnedEntry(gameboy.manager.instances, gameboy.manager.order, user)
      else OwnedEntry(nes.manager.instances, nes.manager.order, user)
    }

    /** The manager of `user`'s session, if the session has a console: the one a command may change. */
    ghost function SessionManager(user: UserId): set<Manager.InstanceManager>
      reads this`sessions
    {
      if user in sessions && sessions[user].Some? then {EmulatorOf(sessions[user].value).manager} else {}
    }

    /** The instance `Lookup` finds for `user`, if any. */
    ghost function Target(user: UserId): set<GameInstance>
      reads this`sessions, gameboy.manager`instances, gameboy.manager`order, nes.manager`instances, nes.manager`order
    {
      if Lookup(user).Ok? then {Lookup(user).value.instance} else {}
    }

    /** The cartridge `Lookup` finds for `user`, if any. */
    ghost function TargetCartridge(user: UserId): set<Database.Cartridge>
      reads this`sessions, gameboy.manager`instances, gameboy.manager`order, nes.manager`instances, nes.manager`order
    {
      if Lookup(user).Ok? then {Lookup(user).value.cartridge} else {}
    }

    /**
     * The session lookup the commands open with; a found game is the user's
     * own, cached by the emulator of the session's console.
     */
    method Find(user: UserId) returns (r: Result<Manager.Entry>)
      requires Valid()
      ensures r == Lookup(user)
      ensures r.Ok? ==>
        && user in sessions && sessions[user].Some?
        && var e := EmulatorOf(sessions[user].value);
        && r.value.cartridge.owner == user
        && r.value.cartridge.console == e.console
        && r.value.cartridge.id in e.manager.instances
        && e.manager.instances[r.value.cartridge.id] == r.value
        && r.value.instance in e.manager.Repr
        && r.value.instance.Valid() && r.value.instance.console == e.console
      ensures r.Ok? ==> r.value.cartridge in Cartridges()
    {
      if user !in sessions {
        return Err(GameNotStarted);
      }
      if sessions[user].None? {
        return Err(AttributeError);
      }
      var e := EmulatorOf(sessions[user].value);
      r := e.manager.GetInstanceFromUser(user);
      if r.Ok? {
        var i := Manager.FirstOwned(e.manager.order, e.manager.instances, user, 0).value;
        var k := e.manager.order[i];
        assert Manager.EntryValid(e.manager.core, k, e.manager.instances[k]);
      }
    }

    /** `save`: copy the instance's current snapshot into the save slot; `state` is not touched. */
    method Save(user: UserId) returns (r: Outcome)
      requires Valid()
      modifies Cartridges()`saveState
      ensures Valid()
      ensures var l := old(Lookup(user));
        && (l.Err? ==> r == Fail(l.error))
        && (l.Ok? ==>
              && r == Pass
              && l.value.cartridge.saveState == Some(l.value.instance.state)
              && l.value.cartridge.state == old(l.value.cartridge.state))
      ensures var l := old(Lookup(user));
        forall cart :: cart in old(Cartridges()) && (l.Err? || cart != l.value.cartridge) ==> cart.saveState == old(cart.saveState)
    {
      var found := Find(user);
      if found.Err? {
        return Fail(found.error);
      }
      var cartridge := found.value.cartridge;
      cartridge.saveState := Some(found.value.instance.SaveState());
      r := Pass;
    }

    /**
     * `invite`: after the session check and the refusals, the user's own game
     * admits `who` under `add_user`'s checks.
     */
    method Invite(user: UserId, who: UserId) returns (r: Outcome)
      requires Valid()
      modifies gameboy.manager`instances, nes.manager`instances
      ensures Valid()
      ensures user !in old(sessions) ==> r == Fail(GameNotStarted)
      ensures user in old(sessions) && InviteRefusal(user, who, bot).Some? ==> r == Fail(InviteRefusal(user, who, bot).value)
      ensures r.Fail? ==>
        gameboy.manager.instances == old(gameboy.manager.instances) && nes.manager.instances == old(nes.manager.instances)
      ensures user !in sessions || sessions[user] != Some(GameBoy) ==> gameboy.manager.instances == old(gameboy.manager.instances)
      ensures user !in sessions || sessions[user] != Some(Nes) ==> nes.manager.instances == old(nes.manager.instances)
      ensures var l := old(Lookup(user));
        user in old(sessions) && InviteRefusal(user, who, bot).None? ==>
          && (l.Err? ==> r == Fail(l.error))
          && (l.Ok? ==>
                var m := EmulatorOf(sessions[user].value).manager;
                var err := Manager.AddUserError(user, who, Some(l.value.users), MaxPlayers(m.console));
                && r == (if err.Some? then Fail(err.value) else Pass)
                && (err.None? ==>
                      m.instances == old(m.instances)[l.value.cartridge.id := l.value.(users := l.value.users + [who])]))
    {
      if user !in sessions {
        return Fail(GameNotStarted);
      }
      var refusal := InviteRefusal(user, who, bot);
      if refusal.Some? {
        return Fail(refusal.value);
      }
      var found := Find(user);
      if found.Err? {
        return Fail(found.error);
      }
      var e := EmulatorOf(sessions[user].value);
      r := e.manager.AddUser(found.value.cartridge, who);
    }

    /**
     * `__start_game`: start `cartridge` on the emulator of console `c` for
     * its owner `user`; on success the frame shows the cached instance, and
     * a Game Boy instance runs from the cartridge's stored state.
     */
    method StartGame(c: Console, cartridge: Database.Cartridge, user: Database.User, now: real)
      returns (r: Result<Emulator.Shown>)
      requires Valid() && cartridge.console == c && cartridge.owner == user.id
      modifies EmulatorOf(c).manager`lastUsed, EmulatorOf(c).manager`instances, EmulatorOf(c).manager`order
      modifies EmulatorOf(c).manager`Repr, EmulatorOf(c).Claimed(cartridge, user.id)`state
      ensures Valid()
      ensures var m := EmulatorOf(c).manager;
        r == Err(UnauthorizedJoypadAccess) <==> cartridge.id in old(m.instances) && user.id !in old(m.instances)[cartridge.id].users
      ensures var m := EmulatorOf(c).manager;
        && m.lastUsed == old(m.lastUsed)[cartridge.id := now]
        && Manager.Acquisition(old(m.instances), old(m.order), m.instances, m.order, cartridge, user.id)
        && (cartridge.id !in old(m.instances) ==> fresh(m.instances[cartridge.id].instance))
      ensures unchanged(EmulatorOf(Other(c)).manager)
      ensures forall g :: g in old(gameboy.manager.Repr + nes.manager.Repr) - old(EmulatorOf(c).Claimed(cartridge, user.id)) ==>
        g.state == old(g.state)
      ensures var m := EmulatorOf(c).manager;
        r.Ok? ==>
          && cartridge.id in m.instances && m.instances[cartridge.id].instance == r.value.instance
          && (cartridge.id in old(m.instances) ==> r.value.instance == old(m.instances)[cartridge.id].instance)
          && r.value.frame != Blank
          && (c == GameBoy ==> r.value.instance.state == Emulator.Resumed(r.value.instance.bootSnapshot, cartridge.state))
    {
      var e := EmulatorOf(c);
      r := e.Start(cartridge, user.id, user, now);
    }

    /** The manager `play` starts a game on: the chosen console's, once a cartridge is found. */
    ghost function Launching(choice: Choice, found: Option<Database.Cartridge>): set<Manager.InstanceManager>
    {
      if choice.Pick? && found.Some? then {EmulatorOf(choice.console).manager} else {}
    }

    /** The cached instance `play` may resume: the one `start` hands to the user. */
    ghost function LaunchingInstance(choice: Choice, found: Option<Database.Cartridge>, user: UserId): set<GameInstance>
      reads gameboy.manager, nes.manager
    {
      if choice.Pick? && found.Some? then EmulatorOf(choice.console).Claimed(found.value, user) else {}
    }

    /**
     * `play`: make sure the user has a session (a placeholder until the game
     * starts), fetch the cartridge for the chosen console (`found`, None when
     * the user has no such game), start it, and on success record the
     * console in the session. The NES path then clears both stored states.
     * Nothing outside the frame changes: not the other console's manager,
     * not another instance, not another cartridge.
     */
    method Play(user: Database.User, choice: Choice, found: Option<Database.Cartridge>, now: real)
      returns (r: Result<Emulator.Shown>)
      requires Valid()
      requires choice.Pick? && found.Some? ==> found.value.owner == user.id && found.value.console == choice.console
      modifies this`sessions
      modifies Launching(choice, found)`lastUsed, Launching(choice, found)`instances
      modifies Launching(choice, found)`order, Launching(choice, found)`Repr
      modifies LaunchingInstance(choice, found, user.id)`state, Found(found)`state, Found(found)`saveState
      ensures Valid()
      ensures r.Ok? ==> choice.Pick? && sessions == old(sessions)[user.id := Some(choice.console)]
      ensures r.Err? ==> sessions == if user.id in old(sessions) then old(sessions) else old(sessions)[user.id := None]
      ensures choice.Unknown? ==> r == Err(ConsoleNotValid)
      ensures choice.Pick? && found.None? ==> r == Err(GameDoesNotExist)
      ensures choice.Pick? && found.Some? ==>
        var c := found.value;
        var m := EmulatorOf(choice.console).manager;
        && (r == Err(UnauthorizedJoypadAccess) <==> c.id in old(m.instances) && user.id !in old(m.instances)[c.id].users)
        && (r.Ok? ==>
              && c.id in m.instances && m.instances[c.id].instance == r.value.instance
              && r.value.frame != Blank)
        && (choice.console == Nes && r.Ok? ==> c.state == None && c.saveState == None)
        && (choice.console == GameBoy || r.Err? ==> c.state == old(c.state) && c.saveState == old(c.saveState))
        && m.lastUsed == old(m.lastUsed)[c.id := now]
        && Manager.Acquisition(old(m.instances), old(m.order), m.instances, m.order, c, user.id)
    {
      if user.id !in sessions {
        sessions := sessions[user.id := None];
      }
      if choice.Unknown? {
        return Err(ConsoleNotValid);
      }
      if found.None? {
        return Err(GameDoesNotExist);
      }
      r := Launch(choice.console, found.value, user, now);
      if r.Err? {
        return;
      }
      Overwrite(old(sessions), user.id, None, Some(choice.console));
      sessions := sessions[user.id := Some(choice.console)];
    }

    /**
     * The part of `play` after the cartridge is found: start it on the
     * emulator of console `c`; a started NES game then clears both of the
     * cartridge's stored states.
     */
    method Launch(c: Console, cartridge: Database.Cartridge, user: Database.User, now: real)
      returns (r: Result<Emulator.Shown>)
      requires Valid() && cartridge.console == c && cartridge.owner == user.id
      modifies EmulatorOf(c).manager`lastUsed, EmulatorOf(c).manager`instances, EmulatorOf(c).manager`order
      modifies EmulatorOf(c).manager`Repr, EmulatorOf(c).Claimed(cartridge, user.id)`state
      modifies cartridge`state, cartridge`saveState
      ensures Valid()
      ensures var m := EmulatorOf(c).manager;
        && (r == Err(UnauthorizedJoypadAccess) <==> cartridge.id in old(m.instances) && user.id !in old(m.instances)[cartridge.id].users)
        && (r.Ok? ==>
              && cartridge.id in m.instances && m.instances[cartridge.id].instance == r.value.instance
              && r.value.frame != Blank)
        && (c == Nes && r.Ok? ==> cartridge.state == None && cartridge.saveState == None)
        && (c == GameBoy || r.Err? ==> cartridge.state == old(cartridge.state) && cartridge.saveState == old(cartridge.saveState))
        && m.lastUsed == old(m.lastUsed)[cartridge.id := now]
        && Manager.Acquisition(old(m.instances), old(m.order), m.instances, m.order, cartridge, user.id)
    {
      r := StartGame(c, cartridge, user, now);
      if r.Ok? && c == Nes {
        cartridge.state := None;
        cartridge.saveState := None;
      }
    }

    /**
     * The tail `restart` and `load` share, once the user's game `e` is found
     * on the emulator of console `c`: store `stored` as the cartridge's state
     * and start the game again. The game is cached, so the cache and its order
     * stay as they were and only its idle clock is refreshed.
     */
    method Relaunch(c: Console, e: Manager.Entry, user: Database.User, stored: Option<Snapshot>, now: real)
      returns (r: Result<Emulator.Shown>)
      requires Valid()
      requires e.cartridge.console == c && e.cartridge.owner == user.id
      requires e.instance.Valid() && e.instance.console == c && e.instance in EmulatorOf(c).manager.Repr
      requires e.cartridge.id in EmulatorOf(c).manager.instances && EmulatorOf(c).manager.instances[e.cartridge.id] == e
      modifies EmulatorOf(c).manager`lastUsed, EmulatorOf(c).manager`instances, EmulatorOf(c).manager`order
      modifies EmulatorOf(c).manager`Repr, e.instance`state, e.cartridge`state
      ensures Valid()
      ensures e.cartridge.state == stored
      ensures var m := EmulatorOf(c).manager;
        && m.instances == old(m.instances) && m.order == old(m.order)
        && m.lastUsed == old(m.lastUsed)[e.cartridge.id := now]
      ensures r == Err(UnauthorizedJoypadAccess) <==> user.id !in e.users
      ensures r.Ok? ==> r.value.instance == e.instance && r.value.frame != Blank
      ensures r.Ok? && c == GameBoy ==> e.instance.state == Emulator.Resumed(e.instance.bootSnapshot, stored)
    {
      e.cartridge.state := stored;
      r := StartGame(c, e.cartridge, user, now);
    }

    /**
     * `restart`: reload the boot snapshot into the user's instance, store its
     * snapshot as the cartridge's state and start the game again. Only the
     * found game, its cartridge's state and its manager's clock change; the
     * next command finds the same game.
     */
    method Restart(user: Database.User, now: real) returns (r: Result<Emulator.Shown>)
      requires Valid()
      modifies SessionManager(user.id)`lastUsed, SessionManager(user.id)`instances
      modifies SessionManager(user.id)`order, SessionManager(user.id)`Repr
      modifies Target(user.id)`state, TargetCartridge(user.id)`state
      ensures Valid()
      ensures var l := old(Lookup(user.id));
        && (l.Err? ==> r == Err(l.error))
        && (l.Ok? ==>
              var inst := l.value.instance;
              && l.value.cartridge.state == Some(if inst.console == GameBoy then inst.bootSnapshot else old(inst.state))
              && (r.Ok? ==> r.value.instance == inst && r.value.frame != Blank)
              && (r.Ok? && inst.console == GameBoy ==> inst.state == inst.bootSnapshot))
      ensures Lookup(user.id) == old(Lookup(user.id))
      ensures gameboy.manager.instances == old(gameboy.manager.instances) && gameboy.manager.order == old(gameboy.manager.order)
      ensures nes.manager.instances == old(nes.manager.instances) && nes.manager.order == old(nes.manager.order)
      ensures var l := old(Lookup(user.id));
        l.Ok? ==> var m := EmulatorOf(l.value.cartridge.console).manager; m.lastUsed == old(m.lastUsed)[l.value.cartridge.id := now]
    {
      var found := Find(user.id);
      if found.Err? {
        return Err(found.error);
      }
      var inst := found.value.instance;
      inst.Restart();
      r := Relaunch(sessions[user.id].value, found.value, user, Some(inst.SaveState()), now);
    }

    /**
     * `load`: refuse without a save slot; otherwise copy the save slot into
     * the cartridge's state and start the game from it. Only the found game,
     * its cartridge's state and its manager's clock change; the next command
     * finds the same game.
     */
    method Load(user: Database.User, now: real) returns (r: Result<Emulator.Shown>)
      requires Valid()
      modifies SessionManager(user.id)`lastUsed, SessionManager(user.id)`instances
      modifies SessionManager(user.id)`order, SessionManager(user.id)`Repr
      modifies Target(user.id)`state, TargetCartridge(user.id)`state
      ensures Valid()
      ensures var l := old(Lookup(user.id));
        && (l.Err? ==> r == Err(l.error))
        && (l.Ok? && old(l.value.cartridge.saveState).None? ==>
              r == Err(NoSaveState) && l.value.cartridge.state == old(l.value.cartridge.state))
        && (l.Ok? && old(l.value.cartridge.saveState).Some? ==>
              var inst := l.value.instance;
              && l.value.cartridge.state == old(l.value.cartridge.saveState)
              && (r.Ok? ==> r.value.instance == inst && r.value.frame != Blank)
              && (r.Ok? && inst.console == GameBoy ==>
                    inst.state == Emulator.Resumed(inst.bootSnapshot, old(l.value.cartridge.saveState))))
      ensures Lookup(user.id) == old(Lookup(user.id))
      ensures gameboy.manager.instances == old(gameboy.manager.instances) && gameboy.manager.order == old(gameboy.manager.order)
      ensures nes.manager.instances == old(nes.manager.instances) && nes.manager.order == old(nes.manager.order)
      ensures var l := old(Lookup(user.id));
        l.Ok? ==> var m := EmulatorOf(l.value.cartridge.console).manager;
          m.lastUsed == if old(l.value.cartridge.saveState).Some? then old(m.lastUsed)[l.value.cartridge.id := now]
                        else old(m.lastUsed)
    {
      var found := Find(user.id);
      if found.Err? {
        return Err(found.error);
      }
      var cartridge := found.value.cartridge;
      if cartridge.saveState.None? {
        return Err(NoSaveState);
      }
      r := Relaunch(sessions[user.id].value, found.value, user, cartridge.saveState, now);
    }

    /**
     * `rewind` once the user's game `e` is found on the emulator of console
     * `c`: pop the newest history entry into the instance, store its snapshot
     * as the cartridge's state and start the game again.
     */
    method RewindEntry(c: Console, e: Manager.Entry, user: Database.User, now: real) returns (r: Result<Emulator.Shown>)
      requires Valid()
      requires e.cartridge.console == c && e.cartridge.owner == user.id
      requires e.instance.Valid() && e.instance.console == c && e.instance in EmulatorOf(c).manager.Repr
      requires e.cartridge.id in EmulatorOf(c).manager.instances && EmulatorOf(c).manager.instances[e.cartridge.id] == e
      modifies EmulatorOf(c).manager`lastUsed, EmulatorOf(c).manager`instances, EmulatorOf(c).manager`order
      modifies EmulatorOf(c).manager`Repr, e.instance`state, e.instance`history, e.cartridge`state
      ensures Valid()
      ensures var inst, h := e.instance, old(e.instance.history);
        && (h == [] ==>
              && r == Err(NoPreviousState)
              && inst.history == []
              && e.cartridge.state == old(e.cartridge.state))
        && (h != [] ==>
              var top := StreamOf(h[|h| - 1]);
              && inst.history == h[..|h| - 1]
              && e.cartridge.state == Some(if c == GameBoy then top else old(inst.state))
              && (r.Ok? ==> r.value.instance == inst && r.value.frame != Blank)
              && (r.Ok? && c == GameBoy ==> inst.state == Emulator.Resumed(inst.bootSnapshot, Some(top))))
      ensures var m := EmulatorOf(c).manager;
        && m.instances == old(m.instances) && m.order == old(m.order)
        && m.lastUsed == if old(e.instance.history) != [] then old(m.lastUsed)[e.cartridge.id := now] else old(m.lastUsed)
    {
      var popped := PopState(e.instance, e.cartridge);
      if popped.Fail? {
        return Err(popped.error);
      }
      r := StartGame(c, e.cartridge, user, now);
    }

    /**
     * `rewind`: pop the newest history entry into the user's instance, store
     * its snapshot as the cartridge's state and start the game again. Only the
     * found game, its cartridge's state and its manager's clock change; the
     * next command finds the same game.
     */
    method Rewind(user: Database.User, now: real) returns (r: Result<Emulator.Shown>)
      requires Valid()
      modifies SessionManager(user.id)`lastUsed, SessionManager(user.id)`instances
      modifies SessionManager(user.id)`order, SessionManager(user.id)`Repr
      modifies Target(user.id)`state, Target(user.id)`history, TargetCartridge(user.id)`state
      ensures Valid()
      ensures var l := old(Lookup(user.id));
        && (l.Err? ==> r == Err(l.error))
        && (l.Ok? && old(l.value.instance.history) == [] ==>
              && r == Err(NoPreviousState)
              && l.value.instance.history == []
              && l.value.cartridge.state == old(l.value.cartridge.state))
        && (l.Ok? && old(l.value.instance.history) != [] ==>
              var inst := l.value.instance;
              var h := old(inst.history);
              var top := StreamOf(h[|h| - 1]);
              && inst.history == h[..|h| - 1]
              && l.value.cartridge.state == Some(if inst.console == GameBoy then top else old(inst.state))
              && (r.Ok? ==> r.value.instance == inst && r.value.frame != Blank)
              && (r.Ok? && inst.console == GameBoy ==> inst.state == Emulator.Resumed(inst.bootSnapshot, Some(top))))
      ensures Lookup(user.id) == old(Lookup(user.id))
      ensures gameboy.manager.instances == old(gameboy.manager.instances) && gameboy.manager.order == old(gameboy.manager.order)
      ensures nes.manager.instances == old(nes.manager.instances) && nes.manager.order == old(nes.manager.order)
      ensures var l := old(Lookup(user.id));
        l.Ok? ==> var m := EmulatorOf(l.value.cartridge.console).manager;
          m.lastUsed == if old(l.value.instance.history) != [] then old(m.lastUsed)[l.value.cartridge.id := now]
                        else old(m.lastUsed)
    {
      var found := Find(user.id);
      if found.Err? {
        return Err(found.error);
      }
      r := RewindEntry(sessions[user.id].value, found.value, user, now);
    }

    /** `cog_unload`: shut both instance managers down. */
    method Unload()
      requires Valid()
      modifies gameboy.manager`shouldStop, gameboy.manager.Repr`stopped
      modifies nes.manager`shouldStop, nes.manager.Repr`stopped
      ensures Valid()
      ensures gameboy.manager.shouldStop && nes.manager.shouldStop
      ensures forall k :: k in gameboy.manager.instances ==> gameboy.manager.instances[k].instance.stopped
      ensures forall k :: k in nes.manager.instances ==> nes.manager.instances[k].instance.stopped
    {
      gameboy.manager.Shutdown();
      nes.manager.Shutdown();
    }
  }
}
