/**
 * The per-console cache of running games. Each cached cartridge has one
 * instance and the list of users allowed on it (the creator first, invited
 * players after, each user's index being their joypad). Every lookup by a
 * cartridge refreshes its idle clock; a periodic sweep stops and forgets the
 * games idle for longer than the timeout.
 */
module Manager {
  import opened Common
  import opened Instance
  import Database

  /** `INSTANCE_TIMEOUT`, in seconds. */
  const INSTANCE_TIMEOUT: real := 60.0

  /** A cache entry: the cartridge it was created for, its instance and its users. */
  datatype Entry = Entry(cartridge: Database.Cartridge, instance: GameInstance, users: seq<UserId>)

  /** What `get_game_instance` hands back: the instance and the caller's joypad index. */
  datatype Acquired = Acquired(instance: GameInstance, player: nat)

  /** `users.index(u)`: the first position of `u`. */
  function IndexOf(users: seq<UserId>, u: UserId): (i: nat)
    requires u in users
    ensures i < |users| && users[i] == u
    ensures forall j :: 0 <= j < i ==> users[j] != u
  {
    if users[0] == u then 0 else 1 + IndexOf(users[1..], u)
  }

  /** `users.pop(users.index(u))`. */
  function Removed(users: seq<UserId>, u: UserId): seq<UserId>
    requires u in users
  {
    var i := IndexOf(users, u);
    users[..i] + users[i + 1..]
  }

  /** Removing a user from a duplicate-free list drops exactly that user. */
  lemma RemovedDropsOnlyUser(users: seq<UserId>, u: UserId, v: UserId)
    requires u in users && NoDup(users)
    ensures NoDup(Removed(users, u))
    ensures v in Removed(users, u) <==> v in users && v != u
  {
    var i := IndexOf(users, u);
    var r := Removed(users, u);
    assert forall j :: 0 <= j < |r| ==> r[j] == (if j < i then users[j] else users[j + 1]);
    if v in users && v != u {
      var j :| 0 <= j < |users| && users[j] == v;
      assert r[if j < i then j else j - 1] == v;
    }
  }

  /**
   * The first failure `add_user` raises, or None when the user is added, with
   * the capacity compared as evidently intended: an integer number of joypads.
   * `users` is None when the cartridge has no running game.
   */
  function AddUserError(owner: UserId, invitee: UserId, users: Option<seq<UserId>>, capacity: nat): Option<Error>
  {
    if invitee == owner then Some(UserIsCartridgeOwner)
    else if users.None? then Some(GameNotStarted)
    else if |users.value| >= capacity then Some(NotEnoughJoypads)
    else if invitee in users.value then Some(UserAlreadyInvited)
    else None
  }

  /**
   * `add_user` as written: past the first two checks it evaluates
   * `len(users) >= instance.max_players`, where `max_players` is a plain
   * method, so Python raises TypeError comparing an int with a bound method.
   */
  function AddUserErrorAsWritten(owner: UserId, invitee: UserId, users: Option<seq<UserId>>): Option<Error>
  {
    if invitee == owner then Some(UserIsCartridgeOwner)
    else if users.None? then Some(GameNotStarted)
    else Some(TypeError)
  }

  /** As written, no invite ever succeeds. */
  lemma AddUserAsWrittenNeverAdmits(owner: UserId, invitee: UserId, users: Option<seq<UserId>>)
    ensures AddUserErrorAsWritten(owner, invitee, users).Some?
    ensures users.Some? && invitee != owner ==> AddUserErrorAsWritten(owner, invitee, users) == Some(TypeError)
  {
  }

  /** The owner of an NES game inviting a second player: a TypeError as written, admitted as intended. */
  lemma AddUserAsWrittenCounterexample()
    ensures AddUserErrorAsWritten(1, 2, Some([1])) == Some(TypeError)
    ensures AddUserError(1, 2, Some([1]), MaxPlayers(Nes)) == None
  {
  }

  /**
   * An invite is admitted exactly when the invitee is not the owner, the game
   * runs, a joypad is free and the invitee is not already listed; the list
   * then stays duplicate-free and within capacity.
   */
  lemma AddUserAdmits(owner: UserId, invitee: UserId, users: Option<seq<UserId>>, capacity: nat)
    ensures AddUserError(owner, invitee, users, capacity).None? <==>
      invitee != owner && users.Some? && |users.value| < capacity && invitee !in users.value
    ensures AddUserError(owner, invitee, users, capacity).None? && NoDup(users.value) ==>
      NoDup(users.value + [invitee]) && |users.value + [invitee]| <= capacity
  {
    if AddUserError(owner, invitee, users, capacity).None? && NoDup(users.value) {
      var s := users.value + [invitee];
      forall i, j | 0 <= i < j < |s| ensures s[i] != s[j] {
        if j == |s| - 1 {
          assert s[i] == users.value[i];
        }
      }
    }
  }

  /** The first failure `remove_user` raises, or None when the user is removed. */
  function RemoveUserError(owner: UserId, user: UserId, users: Option<seq<UserId>>): (r: Option<Error>)
    ensures r.None? <==> user != owner && users.Some? && user in users.value
  {
    if user == owner then Some(UserIsCartridgeOwner)
    else if users.None? then Some(GameNotStarted)
    else if user !in users.value then Some(UserNotInvited)
    else None
  }

  /** The idle clocks a sweep at `now` keeps: idle for at most the timeout. */
  function Kept(lastUsed: map<int, real>, now: real): map<int, real>
  {
    map k | k in lastUsed && now - lastUsed[k] <= INSTANCE_TIMEOUT :: lastUsed[k]
  }

  /** The cached cartridges a sweep at `now` removes: idle for longer than the timeout. */
  function Expired(lastUsed: map<int, real>, now: real): (r: set<int>)
    ensures r <= lastUsed.Keys
  {
    set k | k in lastUsed && now - lastUsed[k] > INSTANCE_TIMEOUT
  }

  /** A sweep keeps exactly the clocks it does not remove. */
  lemma KeptDropsExpired(lastUsed: map<int, real>, now: real)
    ensures Kept(lastUsed, now) == lastUsed - Expired(lastUsed, now)
  {
  }

  /**
   * A game touched at `t` survives a sweep at `now` exactly when it has been
   * idle for at most the timeout (expiry is strict), and a second sweep at the
   * same time removes nothing more.
   */
  lemma SweepKeepsRecent(lastUsed: map<int, real>, k: int, t: real, now: real)
    ensures k in Kept(lastUsed[k := t], now) <==> now - t <= INSTANCE_TIMEOUT
    ensures Kept(Kept(lastUsed, now), now) == Kept(lastUsed, now)
  {
  }

  /** A later sweep keeps no more games than an earlier one. */
  lemma SweepMonotone(lastUsed: map<int, real>, now: real, later: real)
    requires now <= later
    ensures Kept(lastUsed, later).Keys <= Kept(lastUsed, now).Keys
  {
  }

  /** The cartridges of `order`, in order, whose key is in `keys`. */
  function Surviving(order: seq<int>, keys: set<int>): (r: seq<int>)
    ensures forall k :: k in r <==> k in order && k in keys
    ensures NoDup(order) ==> NoDup(r)
  {
    if order == [] then []
    else
      var rest := Surviving(order[1..], keys);
      assert forall k :: k in order <==> k == order[0] || k in order[1..];
      if order[0] in keys then [order[0]] + rest else rest
  }

  /** Whether the cached cartridge `k` belongs to `user`. */
  predicate Owns(instances: map<int, Entry>, k: int, user: UserId)
  {
    k in instances && instances[k].cartridge.owner == user
  }

  /** The position in `order`, from `from` on, of the first cartridge `user` owns. */
  function FirstOwned(order: seq<int>, instances: map<int, Entry>, user: UserId, from: nat): (r: Option<nat>)
    requires from <= |order|
    ensures r.Some? ==>
      && from <= r.value < |order|
      && Owns(instances, order[r.value], user)
      && forall j :: from <= j < r.value ==> !Owns(instances, order[j], user)
    ensures r.None? ==> forall j :: from <= j < |order| ==> !Owns(instances, order[j], user)
    decreases |order| - from
  {
    if from == |order| then None
    else if Owns(instances, order[from], user) then Some(from)
    else FirstOwned(order, instances, user, from + 1)
  }

  /** No two cached cartridges share an instance. */
  predicate Distinct(instances: map<int, Entry>)
  {
    forall k, k' :: k in instances && k' in instances && k != k' ==> instances[k].instance != instances[k'].instance
  }

  /** A cached entry belongs to its key, to this console and core, and has room for its users. */
  ghost predicate EntryValid(core: Core, k: int, e: Entry)
  {
    && e.cartridge.id == k
    && e.cartridge.console == core.Console()
    && e.instance.core == core
    && e.instance.Valid()
    && NoDup(e.users)
    && |e.users| <= MaxPlayers(core.Console())
  }

  /**
   * The cache's invariant: clocks for exactly the cached cartridges, the
   * insertion order listing each once, valid entries with one instance each.
   */
  ghost predicate Coherent(core: Core, instances: map<int, Entry>, order: seq<int>,
                           lastUsed: map<int, real>, repr: set<GameInstance>)
  {
    && instances.Keys == lastUsed.Keys
    && NoDup(order)
    && (forall k :: k in order <==> k in instances)
    && (forall k :: k in instances ==> instances[k].instance in repr && EntryValid(core, k, instances[k]))
    && Distinct(instances)
  }

  /** Forgetting any set of cartridges, and dropping them from the order, keeps the cache coherent. */
  lemma ForgetKeepsCoherent(core: Core, instances: map<int, Entry>, order: seq<int>,
                            lastUsed: map<int, real>, repr: set<GameInstance>, gone: set<int>)
    requires Coherent(core, instances, order, lastUsed, repr)
    ensures Coherent(core, instances - gone, Surviving(order, (lastUsed - gone).Keys), lastUsed - gone, repr)
  {
    var order' := Surviving(order, (lastUsed - gone).Keys);
    assert forall k :: k in order' <==> k in instances - gone;
  }

  /** Caching a new cartridge at the end of the order, with a new instance, keeps the cache coherent. */
  lemma AddKeepsCoherent(core: Core, instances: map<int, Entry>, order: seq<int>,
                         lastUsed: map<int, real>, repr: set<GameInstance>, e: Entry, t: real)
    requires Coherent(core, instances, order, lastUsed, repr)
    requires e.cartridge.id !in instances && e.instance !in repr && EntryValid(core, e.cartridge.id, e)
    ensures Coherent(core, instances[e.cartridge.id := e], order + [e.cartridge.id],
                     lastUsed[e.cartridge.id := t], repr + {e.instance})
  {
    var k := e.cartridge.id;
    var order' := order + [k];
    forall i, j | 0 <= i < j < |order'| ensures order'[i] != order'[j] {
      if j == |order'| - 1 {
        assert order'[i] == order[i];
      }
    }
  }

  /** Replacing the users of a cached cartridge by a duplicate-free list within capacity keeps the cache coherent. */
  lemma SetUsersKeepsCoherent(core: Core, instances: map<int, Entry>, order: seq<int>,
                              lastUsed: map<int, real>, repr: set<GameInstance>, k: int, users: seq<UserId>)
    requires Coherent(core, instances, order, lastUsed, repr) && k in instances
    requires NoDup(users) && |users| <= MaxPlayers(core.Console())
    ensures Coherent(core, instances[k := instances[k].(users := users)], order, lastUsed, repr)
  {
    var instances' := instances[k := instances[k].(users := users)];
    assert forall k' :: k' in instances' ==> instances'[k'].instance == instances[k'].instance;
  }

  /**
   * The cache after `get_game_instance` for `user` on `cartridge`, from
   * `instances0` and `order0`: a cached cartridge leaves the entries (their
   * players included) and the order as they were; otherwise an entry with
   * `user` as its only player is added at the end of the order.
   */
  ghost predicate Acquisition(instances0: map<int, Entry>, order0: seq<int>, instances: map<int, Entry>, order: seq<int>,
                              cartridge: Database.Cartridge, user: UserId)
  {
    if cartridge.id in instances0 then instances == instances0 && order == order0
    else
      && cartridge.id in instances
      && instances == instances0[cartridge.id := Entry(cartridge, instances[cartridge.id].instance, [user])]
      && order == order0 + [cartridge.id]
  }

  class InstanceManager {
    const core: Core
    const console: Console
    /** `instances`, keyed by cartridge id. */
    var instances: map<int, Entry>
    /** The keys of `instances` in insertion order (the dict's iteration order). */
    var order: seq<int>
    /** `last_used`: when each cached cartridge was last looked up. */
    var lastUsed: map<int, real>
    var shouldStop: bool
    /** The instances this manager has created: a footprint holding every cached one. */
    ghost var Repr: set<GameInstance>

    ghost predicate Valid()
      reads this`instances, this`order, this`lastUsed, this`Repr
    {
      console == core.Console() && Coherent(core, instances, order, lastUsed, Repr)
    }

    constructor (core: Core)
      ensures Valid() && this.core == core && console == core.Console()
      ensures instances == map[] && order == [] && lastUsed == map[] && !shouldStop
    {
      this.core := core;
      console := core.Console();
      instances := map[];
      order := [];
      lastUsed := map[];
      shouldStop := false;
      Repr := {};
    }

    /**
     * `get_game_instance`: refresh the cartridge's idle clock; a cached game
     * admits only its listed users, at their index; otherwise a new instance
     * is created with the caller as its only user, at index 0.
     */
    method GetGameInstance(cartridge: Database.Cartridge, user: UserId, now: real) returns (r: Result<Acquired>)
      requires Valid() && cartridge.console == console
      modifies this`lastUsed, this`instances, this`order, this`Repr
      ensures Valid()
      ensures lastUsed == old(lastUsed)[cartridge.id := now]
      ensures cartridge.id in old(instances) ==>
        var e := old(instances)[cartridge.id];
        && instances == old(instances) && order == old(order)
        && r == if user in e.users then Ok(Acquired(e.instance, IndexOf(e.users, user)))
                else Err(UnauthorizedJoypadAccess)
      ensures cartridge.id !in old(instances) ==>
        && r.Ok? && r.value.player == 0 && fresh(r.value.instance)
        && instances == old(instances)[cartridge.id := Entry(cartridge, r.value.instance, [user])]
        && order == old(order) + [cartridge.id]
        && r.value.instance.state == core.load(cartridge.rom)
        && r.value.instance.bootSnapshot == core.load(cartridge.rom)
        && r.value.instance.history == [] && r.value.instance.inputs == []
        && r.value.instance.controller == 0
      ensures r.Ok? ==>
        && cartridge.id in instances
        && instances[cartridge.id].instance == r.value.instance
        && r.value.player < |instances[cartridge.id].users|
        && instances[cartridge.id].users[r.value.player] == user
    {
      if cartridge.id in instances {
        lastUsed := lastUsed[cartridge.id := now];
        var e := instances[cartridge.id];
        if user in e.users {
          return Ok(Acquired(e.instance, IndexOf(e.users, user)));
        }
        return Err(UnauthorizedJoypadAccess);
      }
      var instance := Create(cartridge, user, now);
      r := Ok(Acquired(instance, 0));
    }

    /**
     * The creation branch of `get_game_instance`: the clock is set and a new
     * instance cached, with `user` its only player.
     */
    method Create(cartridge: Database.Cartridge, user: UserId, now: real) returns (instance: GameInstance)
      requires Valid() && cartridge.console == console && cartridge.id !in instances
      modifies this`lastUsed, this`instances, this`order, this`Repr
      ensures Valid() && fresh(instance)
      ensures lastUsed == old(lastUsed)[cartridge.id := now]
      ensures instances == old(instances)[cartridge.id := Entry(cartridge, instance, [user])]
      ensures order == old(order) + [cartridge.id]
      ensures instance.state == core.load(cartridge.rom) && instance.bootSnapshot == core.load(cartridge.rom)
      ensures instance.history == [] && instance.inputs == [] && instance.controller == 0
    {
      instance := new GameInstance(core, cartridge.rom, cartridge.bootAnimation);
      var e := Entry(cartridge, instance, [user]);
      AddKeepsCoherent(core, instances, order, lastUsed, Repr, e, now);
      instances, order, lastUsed, Repr :=
        instances[cartridge.id := e], order + [cartridge.id], lastUsed[cartridge.id := now], Repr + {instance};
    }

    /**
     * `get_instance_from_user`: the entry of the first cached cartridge, in
     * insertion order, that `user` owns; invited players own nothing here.
     */
    method GetInstanceFromUser(user: UserId) returns (r: Result<Entry>)
      requires Valid()
      ensures r == match FirstOwned(order, instances, user, 0)
        case None => Err(GameNotStarted)
        case Some(i) => Ok(instances[order[i]])
    {
      var i := 0;
      while i < |order|
        invariant 0 <= i <= |order|
        invariant FirstOwned(order, instances, user, 0) == FirstOwned(order, instances, user, i)
      {
        var k := order[i];
        if k in instances && instances[k].cartridge.owner == user {
          return Ok(instances[k]);
        }
        i := i + 1;
      }
      return Err(GameNotStarted);
    }

    /** `add_user`, with the joypad count compared as an integer (see Findings). */
    method AddUser(cartridge: Database.Cartridge, user: UserId) returns (r: Outcome)
      requires Valid()
      modifies this`instances
      ensures Valid()
      ensures var users := if cartridge.id in old(instances) then Some(old(instances)[cartridge.id].users) else None;
        var err := AddUserError(cartridge.owner, user, users, MaxPlayers(console));
        && r == (if err.Some? then Fail(err.value) else Pass)
        && instances == if err.Some? then old(instances)
           else old(instances)[cartridge.id := old(instances)[cartridge.id].(users := users.value + [user])]
    {
      if user == cartridge.owner {
        return Fail(UserIsCartridgeOwner);
      }
      if cartridge.id !in instances {
        return Fail(GameNotStarted);
      }
      var e := instances[cartridge.id];
      if |e.users| >= MaxPlayers(console) {
        return Fail(NotEnoughJoypads);
      }
      if user in e.users {
        return Fail(UserAlreadyInvited);
      }
      AddUserAdmits(cartridge.owner, user, Some(e.users), MaxPlayers(console));
      SetUsersKeepsCoherent(core, instances, order, lastUsed, Repr, cartridge.id, e.users + [user]);
      instances := instances[cartridge.id := e.(users := e.users + [user])];
      r := Pass;
    }

    /** `remove_user`: the owner cannot be removed, only a listed user can. */
    method RemoveUser(cartridge: Database.Cartridge, user: UserId) returns (r: Outcome)
      requires Valid()
      modifies this`instances
      ensures Valid()
      ensures var users := if cartridge.id in old(instances) then Some(old(instances)[cartridge.id].users) else None;
        var err := RemoveUserError(cartridge.owner, user, users);
        && r == (if err.Some? then Fail(err.value) else Pass)
        && instances == if err.Some? then old(instances)
           else old(instances)[cartridge.id := old(instances)[cartridge.id].(users := Removed(users.value, user))]
    {
      if user == cartridge.owner {
        return Fail(UserIsCartridgeOwner);
      }
      if cartridge.id !in instances {
        return Fail(GameNotStarted);
      }
      var e := instances[cartridge.id];
      if user !in e.users {
        return Fail(UserNotInvited);
      }
      RemovedDropsOnlyUser(e.users, user, user);
      SetUsersKeepsCoherent(core, instances, order, lastUsed, Repr, cartridge.id, Removed(e.users, user));
      instances := instances[cartridge.id := e.(users := Removed(e.users, user))];
      r := Pass;
    }

    /** Forget the cached cartridge `k` and stop its instance (one key of `to_remove`). */
    method Forget(k: int)
      requires k in instances && k in lastUsed
      modifies this`instances, this`lastUsed, instances[k].instance`stopped
      ensures instances == old(instances) - {k} && lastUsed == old(lastUsed) - {k}
      ensures old(instances)[k].instance.stopped
    {
      lastUsed := lastUsed - {k};
      var e := instances[k];
      instances := instances - {k};
      e.instance.Stop();
    }

    /**
     * Forget the cartridges of `toRemove`, in order, stopping their instances
     * (and, by its frame, no other); `gone` is the set of them.
     */
    method ForgetAll(toRemove: seq<int>, ghost gone: set<int>)
      requires NoDup(toRemove) && forall k :: k in gone <==> k in toRemove
      requires gone <= instances.Keys && gone <= lastUsed.Keys
      modifies this`instances, this`lastUsed, (set k | k in gone :: instances[k].instance)`stopped
      ensures instances == old(instances) - gone && lastUsed == old(lastUsed) - gone
      ensures forall k :: k in gone ==> old(instances)[k].instance.stopped
    {
      ghost var instances0 := instances;
      ghost var done: set<int> := {};
      var i := 0;
      while i < |toRemove|
        invariant 0 <= i <= |toRemove|
        invariant done == set k | k in toRemove[..i]
        invariant lastUsed == old(lastUsed) - done && instances == instances0 - done
        invariant forall k :: k in done ==> instances0[k].instance.stopped
      {
        var k := toRemove[i];
        assert toRemove[..i + 1] == toRemove[..i] + [k];
        Forget(k);
        done := done + {k};
        i := i + 1;
      }
      assert toRemove[..i] == toRemove;
      assert forall k :: k in done <==> k in gone;
    }

    /**
     * One pass of `cleanup_inactive_instances`: every cartridge idle for more
     * than the timeout is forgotten, in the cache's order, and its instance stopped.
     */
    method Sweep(now: real)
      requires Valid()
      modifies this`instances, this`order, this`lastUsed, Repr`stopped
      ensures Valid()
      ensures lastUsed == Kept(old(lastUsed), now)
      ensures instances.Keys == lastUsed.Keys && forall k :: k in instances ==> instances[k] == old(instances)[k]
      ensures order == Surviving(old(order), lastUsed.Keys)
      ensures forall k :: k in old(instances) && k !in instances ==> old(instances)[k].instance.stopped
      ensures forall k :: k in instances ==> instances[k].instance.stopped == old(instances[k].instance.stopped)
    {
      var expired := Expired(lastUsed, now);
      var toRemove := Surviving(order, expired);
      var instances', order', lastUsed' := instances - expired, Surviving(order, (lastUsed - expired).Keys), lastUsed - expired;
      KeptDropsExpired(lastUsed, now);
      ForgetKeepsCoherent(core, instances, order, lastUsed, Repr, expired);
      assert forall k :: k in expired <==> k in toRemove;
      ForgetAll(toRemove, expired);
      order := order';
    }

    /** `shutdown`: stop the sweeps and every cached instance; the entries stay. */
    method Shutdown()
      requires Valid()
      modifies this`shouldStop, Repr`stopped
      ensures Valid() && shouldStop
      ensures forall k :: k in instances ==> instances[k].instance.stopped
      ensures forall g :: g in Repr && old(g.stopped) ==> g.stopped
    {
      shouldStop := true;
      var i := 0;
      while i < |order|
        invariant 0 <= i <= |order| && Valid() && shouldStop
        invariant forall k :: k in instances && k in order[..i] ==> instances[k].instance.stopped
        invariant forall g :: g in Repr && old(g.stopped) ==> g.stopped
      {
        var k := order[i];
        assert (forall k :: k in order <==> k in instances) && order[i] in order;
        instances[k].instance.Stop();
        assert order[..i + 1] == order[..i] + [k];
        i := i + 1;
      }
      assert order[..|order|] == order;
      assert forall k :: k in order <==> k in instances;
    }
  }
}
