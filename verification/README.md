# Boomy game engine in Dafny

This project models the core of Boomy's Game Café. That core is the engine
that runs Game Boy and NES games inside a chat bot.

- **Game instance.** An emulation core with a boot snapshot and a rewind
  history of at most ten states. The Game Boy instance keeps a list of held
  button events. The NES instance keeps a 16-bit controller word: player 1
  in the low byte, player 2 in the high byte.
- **Instance manager.** One per console. It caches one instance per
  cartridge, lists the users allowed to press its buttons, keeps an idle
  clock per cartridge, and sweeps out instances idle for longer than 60
  seconds.
- **Emulators.** `start` acquires the instance, resumes the cartridge's
  stored state and captures a frame. `input` acquires, resumes, pushes the
  stored state on the history, runs a command (`frame N` or a button name)
  and writes the new state and play time back to the cartridge.
- **Gaming room.** The chat commands `play`, `invite`, `restart`, `save`,
  `load` and `rewind`, and what they do to the per-user session table and
  to the cartridge's `state` and `save_state`.
- **Translation manager.** The lookup logic over already-loaded language
  dictionaries: deep merge, dotted lookup, random numbered variants, plural
  keys and fallback to the default language.
- **Statistics column.** How the collectibles list is stored as JSON strings
  and read back.

## Form of the model

- Each source component is one module.
- Objects whose fields the source updates in place are classes with
  `modifies` clauses: `Instance.GameInstance`, `Manager.InstanceManager`,
  `Emulator.ConsoleEmulator`, `GamingRoom.Room` and `Database.Cartridge`.
  Their methods are proved against specification functions: `History.Pushed`,
  `Instance.Play`, `Manager.Kept`, `Manager.FirstOwned`, `Translation.Merged`
  and `Translation.Nested`.
- The pure helpers (button parsing, the NES bit masks, the boot animation,
  translation and statistics) are functions with lemmas.
- The emulation cores (PyBoy and cynes) are function-valued fields of
  `Instance.Core`. A machine state is identified with its serialized
  snapshot.
- Game Boy and NES instances share one class. The core's constructor picks
  the console.
- The manager's `instances` and `last_used` are keyed by the cartridge's
  id. The source keys them by the Cartridge object itself, with identity
  hashing. The two agree because the database module keeps one session
  (Vault/vault/database/cartridge_database.py:15-16). That session's
  identity map returns one object per row, so one cartridge id means one
  object.
- A command's `modifies` clause names exactly what it may change. The sets
  are computed before the call: the session's manager
  (`GamingRoom.Room.SessionManager`), the instance and cartridge the lookup
  finds (`Target`, `TargetCartridge`), and the instance an acquisition admits
  (`Emulator.ConsoleEmulator.Claimed`). Everything outside the frame is
  unchanged after the call, for every caller: the other console's manager,
  the other cached instances and the other cartridges.

## Notes on the code

- `INSTANCE_TIMEOUT` is `1 * 60` seconds, although its comment says "10
  minutes" (Cafe/emulator/game/base_game_instance_manager.py:19). The model
  uses 60 seconds.
- The code takes no locks. `get_game_instance` contains no `await`, so on the
  bot's single event loop it runs atomically; the model treats every
  operation as one sequential step.
- `get_instance_from_user` finds only the cartridges the user owns
  (Cafe/emulator/game/base_game_instance_manager.py:58). An invited player's
  `restart`, `save`, `load`, `rewind` and `invite` therefore fail with
  GameNotStarted.

## Model

| member | source | states |
|---|---|---|
| History.Pushed | Cafe/emulator/game/base_game_instance.py:43-47 | A push onto a bounded history grows it by one until ten entries, then keeps its length; it never grows by more than one |
| History.PushedAll | Cafe/emulator/game/base_game_instance.py:43-47 | The history after a sequence of pushes, one push at a time; PushedAllKeepsNewest states what it keeps |
| History.PushStaysBounded | Cafe/emulator/game/base_game_instance.py:43-47 | A push never takes the history past ten entries, and the pushed state is the last entry |
| History.PushThenPop | Cafe/emulator/game/base_game_instance.py:40-47 | Below the limit, popping after a push gives back the old history and the pushed state |
| History.PushedAllKeepsNewest | Cafe/emulator/game/base_game_instance.py:43-47 | After any sequence of pushes the history is the newest min(n, 10) entries of the old history followed by the pushes, in push order |
| History.NewestFromEmpty | Cafe/emulator/game/base_game_instance.py:43-47 | From an empty history, N pushes leave exactly the last min(N, 10) pushed states in push order |
| Instance.MaxPlayers | Cafe/emulator/game/gameboy_game_instance.py:91-92 | The Game Boy has one joypad and the NES two (nes_game_instance.py:29-30) |
| Instance.Play | Cafe/emulator/game/gameboy_game_instance.py:145-147 | The input loop captures exactly one frame per rendered step |
| Instance.AfterShift | Cafe/emulator/game/gameboy_game_instance.py:145-146 | One step followed by n steps is n + 1 steps |
| Instance.GameBoyStart | Cafe/emulator/game/gameboy_game_instance.py:121-143 | Where a Game Boy command's rendered steps start: after the 127 unrendered boot ticks when PC is 0, then after the toggled event is sent |
| Instance.PlayAt | Cafe/emulator/game/gameboy_game_instance.py:145-149 | The loop ends in the state after `duration` steps, and its i-th frame is the screen after i + 1 steps |
| Instance.GameInstance.constructor | Cafe/emulator/game/gameboy_game_instance.py:16-40 | A new instance holds the loaded ROM as both its state and its boot snapshot, the boot animation built from its GIF (Game Boy only), an empty history, no held buttons and a zero controller word |
| Instance.GameInstance.LoadState | Cafe/emulator/game/nes_game_instance.py:43-46 | The Game Boy loads the given bytes (None reads as empty); the NES ignores the call and keeps its state |
| Instance.GameInstance.Restart | Cafe/emulator/game/gameboy_game_instance.py:94-95 | The Game Boy returns to its boot snapshot; the NES restart changes nothing, because its loading is disabled |
| Instance.GameInstance.Resume | Cafe/emulator/gameboy_emulator.py:60-64 | A Game Boy resumes the stored state when it is non-empty and otherwise restarts; the NES state is unchanged |
| Instance.GameInstance.Screenshot | Cafe/emulator/game/nes_game_instance.py:48-49 | The Game Boy capture reads the screen without changing the state; the NES capture steps the core one frame first |
| Instance.GameInstance.Stop | Cafe/emulator/game/gameboy_game_instance.py:97-101 | After `stop` the instance is released |
| Instance.GameInstance.SaveStateToHistory | Cafe/emulator/game/base_game_instance.py:43-47 | The new history is the pushed history of the old one |
| Instance.GameInstance.PreviousState | Cafe/emulator/game/base_game_instance.py:36-41 | On an empty history it fails with NoPreviousState and changes nothing; otherwise it drops exactly the last entry, keeps the rest, and loads that entry (the NES ignores the load) |
| Instance.GameInstance.RunFrames | Cafe/emulator/game/nes_game_instance.py:59-63 | The frames and the final state are the ones the specification of the input loop gives for the current controller word |
| Instance.GameInstance.GameBoyInput | Cafe/emulator/game/gameboy_game_instance.py:116-149 | From the boot entry point the boot animation comes first and 127 frames run unrendered; a button toggles the held events and sends the toggled event to the core; the rendered frames follow |
| Instance.GameInstance.NesInput | Cafe/emulator/game/nes_game_instance.py:51-63 | A button is XOR-ed into the controller word, then the loop runs with the new word |
| BootAnimation.Repeat | Cafe/emulator/game/gameboy_game_instance.py:70 | `s * n` has n times the length of `s` |
| BootAnimation.Take | Cafe/emulator/game/gameboy_game_instance.py:79 | `s[:n]` has length min(\|s\|, n) and keeps the first elements |
| BootAnimation.Stretch | Cafe/emulator/game/gameboy_game_instance.py:73-76 | Each frame repeated 12 times gives 12 times as many frames |
| BootAnimation.RepeatAt | Cafe/emulator/game/gameboy_game_instance.py:69-70 | Element j of a tiled list is element j mod \|s\| of the original |
| BootAnimation.StretchAt | Cafe/emulator/game/gameboy_game_instance.py:73-76 | Frame i of the stretched list is original frame i / 12 |
| BootAnimation.Tile | Cafe/emulator/game/gameboy_game_instance.py:64-70 | A GIF with fewer than 11 frames is tiled and cut to 11 frames, a longer one is kept; TileAt states the result frame by frame |
| BootAnimation.TileAt | Cafe/emulator/game/gameboy_game_instance.py:68-70 | The tiled list has at least 11 frames, and frame j of it is GIF frame j mod \|gif\| |
| BootAnimation.Animation | Cafe/emulator/game/gameboy_game_instance.py:42-84 | The boot animation: tiled, stretched twelvefold and cut to 127 frames, or none without a decoded GIF; AnimationShape states its length and frames |
| BootAnimation.AnimationShape | Cafe/emulator/game/gameboy_game_instance.py:42-84 | A decoded GIF always yields exactly 127 boot frames, frame i being GIF frame (i / 12) mod \|gif\|; a missing or undecodable GIF yields none |
| Joypad.KeyNamed | Cafe/emulator/gameboy_emulator.py:88-103 | A recognised word is the command word of its button; an unrecognised one names no button |
| Joypad.Parse | Cafe/emulator/gameboy_emulator.py:68-103 | After lower-casing, `frame 1/10/30/60` run 1, 10, 30 or 60 frames with no button; a button word presses that button for one frame; a non-string argument is one frame without a button; exactly the other strings are kept raw, lower-cased, for one frame |
| Joypad.ParseIgnoresCase | Cafe/emulator/gameboy_emulator.py:70-71 | A command and its lower-cased form mean the same |
| Joypad.ParseName | Cafe/emulator/nes_emulator.py:75-90 | Each button's command word presses that button for one frame |
| GameBoyButtons.RemoveFirst | Cafe/emulator/game/gameboy_game_instance.py:131-132 | `list.remove` drops one occurrence: one element shorter, nothing new, every other element kept, and a duplicate-free list loses the element entirely |
| GameBoyButtons.Toggle | Cafe/emulator/game/gameboy_game_instance.py:130-143 | The event sent is for the pressed button and is the newest held event |
| GameBoyButtons.InOthers | Cafe/emulator/game/gameboy_game_instance.py:130-141 | The events of other buttons are exactly the held events whose button differs |
| GameBoyButtons.OthersAppend | Cafe/emulator/game/gameboy_game_instance.py:133 | Filtering out one button's events distributes over concatenation |
| GameBoyButtons.OthersRemoveFirst | Cafe/emulator/game/gameboy_game_instance.py:131-132 | Removing a button's event leaves the other buttons' events unchanged |
| GameBoyButtons.ToggleKeepsConsistent | Cafe/emulator/game/gameboy_game_instance.py:130-141 | Toggling keeps at most one event per button in the held list |
| GameBoyButtons.ToggleFlips | Cafe/emulator/game/gameboy_game_instance.py:130-141 | A press turns a released button held and a held one released, and sends the matching press or release event |
| GameBoyButtons.ToggleLeavesOthers | Cafe/emulator/game/gameboy_game_instance.py:130-141 | Toggling a button leaves every other button's events, in order, unchanged |
| GameBoyButtons.ToggleTwice | Cafe/emulator/game/gameboy_game_instance.py:130-141 | Pressing a button twice restores whether it is held |
| GameBoyButtons.UpThenDownHoldsBoth | Cafe/emulator/game/gameboy_game_instance.py:130-141 | Pressing up and then down holds both: the toggles of different buttons are independent |
| NesButtons.PlayerButton | Cafe/emulator/nes_emulator.py:92-94 | Player 1's button lies in the high byte with the low byte clear; the owner's lies in the low byte with the high byte clear |
| NesButtons.Mask | Cafe/emulator/nes_emulator.py:119-129 | The controller bit of each button in a player's byte; MasksDisjoint proves them single and distinct |
| NesButtons.MasksDisjoint | Cafe/emulator/nes_emulator.py:119-129 | Each button mask is a single bit, and different buttons have disjoint masks |
| NesButtons.PressTwice | Cafe/emulator/game/nes_game_instance.py:56-57 | XOR-ing the same button twice restores the controller word |
| NesButtons.Pressed | Cafe/emulator/game/nes_game_instance.py:56-57 | A press XORs the button into the controller word; PressTwice proves two presses cancel |
| NesButtons.Player1State | Cafe/emulator/nes_emulator.py:132-133 | The HUD's low byte of the controller word, player 1's buttons; OwnerPressTogglesOneLight states how a press changes it |
| NesButtons.Player2State | Cafe/emulator/nes_emulator.py:132-134 | The HUD's high byte of the controller word, player 2's buttons; GuestPressTogglesOneLight states how a press changes it |
| NesButtons.OwnerPressTogglesOneLight | Cafe/emulator/nes_emulator.py:131-134 | An owner's press flips exactly that button in player 1's byte and leaves player 2's byte alone |
| NesButtons.GuestPressTogglesOneLight | Cafe/emulator/nes_emulator.py:131-134 | A guest's press flips exactly that button in player 2's byte and leaves player 1's byte alone |
| Database.Cartridge.constructor | Vault/vault/data/database/cartridge.py:24-38 | A new cartridge has its identity, ROM and assets, no state, no save state and zero play time |
| Manager.IndexOf | Cafe/emulator/game/gameboy_game_instance_manager.py:25 | `users.index(u)` is the first position holding u |
| Manager.RemovedDropsOnlyUser | Cafe/emulator/game/base_game_instance_manager.py:93 | Removing a user from a duplicate-free list drops exactly that user and keeps the list duplicate-free |
| Manager.AddUserErrorAsWritten | Cafe/emulator/game/base_game_instance_manager.py:64-79 | The checks of `add_user` as written: owner, not started, then TypeError from the capacity comparison; AddUserAsWrittenNeverAdmits states the consequence |
| Manager.AddUserError | Cafe/emulator/game/base_game_instance_manager.py:64-79 | The checks of `add_user` with the capacity compared as an integer, first failing check first; AddUserAdmits characterises success |
| Manager.AddUserAsWrittenNeverAdmits | Cafe/emulator/game/base_game_instance_manager.py:64-79 | As written, every invite of someone other than the owner to a running game raises TypeError, so no invite ever succeeds |
| Manager.AddUserAsWrittenCounterexample | Cafe/emulator/game/base_game_instance_manager.py:73 | An NES owner inviting a second player raises TypeError as written, and is admitted with the capacity compared as an integer |
| Manager.AddUserAdmits | Cafe/emulator/game/base_game_instance_manager.py:64-79 | An invite succeeds exactly when the invitee is not the owner, the game runs, a joypad is free and the invitee is not listed yet; the list then stays duplicate-free and within capacity |
| Manager.RemoveUserError | Cafe/emulator/game/base_game_instance_manager.py:81-93 | A removal succeeds exactly when the user is not the owner, the game runs and the user is listed |
| Manager.Expired | Cafe/emulator/game/base_game_instance_manager.py:41-43 | A sweep removes only cartridges that have an idle clock |
| Manager.Kept | Cafe/emulator/game/base_game_instance_manager.py:41-46 | The idle clocks a sweep at `now` keeps: those at most 60 seconds old; KeptDropsExpired and SweepKeepsRecent state it |
| Manager.KeptDropsExpired | Cafe/emulator/game/base_game_instance_manager.py:41-46 | The clocks a sweep keeps are exactly the clocks it does not remove |
| Manager.SweepKeepsRecent | Cafe/emulator/game/base_game_instance_manager.py:42 | A game touched at t survives a sweep at now exactly when now - t <= 60; a second sweep at the same time removes nothing more |
| Manager.SweepMonotone | Cafe/emulator/game/base_game_instance_manager.py:42 | A later sweep keeps no more games than an earlier one |
| Manager.Surviving | Cafe/emulator/game/base_game_instance_manager.py:45-48 | After removals the cache's insertion order lists exactly the kept cartridges, still without repeats |
| Manager.FirstOwned | Cafe/emulator/game/base_game_instance_manager.py:56-62 | The result is the first position in insertion order whose cartridge the user owns; no result means the user owns none |
| Manager.ForgetKeepsCoherent | Cafe/emulator/game/base_game_instance_manager.py:45-50 | Forgetting any cartridges keeps the cache coherent: clocks for exactly the cached cartridges, one instance each, valid entries |
| Manager.AddKeepsCoherent | Cafe/emulator/game/gameboy_game_instance_manager.py:29-32 | Caching a new cartridge with a new instance keeps the cache coherent |
| Manager.SetUsersKeepsCoherent | Cafe/emulator/game/base_game_instance_manager.py:79 | Replacing a cached game's users with a duplicate-free list within capacity keeps the cache coherent |
| Manager.InstanceManager.constructor | Cafe/emulator/game/base_game_instance_manager.py:22-29 | A new manager has an empty cache, no clocks and runs its sweeps |
| Manager.InstanceManager.GetGameInstance | Cafe/emulator/game/gameboy_game_instance_manager.py:16-32 | The idle clock is refreshed on every call, even a rejected one. A cached game admits only its listed users, at their list index, and changes nothing else. Otherwise a new instance is cached with the caller as its only user, at index 0 |
| Manager.Acquisition | Cafe/emulator/game/gameboy_game_instance_manager.py:16-32 | The cache after an acquisition: a running game keeps every entry, player list and the order; otherwise an entry with the caller as its only player is added at the end of the order |
| Manager.InstanceManager.Create | Cafe/emulator/game/nes_game_instance_manager.py:29-32 | The creation branch caches a fresh instance loaded from the ROM at the end of the insertion order |
| Manager.InstanceManager.GetInstanceFromUser | Cafe/emulator/game/base_game_instance_manager.py:56-62 | It returns the entry of the first owned cartridge in insertion order, or GameNotStarted |
| Manager.InstanceManager.AddUser | Cafe/emulator/game/base_game_instance_manager.py:64-79 | With the capacity compared as an integer (the corrected check of the first Findings row, `AddUserError`): the outcome is the first failing check; on success the invitee is appended to the game's users and nothing else changes |
| Manager.InstanceManager.RemoveUser | Cafe/emulator/game/base_game_instance_manager.py:81-93 | The outcome is the first failing check; on success exactly that user leaves the list |
| Manager.InstanceManager.Forget | Cafe/emulator/game/base_game_instance_manager.py:46-50 | One removal: the cartridge's clock and entry are dropped and its instance stopped |
| Manager.InstanceManager.ForgetAll | Cafe/emulator/game/base_game_instance_manager.py:45-50 | The removal loop drops exactly the listed cartridges and stops their instances |
| Manager.InstanceManager.Sweep | Cafe/emulator/game/base_game_instance_manager.py:38-50 | After a sweep at now the clocks are the kept ones and the cache holds exactly those cartridges, unchanged and in their old order. Every removed instance is stopped; kept instances are not stopped by the sweep |
| Manager.InstanceManager.Shutdown | Cafe/emulator/game/base_game_instance_manager.py:95-99 | Shutdown stops the sweeps and every cached instance and keeps the entries; nothing already stopped restarts |
| Emulator.PremiumFeatures | Cafe/emulator/gameboy_emulator.py:279-291 | A non-premium owner gets no colour, no border option and the cartridge's border. A premium owner gets the profile's settings and a border path. A premium owner without a profile raises AttributeError; a premium owner with no border name raises TypeError |
| Emulator.PremiumBorderPath | Cafe/emulator/gameboy_emulator.py:286-289 | A premium border is `<owner id>/gameboy/<title>/<border>`, or `<owner id>/gameboy/<custom>` when a custom border is enabled; an absolute custom path replaces the whole path |
| Emulator.Resumed | Cafe/emulator/gameboy_emulator.py:29-32 | A non-empty stored state is resumed; an empty or missing one restarts from the boot snapshot |
| Emulator.Show | Cafe/emulator/gameboy_emulator.py:29-39 | Start resumes the stored state and captures a frame. An empty frame raises InvalidFrameData, and a Game Boy premium-settings failure raises that failure; otherwise the result is the captured frame |
| Emulator.Press | Cafe/emulator/gameboy_emulator.py:68-105 | A string naming no button is refused before the instance changes: its state, held events and controller word stay as they were. The Game Boy ends in the state reached by the rendered steps from `GameBoyStart` (boot frames at the entry point, then the toggled event sent), returns the boot animation (at the entry point) followed by those steps' frames, and toggles the held events. The NES presses the button in the caller's byte and runs the loop |
| Emulator.Applied | Cafe/emulator/gameboy_emulator.py:60-105 | What one command leaves in the instance, frames aside: the stored state pushed on the history. The Game Boy ends where the rendered steps from `GameBoyStart` of the resumed state end, with the toggled held events and the controller word unchanged. The NES has the controller word after the press and the loop's final state, with the held events unchanged |
| Emulator.Refused | Cafe/emulator/gameboy_emulator.py:60-66 | What a refused command leaves in the instance: the stored state pushed on the history and the resumed state (the NES keeps its state); held events and controller word unchanged |
| Emulator.Commanded | Cafe/emulator/gameboy_emulator.py:60-105 | The whole effect of one command: `Applied`, and the frames. For the Game Boy these are the boot animation at the entry point followed by the rendered frames from `GameBoyStart` of the resumed state; for the NES they are the loop's frames |
| Emulator.ConsoleEmulator.constructor | Cafe/emulator/gameboy_emulator.py:18-20 | A new emulator owns a new, empty instance manager for its console |
| Emulator.ConsoleEmulator.Start | Cafe/emulator/gameboy_emulator.py:22-50 | The clock is refreshed. UnauthorizedJoypadAccess is raised exactly when the game runs and the caller is not listed. The cache follows `Manager.Acquisition`: a running game keeps its entries, player lists and order; a new game is cached at the end of the order with [caller] and a new instance. Whenever the caller is admitted, success or not, the instance is resumed from the cartridge's state on the Game Boy and stepped once on the NES. No other instance's state changes (the frame names only the admitted instance). On success that instance is returned with a non-empty frame |
| Emulator.ConsoleEmulator.Acquire | Cafe/emulator/gameboy_emulator.py:58 | Acquisition fails only for an unlisted caller of a running game. The cache follows `Manager.Acquisition`, and a game not yet cached gets a new instance. On success it returns the cartridge's instance holding the history, buttons and caller index that `Prior` describes |
| Emulator.ConsoleEmulator.Drive | Cafe/emulator/gameboy_emulator.py:60-128 | The stored state is always pushed on the history. A string naming no button leaves the instance as `Refused` says. Any other command leaves it as `Applied` says, even when the Game Boy premium settings then fail. An unknown button or a premium failure is the only error, and then the cartridge is untouched. On success the effect is `Commanded`, the cartridge holds the new state, and the play time grows by the number of frames |
| Emulator.ConsoleEmulator.Input | Cafe/emulator/gameboy_emulator.py:52-128 | The clock is refreshed, and the cache follows `Manager.Acquisition`. Only an unlisted caller of a running game is rejected with UnauthorizedJoypadAccess. Every other error is an unknown button or a premium failure, and leaves the cartridge's state and play time unchanged. An admitted caller's instance ends as `Refused` or `Applied` says, on success or failure. The frame names only that instance, so every other cached instance keeps its state, history, held events and controller word. On success the cartridge holds the new state, the play time grows by the frames returned, and the effect is `Commanded` from the instance's prior state and the resumed stored state |
| GamingRoom.InviteRefusal | Cafe/cogs/gaming_room.py:228-238 | An invite is refused exactly when the invitee is the author, the bot, Boomy or Berry, each with its own error, in that order |
| GamingRoom.JaxNeverRefuses | Vault/vault/data/characters.py:10-11 | Jax shares Berry's id, so the Jax refusal can never be raised: inviting Jax raises Berry's refusal |
| GamingRoom.PopState | Cafe/cogs/gaming_room.py:665-666 | Rewinding an empty history fails with NoPreviousState and changes nothing; otherwise the last entry is dropped, loaded (Game Boy) and written to the cartridge's state |
| GamingRoom.Room.constructor | Cafe/cogs/gaming_room.py:46-50 | A new room has no sessions and two emulators with empty caches |
| GamingRoom.Room.Find | Cafe/cogs/gaming_room.py:378-383 | A session lookup succeeds only for a user with a started session; it returns that user's owned game, cached by the session's emulator |
| GamingRoom.Room.Lookup | Cafe/cogs/gaming_room.py:378-383 | The game a session finds: GameNotStarted without a session or an owned game, AttributeError for a failed `play`'s placeholder, otherwise the first owned entry of the session's emulator; Find's contract is stated in it |
| GamingRoom.Room.Save | Cafe/cogs/gaming_room.py:475-482 | `save` copies the instance's current state into the found cartridge's save slot and leaves its running state alone. Every other cartridge keeps its save slot. A failed lookup fails with the lookup's error |
| GamingRoom.Room.Invite | Cafe/cogs/gaming_room.py:225-246 | Without a session it fails with GameNotStarted, then with the invite refusal, then with the lookup error, then with the first failing `add_user` check, using the corrected capacity check of the first Findings row. On success only the invitee is appended to the game's users. A failure changes no cache, and the manager of a console other than the session's never changes |
| GamingRoom.Room.StartGame | Cafe/cogs/gaming_room.py:777-782 | Starting is refused exactly for an unlisted caller of a running game. The console's clock for the cartridge is refreshed, and its cache follows `Manager.Acquisition`. The other console's manager is unchanged, and no instance other than the admitted one changes state. On success the cached instance is returned with a non-empty frame, resumed from the cartridge's state on the Game Boy |
| GamingRoom.Room.Play | Cafe/cogs/gaming_room.py:94-133 | An unknown console gives ConsoleNotValid and a missing cartridge GameDoesNotExist. Only a successful play records the chosen console in the user's session; a failed one leaves at most an empty placeholder. Once a cartridge is found, the chosen console's clock is refreshed and its cache follows `Manager.Acquisition`. The NES start clears the cartridge's state and save slot. The frame names only the chosen console's manager, the admitted instance and the found cartridge, so nothing else changes |
| GamingRoom.Room.Launch | Cafe/cogs/gaming_room.py:101-115 | The start on the chosen console, and then, for a started NES game, the clearing of the cartridge's state and save slot; the clock and the cache as in `StartGame` |
| GamingRoom.Room.Restart | Cafe/cogs/gaming_room.py:378-388 | After `restart` the cartridge's state is the boot snapshot (the NES keeps its state); the game restarts from it. Both caches and their orders are unchanged, so the next command finds the same game; only the found game's clock is refreshed. The frame names only the found instance's state and the found cartridge's state |
| GamingRoom.Room.Relaunch | Cafe/cogs/gaming_room.py:386-388 | Once the game is found: the cartridge's state is set and the game started; the cache and its order stay, the game's clock is refreshed, and a start refused for an unlisted owner is the only UnauthorizedJoypadAccess |
| GamingRoom.Room.Load | Cafe/cogs/gaming_room.py:555-567 | Without a save, NoSaveState with the state untouched and no clock refreshed; otherwise the save slot becomes the running state and the game resumes from it. Both caches and their orders are unchanged, so the next command finds the same game. The frame names only the found instance's state and the found cartridge's state |
| GamingRoom.Room.Rewind | Cafe/cogs/gaming_room.py:658-668 | An empty history gives NoPreviousState with nothing changed; otherwise the newest history entry is popped, becomes the cartridge's state, and the game resumes from it. Both caches and their orders are unchanged, so the next command finds the same game; the clock is refreshed only when the game restarts. The frame names only the found instance's state and history and the found cartridge's state |
| GamingRoom.Room.RewindEntry | Cafe/cogs/gaming_room.py:665-668 | Once the user's game is found: an empty history gives NoPreviousState with nothing changed; otherwise the newest entry is popped and becomes the cartridge's state, and a successful start shows that instance, resumed from it on the Game Boy. The console's cache and order stay, its clock is refreshed only on a restart, and the frame names only that instance and cartridge |
| GamingRoom.Room.Unload | Cafe/cogs/gaming_room.py:55-57 | Unloading stops both managers and every cached instance of both consoles |
| Strings.Lower | Cafe/emulator/gameboy_emulator.py:71 | Lower-casing keeps the length and maps each character |
| Strings.LowerIdempotent | Cafe/emulator/nes_emulator.py:58 | Lower-casing twice is lower-casing once |
| Strings.ShowNat | Vault/vault/i18n/translation_manager.py:85 | `str(n)` is a digit string without a leading zero |
| Strings.ShowInt | Cafe/emulator/gameboy_emulator.py:286 | `str(id)` is non-empty and does not start with a path separator |
| Strings.DecimalValueOfShowNat | Vault/vault/i18n/translation_manager.py:82-85 | `int(str(n)) == n` |
| Strings.Split | Vault/vault/i18n/translation_manager.py:64 | `split` yields at least one piece, and no piece holds the separator |
| Strings.JoinSplit | Vault/vault/i18n/translation_manager.py:64 | Joining the pieces of a split gives back the string |
| Strings.SplitAppend | Vault/vault/i18n/translation_manager.py:64 | Splitting `s + sep + t` gives the pieces of s followed by the pieces of t |
| Strings.SplitWithout | Vault/vault/i18n/translation_manager.py:64 | A string without the separator splits into itself |
| Strings.PathJoin | Cafe/emulator/gameboy_emulator.py:286-289 | `os.path.join(a, b)` is b when b is absolute, and otherwise starts with a |
| Translation.MergeDicts | Vault/vault/i18n/translation_manager.py:15-20 | The merge loop computes the deep merge: b's values win, nested dicts merge, keys only in a keep their value |
| Translation.Merged | Vault/vault/i18n/translation_manager.py:15-20 | The deep merge as a value: b's keys win, two dicts under one key merge; MergedFindsLater and MergedKeepsEarlier state what it finds |
| Translation.MergedWithEmpty | Vault/vault/i18n/translation_manager.py:15-20 | Merging an empty dict changes nothing, and merging into an empty dict copies |
| Translation.MergedIdempotent | Vault/vault/i18n/translation_manager.py:15-20 | Merging a dict into itself changes nothing |
| Translation.MergedFindsLater | Vault/vault/i18n/translation_manager.py:15-20 | Every non-dict value b defines at a path is what the merged dict finds there |
| Translation.MergedKeepsEarlier | Vault/vault/i18n/translation_manager.py:15-20 | Along a path b does not reach, the merged dict finds what a finds |
| Translation.UntouchedMisses | Vault/vault/i18n/translation_manager.py:66-72 | A path that leaves b's keys finds None in b |
| Translation.GetNested | Vault/vault/i18n/translation_manager.py:62-72 | The lookup loop finds the value reached by following the dot-separated segments, or None |
| Translation.Nested | Vault/vault/i18n/translation_manager.py:66-72 | Following keys from a value: a dict step takes `get`, anything else gives None; NestedAppend and NullHasNothing state its laws |
| Translation.NestedAppend | Vault/vault/i18n/translation_manager.py:66-72 | Following p and then q is following p + q, including when a step meets a non-dict |
| Translation.NullHasNothing | Vault/vault/i18n/translation_manager.py:67-70 | Nothing is found below None |
| Translation.LookupDotted | Vault/vault/i18n/translation_manager.py:62-72 | Looking up "p.q" is looking up q in what p finds |
| Translation.LookupPlainKey | Vault/vault/i18n/translation_manager.py:62-72 | A key without dots is a single `get` on the dict |
| Translation.NumberedKeys | Vault/vault/i18n/translation_manager.py:80 | The numbered keys are exactly the digit-only keys |
| Translation.SequentialAsWritten | Vault/vault/i18n/translation_manager.py:81-84 | The check as written: some digit keys, whose integer values are exactly 1..n |
| Translation.Sequential | Vault/vault/i18n/translation_manager.py:76-79 | The documented check: the digit keys are exactly "1".."n"; SequentialIsAccepted proves it implies the written one |
| Translation.VariantAsWritten | Vault/vault/i18n/translation_manager.py:74-90 | As written, a dict failing the numbering check gives None. KeyError is possible only for a dict that passes the check without its keys being exactly "1".."n" |
| Translation.Variant | Vault/vault/i18n/translation_manager.py:74-90 | The corrected choice of the second Findings row: unless the digit keys are exactly "1".."n", the result is None; otherwise it is the (formatted) value of one of those keys |
| Translation.VariantCoversAll | Vault/vault/i18n/translation_manager.py:85 | Every numbered variant can be chosen |
| Translation.SequentialIsAccepted | Vault/vault/i18n/translation_manager.py:81-84 | Digit keys exactly "1".."n" pass the written check, and they are the only digit keys |
| Translation.VariantAgrees | Vault/vault/i18n/translation_manager.py:74-90 | Where the digit keys are exactly "1".."n", the code returns the same variant and raises nothing |
| Translation.LeadingZeroRaises | Vault/vault/i18n/translation_manager.py:84-86 | A dict whose only numbered key is "01" passes the check and raises KeyError as written; the corrected choice gives None |
| Translation.Resolved | Vault/vault/i18n/translation_manager.py:96-99 | A key found in the language is used; otherwise the default language's value is |
| Translation.Plural | Vault/vault/i18n/translation_manager.py:123 | A count is given and its absolute value is not 1, so the plural form is asked for |
| Translation.PluralKey | Vault/vault/i18n/translation_manager.py:123 | The key gets "\|plural" exactly when a count is given and its absolute value is not 1 |
| Translation.WithCount | Vault/vault/i18n/translation_manager.py:134-135 | A given count is added to the formatting arguments as "count"; other arguments are kept |
| Translation.Translate | Vault/vault/i18n/translation_manager.py:119-137 | When neither language has the (plural) key, the result is "[key]" with the original key. A found string is formatted with the arguments plus the count. Any other found value raises AttributeError |
| Translation.TranslatePrefersLanguage | Vault/vault/i18n/translation_manager.py:126-129 | Where the language has the key, the default language does not matter |
| Translation.TranslateFallsBack | Vault/vault/i18n/translation_manager.py:126-129 | Where the language lacks the key, the result is the default language's |
| Translation.TranslateRandom | Vault/vault/i18n/translation_manager.py:92-117 | Using the corrected choice `Variant` of the second Findings row: the result is "[key]" when nothing is found, the value is not a dict, or it has no valid numbered group. Otherwise it renders one of the numbered variants; a chosen string is formatted twice |
| Translation.TranslateRandomPrefersLanguage | Vault/vault/i18n/translation_manager.py:97-99 | Where the language has the key, the default language does not matter |
| Statistics.FromName | Vault/vault/data/database/statistics.py:9-12 | `Collectibles(v)` returns the member whose value is v; any other string raises ValueError |
| Statistics.BindParam | Vault/vault/data/database/statistics.py:18-22 | None binds to None; a list binds to the value strings of its members, same length and order |
| Statistics.Names | Vault/vault/data/database/statistics.py:21 | Each member becomes its value, position by position |
| Statistics.Members | Vault/vault/data/database/statistics.py:27 | A list reads back exactly when every string names a member, giving those members in order; otherwise ValueError |
| Statistics.ResultValue | Vault/vault/data/database/statistics.py:24-28 | None reads back as None; a list reads back as its members, or raises ValueError |
| Statistics.NameRoundTrip | Vault/vault/data/database/statistics.py:9-12 | A member is read back from its own value |
| Statistics.NameInjective | Vault/vault/data/database/statistics.py:9-12 | No two members share a value |
| Statistics.MembersOfNames | Vault/vault/data/database/statistics.py:21-27 | Reading back the values of a list of members gives the list |
| Statistics.BindThenRead | Vault/vault/data/database/statistics.py:18-28 | Reading back what was bound gives the original, for every list of members and for None |
| Statistics.UnknownNameFails | Vault/vault/data/database/statistics.py:27 | A stored list with a string other than "red", "green" or "blue" cannot be read back |

## Left out

- Chat plumbing is not modelled. This covers the Discord commands' replies,
  embeds, joypad views, message deletion, error handlers and API posts. The
  session table records only the chosen console, not the joypad view or the
  last message.
- Image processing is not modelled: `__process_frame`, `__draw_controller`,
  `__fade_frames_to_gray` and the GIF scaling. Frames are opaque values, and
  `Blank` stands for the empty frame.
- The asyncio cleanup task and its 60-second period are not modelled. The
  sweep body is `Sweep(now)`, with the clock as a parameter.
- The PyBoy and cynes cores are function-valued parameters. Temporary ROM
  files and their removal are not modelled; `stopped` records the release.
- Database persistence is not modelled: `fetch_or_register`, `update` and
  the uniqueness constraints. The cartridge that `play` fetches by title is
  a parameter, `found`. ROM hashing is left out.
- vault/data/consoles.py is not part of this model. The console argument of
  `play` is a `Choice`: a known console or an unknown name.
- Loading language files and their modification-time cache is filesystem
  I/O and is not modelled: `__load_language`, `__files_changed` and
  `set_language`. So is the choice between the `lang` argument and the
  current language. The lookups take the loaded dictionaries directly.
- `str.format`, `str()` of a non-string value and `random.choice` are
  parameters: a formatter, a show function and a `pick` number.
- Translation.MergeDicts: the merge is modelled on values. The model does not
  capture the in-place update of `a`. It also does not capture that nested
  dicts of `b` are inserted by reference and later merges write into them.
  Python's dict key order is not modelled either.
- JSON floating-point numbers are not modelled.
- Strings.Lower: only ASCII letters are lower-cased. Unicode case mapping is
  left out.
- Strings.IsDigits is ASCII-only. Python's `isdigit` also accepts non-ASCII
  digits, and neither of their paths is modelled:
  - `int()` accepts every Unicode decimal digit: Arabic-Indic "١" and
    fullwidth "１" both give 1. A key such as "١" therefore passes the
    numbering check (Vault/vault/i18n/translation_manager.py:82-84), and
    `value[str(n)]` then raises KeyError, exactly as for "01";
  - for a digit that is not decimal, such as superscript "²", `int()`
    raises ValueError.
- Emulator.Press: a string that names no button is refused before any frame
  runs, after the resume and the history push: UnsupportedButton on the Game Boy, TypeError on the NES. The NES
  TypeError is what `controller ^= str` raises
  (Cafe/emulator/game/nes_game_instance.py:57). The Game Boy instead hands
  the string to Cafe/emulator/game/gameboy_game_instance.py:130-143, which
  is not modelled:
  - an empty or one-character string raises IndexError at line 131 or 135,
    after the 127 boot ticks when PC is 0;
  - a longer string appends its first character to `inputs` (line 141) and
    sends it to the core (line 143). The core's reaction is not visible in
    the source; if it accepts the character, the frames run and `state` and
    `play_time` are written back.

  The bot's joypads send only the fixed words of Cafe/cogs/gaming_room.py:797-827,
  so this path is not reachable from the chat commands.
- Instance.GameInstance.LoadState: loading None, or an empty snapshot, is
  modelled as a successful load of the empty snapshot. Whether PyBoy's
  `load_state` accepts the empty stream `io.BytesIO(None)` gives is not
  visible in the source. A consequence: the first `input` on a cartridge
  without a state pushes None on the history
  (Cafe/emulator/gameboy_emulator.py:66).
- GamingRoom.Room.Rewind: a rewind onto that None entry writes the empty
  snapshot to `cartridge.state` and then behaves as a restart. This rests on
  the same assumption about `load_state`.
- Instance.GameInstance.constructor: building an instance never fails in the
  model. In the source it can:
  - `boot_animation` is nullable (Vault/vault/data/database/gameboy_cartridge.py:19);
    with None, `os.path.join` raises TypeError at
    Cafe/emulator/game/gameboy_game_instance.py:35;
  - a core may reject the ROM.

  Such a failure happens after `last_used[cartridge]` was written
  (Cafe/emulator/game/gameboy_game_instance_manager.py:18). The result is an
  idle clock without a cached instance, which `Manager.Coherent` (clocks for
  exactly the cached cartridges) excludes. `Database.Cartridge.bootAnimation`
  is therefore a plain string.
- Emulator.ConsoleEmulator.Drive: has the same gap for a Game Boy string that
  names no button. It returns UnsupportedButton, as on the `Emulator.Press`
  line above.
- Emulator.ConsoleEmulator.Input: has the same gap as `Drive`.
- Manager.InstanceManager.AddUser: follows the corrected capacity check of the
  first Findings row. As written, every invite of a non-owner to a running
  game raises TypeError (Cafe/emulator/game/base_game_instance_manager.py:73),
  so the success case never happens in the source.
- GamingRoom.Room.Invite: has the same correction as `AddUser`. As written,
  an invite that passes the refusals and the lookup raises TypeError.
- Translation.TranslateRandom: follows the corrected choice of the second
  Findings row. For a dict such as `{"01": "hi"}` it returns "[key]", where
  the source raises KeyError (Vault/vault/i18n/translation_manager.py:86).
- Translation.Translate: `str.format` is the `Formatter` parameter, a total
  function. The KeyError, IndexError or ValueError it raises when a template
  names a field the arguments lack (Vault/vault/i18n/translation_manager.py:137)
  is not modelled. So the contract's error case covers only a found value
  that is not a string.
- Translation.TranslateRandom: the same formatter failures, at
  Vault/vault/i18n/translation_manager.py:88 and 115, are not modelled.
- Translation.Variant: the same formatter failure, at
  Vault/vault/i18n/translation_manager.py:88, is not modelled.
- Emulator.ConsoleEmulator.Drive: the InvalidFrameData check after `input`
  is not modelled as a reachable error. Every command runs at least one
  frame, so it cannot fire.
- GamingRoom.Room.Restart: on the NES the contract does not state the state
  after the start's capture step. Only the Game Boy's resumed state is
  stated.
- GamingRoom.Room.Load: on the NES the contract does not state the state
  after the start's capture step.
- GamingRoom.Room.Rewind: on the NES the contract does not state the state
  after the start's capture step.
- GamingRoom.Room.Play: the contract does not state the instance's state
  after the start. That state is stated by `Emulator.ConsoleEmulator.Start`.
- Concurrency is not modelled. The commands run one at a time, as on the
  bot's single event loop.

## Findings

| source | as written | input that shows it | evidently intended | confidence | as-written member | corrected member |
|---|---|---|---|---|---|---|
| Cafe/emulator/game/base_game_instance_manager.py:73 | `len(users) >= instance.max_players` compares an int with a bound method, because both instance classes define `max_players` as a plain method; Python 3 raises TypeError | An NES owner (id 1) invites user 2 to a running game whose users are `[1]` | Compare with `max_players()`: 1 joypad for the Game Boy, 2 for the NES | not executed | Manager.AddUserAsWrittenCounterexample | Manager.AddUserAdmits |
| Vault/vault/i18n/translation_manager.py:84-86 | The numbering check compares `int(k)`, so a key with leading zeros passes, but the choice looks up `str(n)` | A dict whose only numbered key is `"01"`: the check passes, `"1"` is looked up, KeyError. A key of Unicode decimal digits such as `"١"` (`int` gives 1) fails the same way; the model's digits are ASCII only | Accept only digit keys that are exactly "1".."n", as the docstring says | not executed | Translation.LeadingZeroRaises | Translation.VariantAgrees |
