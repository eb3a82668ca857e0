/**
 * The NES controller word. Each button is one bit of a byte; player 1's
 * byte is the low byte and player 2's the high byte. An input XORs the
 * button's bit into the word, so every input toggles that button, and the
 * HUD reads each player's byte back to light the held buttons.
 */
module NesButtons {
  import opened Joypad

  /**
   * `cynes.NES_INPUT_*`: one bit per button. The values are the binding's,
   * which is not part of this model; the properties below only use that they
   * are eight distinct single bits.
   */
  function Mask(k: Key): bv8
  {
    match k
    case Right => 0x01
    case Left => 0x02
    case Down => 0x04
    case Up => 0x08
    case Start => 0x10
    case Select => 0x20
    case B => 0x40
    case A => 0x80
  }

  /** The word a button press of `player` (its index in the users list) XORs in. */
  function PlayerButton(k: Key, player: nat): (r: bv16)
    ensures player == 1 ==> r & 0xFF == 0 && (r >> 8) as bv8 == Mask(k)
    ensures player != 1 ==> r >> 8 == 0 && r as bv8 == Mask(k)
  {
    if player == 1 then (Mask(k) as bv16) << 8 else Mask(k) as bv16
  }

  /** `emulator.controller ^= button`. */
  function Pressed(controller: bv16, button: bv16): bv16
  {
    controller ^ button
  }

  /** The HUD's `controller_state & 0xFF`: player 1's buttons. */
  function Player1State(controller: bv16): bv8
  {
    (controller & 0xFF) as bv8
  }

  /** The HUD's `(controller_state >> 8) & 0xFF`: player 2's buttons. */
  function Player2State(controller: bv16): bv8
  {
    ((controller >> 8) & 0xFF) as bv8
  }

  /** The HUD lights a button when its bit is set in the player's byte. */
  predicate Lit(state: bv8, k: Key)
  {
    state & Mask(k) != 0
  }

  /** The eight buttons have distinct, single-bit masks. */
  lemma MasksDisjoint(k: Key, j: Key)
    ensures Mask(k) != 0 && Mask(k) & (Mask(k) - 1) == 0
    ensures k != j ==> Mask(k) & Mask(j) == 0
  {
  }

  /** Pressing the same button twice gives back the controller word. */
  lemma PressTwice(controller: bv16, button: bv16)
    ensures Pressed(Pressed(controller, button), button) == controller
  {
  }

  /**
   * An input by the owner (index 0) toggles that button's light on player 1's
   * byte, keeps every other light on it, and leaves player 2's byte alone.
   */
  lemma OwnerPressTogglesOneLight(controller: bv16, k: Key, j: Key)
    ensures var c := Pressed(controller, PlayerButton(k, 0));
      && Lit(Player1State(c), k) == !Lit(Player1State(controller), k)
      && (j != k ==> Lit(Player1State(c), j) == Lit(Player1State(controller), j))
      && Player2State(c) == Player2State(controller)
  {
    MasksDisjoint(k, j);
  }

  /**
   * An input by the invited player (index 1) toggles that button's light on
   * player 2's byte, keeps every other light on it, and leaves player 1's byte alone.
   */
  lemma GuestPressTogglesOneLight(controller: bv16, k: Key, j: Key)
    ensures var c := Pressed(controller, PlayerButton(k, 1));
      && Lit(Player2State(c), k) == !Lit(Player2State(controller), k)
      && (j != k ==> Lit(Player2State(c), j) == Lit(Player2State(controller), j))
      && Player1State(c) == Player1State(controller)
  {
    MasksDisjoint(k, j);
  }
}
