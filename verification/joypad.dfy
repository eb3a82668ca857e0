/**
 * The joypad vocabulary shared by both emulators: the eight buttons, the
 * button argument a command carries, and how a command is read
 * (`frame N` advances N frames, a button name toggles that button).
 */
module Joypad {
  import Strings
  import opened Common

  datatype Key = Up | Down | Left | Right | A | B | Start | Select

  /** The button argument of an input command: a string, or any other value (None included). */
  datatype Token = Text(s: string) | NotText

  /** What the command asks the instance to press. `Raw` is a string that names no button. */
  datatype Pressed = NoButton | Named(key: Key) | Raw(s: string)
  {
    /** The button pressed, if the argument names one. */
    function KeyOf(): Option<Key>
    {
      if Named? then Some(key) else None
    }
  }

  /** A parsed command: how many frames to run and what to press first. */
  datatype Request = Request(ticks: nat, button: Pressed)

  /** The command word of each button. */
  function Name(k: Key): string
  {
    match k
    case Up => "up"
    case Down => "down"
    case Left => "left"
    case Right => "right"
    case A => "a"
    case B => "b"
    case Start => "start"
    case Select => "select"
  }

  /** The button whose command word is `l`, if any. */
  function KeyNamed(l: string): (r: Option<Key>)
    ensures r.Some? ==> Name(r.value) == l
    ensures r.None? ==> forall k: Key :: Name(k) != l
  {
    if l == "up" then Some(Up)
    else if l == "down" then Some(Down)
    else if l == "left" then Some(Left)
    else if l == "right" then Some(Right)
    else if l == "a" then Some(A)
    else if l == "b" then Some(B)
    else if l == "start" then Some(Start)
    else if l == "select" then Some(Select)
    else None
  }

  /** The four frame-count words. */
  predicate IsFrameWord(l: string)
  {
    l == "frame 1" || l == "frame 10" || l == "frame 30" || l == "frame 60"
  }

  /**
   * The command reading both emulators share: a non-string argument is no
   * button; a string is lower-cased, `frame 1/10/30/60` sets the frame count,
   * a button word selects that button, and any other string is kept as is.
   */
  function Parse(t: Token): (r: Request)
    ensures r.ticks == 1 || r.ticks == 10 || r.ticks == 30 || r.ticks == 60
    ensures r.button.Named? ==> r.ticks == 1 && t.Text? && Strings.Lower(t.s) == Name(r.button.key)
    ensures t.NotText? ==> r == Request(1, NoButton)
    ensures t.Text? ==>
      var l := Strings.Lower(t.s);
      && (l == "frame 1" ==> r == Request(1, NoButton))
      && (l == "frame 10" ==> r == Request(10, NoButton))
      && (l == "frame 30" ==> r == Request(30, NoButton))
      && (l == "frame 60" ==> r == Request(60, NoButton))
    ensures r.button.Raw? <==>
      t.Text? && !IsFrameWord(Strings.Lower(t.s)) && KeyNamed(Strings.Lower(t.s)).None?
    ensures r.button.Raw? ==> r == Request(1, Raw(Strings.Lower(t.s)))
  {
    match t
    case NotText => Request(1, NoButton)
    case Text(s) =>
      var l := Strings.Lower(s);
      if l == "frame 1" then Request(1, NoButton)
      else if l == "frame 10" then Request(10, NoButton)
      else if l == "frame 30" then Request(30, NoButton)
      else if l == "frame 60" then Request(60, NoButton)
      else
        match KeyNamed(l)
        case Some(k) => Request(1, Named(k))
        case None => Request(1, Raw(l))
  }

  /** Commands are case-insensitive: a command and its lower-cased form read the same. */
  lemma ParseIgnoresCase(s: string)
    ensures Parse(Text(s)) == Parse(Text(Strings.Lower(s)))
  {
    Strings.LowerIdempotent(s);
  }

  /** Every button word selects its button for exactly one frame. */
  lemma ParseName(k: Key)
    ensures Parse(Text(Name(k))) == Request(1, Named(k))
  {
    var n := Name(k);
    assert Strings.Lower(n) == n;
  }
}
