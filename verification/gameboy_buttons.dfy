/**
 * The Game Boy instance's button bookkeeping. The instance keeps the list of
 * events it last sent; an input on a button toggles it: a pressed button is
 * released, a released one pressed again, an untouched one pressed.
 */
module GameBoyButtons {
  import opened Common
  import opened Joypad

  /** A PyBoy window event: `PRESS_…` or `RELEASE_…` of one button. */
  datatype Event = Press(key: Key) | Release(key: Key)

  /** `list.remove(e)`: drop the first occurrence of `e`. */
  function RemoveFirst(s: seq<Event>, e: Event): (r: seq<Event>)
    requires e in s
    ensures |r| == |s| - 1
    ensures forall x :: x in r ==> x in s
    ensures forall x :: x in s && x != e ==> x in r
    ensures NoDup(s) ==> NoDup(r) && e !in r
  {
    NoDupUncons(s);
    if s[0] == e then s[1..]
    else
      var rest := RemoveFirst(s[1..], e);
      assert ([s[0]] + rest)[1..] == rest;
      NoDupUncons([s[0]] + rest);
      [s[0]] + rest
  }

  /** The new event list and the event sent to the core. */
  datatype Toggled = Toggled(held: seq<Event>, sent: Event)

  /** The toggle that `input` performs for button `k`. */
  function Toggle(inputs: seq<Event>, k: Key): (r: Toggled)
    ensures |r.held| > 0 && r.held[|r.held| - 1] == r.sent && r.sent.key == k
  {
    if Press(k) in inputs then Toggled(RemoveFirst(inputs, Press(k)) + [Release(k)], Release(k))
    else if Release(k) in inputs then Toggled(RemoveFirst(inputs, Release(k)) + [Press(k)], Press(k))
    else Toggled(inputs + [Press(k)], Press(k))
  }

  /** A button is held while its press event is in the list. */
  predicate Held(inputs: seq<Event>, k: Key)
  {
    Press(k) in inputs
  }

  /** Each event at most once, and never both the press and the release of one button. */
  predicate Consistent(inputs: seq<Event>)
  {
    NoDup(inputs) && forall k: Key :: !(Press(k) in inputs && Release(k) in inputs)
  }

  /** The event lists an instance can hold. */
  type Inputs = s: seq<Event> | Consistent(s) witness []

  /** The events of every button other than `k`, in order. */
  function Others(s: seq<Event>, k: Key): seq<Event>
  {
    if s == [] then [] else (if s[0].key == k then [] else [s[0]]) + Others(s[1..], k)
  }

  lemma {:induction false} InOthers(s: seq<Event>, k: Key, x: Event)
    ensures x in Others(s, k) <==> x in s && x.key != k
    decreases |s|
  {
    if s != [] {
      InOthers(s[1..], k, x);
      assert x in s <==> x == s[0] || x in s[1..];
    }
  }

  lemma {:induction false} OthersAppend(a: seq<Event>, b: seq<Event>, k: Key)
    ensures Others(a + b, k) == Others(a, k) + Others(b, k)
    decreases |a|
  {
    if a == [] {
      assert a + b == b;
    } else {
      var head := if a[0].key == k then [] else [a[0]];
      assert (a + b)[0] == a[0] && (a + b)[1..] == a[1..] + b;
      calc {
        Others(a + b, k);
        head + Others(a[1..] + b, k);
        { OthersAppend(a[1..], b, k); }
        head + (Others(a[1..], k) + Others(b, k));
        (head + Others(a[1..], k)) + Others(b, k);
      }
    }
  }

  lemma {:induction false} OthersRemoveFirst(s: seq<Event>, e: Event)
    requires e in s
    ensures Others(RemoveFirst(s, e), e.key) == Others(s, e.key)
    decreases |s|
  {
    if s[0] != e {
      OthersRemoveFirst(s[1..], e);
      OthersAppend([s[0]], RemoveFirst(s[1..], e), e.key);
      assert ([s[0]] + RemoveFirst(s[1..], e))[1..] == RemoveFirst(s[1..], e);
    }
  }

  /** Toggling keeps the list consistent. */
  lemma ToggleKeepsConsistent(inputs: seq<Event>, k: Key)
    requires Consistent(inputs)
    ensures Consistent(Toggle(inputs, k).held)
  {
    var r := Toggle(inputs, k).held;
    if Press(k) in inputs {
      var m := RemoveFirst(inputs, Press(k));
      assert Release(k) !in m;
      assert forall i :: 0 <= i < |m| ==> r[i] == m[i];
    } else if Release(k) in inputs {
      var m := RemoveFirst(inputs, Release(k));
      assert Press(k) !in m;
      assert forall i :: 0 <= i < |m| ==> r[i] == m[i];
    } else {
      assert forall i :: 0 <= i < |inputs| ==> r[i] == inputs[i];
    }
  }

  /**
   * Toggling flips whether the button is held, sends the matching event, and
   * a released button ends up pressed with its release forgotten.
   */
  lemma ToggleFlips(inputs: seq<Event>, k: Key)
    requires Consistent(inputs)
    ensures var r := Toggle(inputs, k);
      && Held(r.held, k) == !Held(inputs, k)
      && r.sent == (if Held(inputs, k) then Release(k) else Press(k))
      && (Release(k) in r.held <==> Held(inputs, k))
  {
  }

  /** Toggling `k` leaves every other button's events, and their order, as they were. */
  lemma ToggleLeavesOthers(inputs: seq<Event>, k: Key)
    ensures Others(Toggle(inputs, k).held, k) == Others(inputs, k)
  {
    var r := Toggle(inputs, k);
    if Press(k) in inputs {
      OthersRemoveFirst(inputs, Press(k));
      OthersAppend(RemoveFirst(inputs, Press(k)), [Release(k)], k);
    } else if Release(k) in inputs {
      OthersRemoveFirst(inputs, Release(k));
      OthersAppend(RemoveFirst(inputs, Release(k)), [Press(k)], k);
    } else {
      OthersAppend(inputs, [Press(k)], k);
    }
  }

  /** Toggling a button twice gives back whether it was held. */
  lemma ToggleTwice(inputs: seq<Event>, k: Key)
    requires Consistent(inputs)
    ensures Held(Toggle(Toggle(inputs, k).held, k).held, k) == Held(inputs, k)
  {
    ToggleFlips(inputs, k);
    ToggleKeepsConsistent(inputs, k);
    ToggleFlips(Toggle(inputs, k).held, k);
  }

  /**
   * Nothing excludes opposite directions: pressing up and then down leaves
   * both held.
   */
  lemma UpThenDownHoldsBoth(inputs: seq<Event>)
    requires Consistent(inputs) && !Held(inputs, Up) && !Held(inputs, Down)
    ensures var r := Toggle(Toggle(inputs, Up).held, Down).held;
      Held(r, Up) && Held(r, Down)
  {
    var afterUp := Toggle(inputs, Up).held;
    ToggleFlips(inputs, Up);
    ToggleKeepsConsistent(inputs, Up);
    ToggleFlips(afterUp, Down);
    ToggleLeavesOthers(afterUp, Down);
    var r := Toggle(afterUp, Down).held;
    InOthers(afterUp, Down, Press(Up));
    InOthers(r, Down, Press(Up));
  }
}
