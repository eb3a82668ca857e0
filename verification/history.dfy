/**
 * The bounded rewind history of a game instance: `save_state_to_history`
 * appends a snapshot and forgets the oldest one once more than ten are kept;
 * `previous_state` takes the newest one back.
 */
module History {
  import opened Common

  /** `__STATE_HISTORY_LIMIT`. */
  const LIMIT: nat := 10

  /** A history entry; the engine may record a missing state (None). */
  type Entry = Option<Snapshot>

  /** A history the instance can hold: at most LIMIT entries. */
  type Log = h: seq<Entry> | |h| <= LIMIT witness []

  function Min(a: int, b: int): int
  {
    if a <= b then a else b
  }

  /** The last `n` elements of `s`. */
  function Last<T>(s: seq<T>, n: nat): seq<T>
    requires n <= |s|
  {
    s[|s| - n..]
  }

  /** The history after pushing `s`: the newest entries of `h + [s]`, at most LIMIT of them. */
  function Pushed(h: seq<Entry>, s: Entry): (r: seq<Entry>)
    ensures |h| <= LIMIT ==> |r| == Min(|h| + 1, LIMIT)
    ensures |h| >= LIMIT ==> |r| == |h|
    ensures |r| <= |h| + 1
  {
    var appended := h + [s];
    if |appended| > LIMIT then appended[1..] else appended
  }

  /** The history after pushing every entry of `ss`, in order. */
  function PushedAll(h: seq<Entry>, ss: seq<Entry>): seq<Entry>
    decreases |ss|
  {
    if ss == [] then h else PushedAll(Pushed(h, ss[0]), ss[1..])
  }

  /** A push never takes a bounded history past the limit. */
  lemma PushStaysBounded(h: seq<Entry>, s: Entry)
    requires |h| <= LIMIT
    ensures |Pushed(h, s)| <= LIMIT
    ensures |Pushed(h, s)| > 0 && Pushed(h, s)[|Pushed(h, s)| - 1] == s
  {
  }

  /** Below the limit a push followed by a pop gives back the history and the pushed entry. */
  lemma PushThenPop(h: seq<Entry>, s: Entry)
    requires |h| < LIMIT
    ensures var r := Pushed(h, s); r[..|r| - 1] == h && r[|r| - 1] == s
  {
  }

  /** Keeping the last `k` of a suffix of `x`, extended by `y`, keeps the last `k` of `x + y`. */
  lemma LastOfSuffix<T>(x: seq<T>, m: nat, y: seq<T>, k: nat)
    requires m <= |x| && k <= m + |y|
    ensures Last(Last(x, m) + y, k) == Last(x + y, k)
  {
    var a, b := Last(Last(x, m) + y, k), Last(x + y, k);
    assert |a| == |b|;
    forall i | 0 <= i < k ensures a[i] == b[i] {
      var j := |x| + |y| - k + i;
      if j < |x| {
        assert b[i] == x[j];
        assert a[i] == Last(x, m)[m + |y| - k + i];
      } else {
        assert b[i] == y[j - |x|];
      }
    }
  }

  /** After any sequence of pushes, the history holds the newest entries, at most LIMIT. */
  lemma {:induction false} PushedAllKeepsNewest(h: seq<Entry>, ss: seq<Entry>)
    requires |h| <= LIMIT
    ensures PushedAll(h, ss) == Last(h + ss, Min(|h| + |ss|, LIMIT))
    decreases |ss|
  {
    if ss == [] {
      assert h + ss == h;
    } else {
      var x, rest := h + [ss[0]], ss[1..];
      var n := Min(|h| + |ss|, LIMIT);
      var h' := Pushed(h, ss[0]);
      assert Min(|h'| + |rest|, LIMIT) == n;
      calc {
        PushedAll(h, ss);
        PushedAll(h', rest);
        { PushedAllKeepsNewest(h', rest); }
        Last(h' + rest, n);
        { assert h' == Last(x, |h'|); }
        Last(Last(x, |h'|) + rest, n);
        { LastOfSuffix(x, |h'|, rest, n); }
        Last(x + rest, n);
        { assert x + rest == h + ss; }
        Last(h + ss, n);
      }
    }
  }

  /** From an empty history, N pushes keep exactly the last min(N, LIMIT) of them. */
  lemma {:induction false} NewestFromEmpty(ss: seq<Entry>)
    ensures PushedAll([], ss) == Last(ss, Min(|ss|, LIMIT))
  {
    var empty: seq<Entry> := [];
    PushedAllKeepsNewest(empty, ss);
    assert empty + ss == ss;
  }
}
