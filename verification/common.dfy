/**
 * Vocabulary shared by the session engine: optional values, the failures the
 * engine raises (by the name of the exception the source raises), user ids,
 * consoles, serialized core state and captured frames.
 */
module Common {

  datatype Option<+T> = None | Some(value: T)

  /**
   * The exceptions of the engine. TypeError, AttributeError, KeyError and
   * ValueError stand for the Python runtime failures that the code reaches.
   */
  datatype Error =
    | GameNotStarted
    | GameDoesNotExist
    | ConsoleNotValid
    | UserIsCartridgeOwner
    | UserAlreadyInvited
    | UserNotInvited
    | NotEnoughJoypads
    | UnauthorizedJoypadAccess
    | NoPreviousState
    | NoSaveState
    | InvalidFrameData
    | CafeRefusesInvite
    | BoomyRefusesInvite
    | BerryRefusesInvite
    | JaxRefusesInvite
    | UnsupportedButton
    | TypeError
    | AttributeError
    | KeyError
    | ValueError

  datatype Result<+T> = Ok(value: T) | Err(error: Error)

  /** The outcome of an operation that returns nothing but may raise. */
  datatype Outcome = Pass | Fail(error: Error)

  /** A Discord user id. */
  type UserId = int

  type Bytes = seq<bv8>

  /** Serialized machine state of an emulation core (`save_state`). */
  type Snapshot = Bytes

  datatype Console = GameBoy | Nes

  /** A captured screen; `Blank` is a capture that produced nothing. */
  datatype Frame = Blank | Picture(pixels: Bytes)

  /** Python truthiness of an optional byte string: None and b"" are false. */
  predicate Truthy(s: Option<Bytes>)
  {
    s.Some? && |s.value| > 0
  }

  /** `BytesIO(s)`: None reads as an empty stream. */
  function StreamOf(s: Option<Bytes>): Bytes
  {
    if s.Some? then s.value else []
  }

  predicate NoDup<T(==)>(s: seq<T>)
  {
    forall i, j :: 0 <= i < j < |s| ==> s[i] != s[j]
  }

  /** A duplicate-free list splits into its head, absent from the rest, and a duplicate-free tail. */
  lemma NoDupUncons<T>(s: seq<T>)
    requires |s| > 0
    ensures NoDup(s) <==> s[0] !in s[1..] && NoDup(s[1..])
  {
    if s[0] !in s[1..] && NoDup(s[1..]) {
      forall i, j | 0 <= i < j < |s| ensures s[i] != s[j] {
        if i > 0 {
          assert s[i] == s[1..][i - 1] && s[j] == s[1..][j - 1];
        } else {
          assert s[j] == s[1..][j - 1];
        }
      }
    }
  }
}
