/**
 * The collectibles column of a user's statistics: a list of `Collectibles`
 * members stored as a JSON list of their value strings, and read back by
 * looking each string up among the members' values.
 */
module Statistics {
  import opened Common

  /** `Collectibles`. */
  datatype Collectible = Red | Green | Blue

  /** The member's value (`v.value`). */
  function Name(c: Collectible): string
  {
    match c
    case Red => "red"
    case Green => "green"
    case Blue => "blue"
  }

  /** `Collectibles(v)`: the member whose value is `v`; any other string raises ValueError. */
  function FromName(s: string): (r: Result<Collectible>)
    ensures r.Ok? ==> Name(r.value) == s
    ensures r.Err? ==> r.error == ValueError && forall c: Collectible :: Name(c) != s
  {
    if s == "red" then Ok(Red)
    else if s == "green" then Ok(Green)
    else if s == "blue" then Ok(Blue)
    else Err(ValueError)
  }

  /** `process_bind_param`: each member becomes its value string, in order; None stays None. */
  function BindParam(value: Option<seq<Collectible>>): (r: Option<seq<string>>)
    ensures r.None? <==> value.None?
    ensures r.Some? ==> |r.value| == |value.value| && forall i :: 0 <= i < |r.value| ==> r.value[i] == Name(value.value[i])
  {
    if value.None? then None else Some(Names(value.value))
  }

  function Names(cs: seq<Collectible>): (r: seq<string>)
    ensures |r| == |cs| && forall i :: 0 <= i < |cs| ==> r[i] == Name(cs[i])
  {
    if cs == [] then [] else [Name(cs[0])] + Names(cs[1..])
  }

  /** The members named by `names`, in order; ValueError at the first string that names none. */
  function Members(names: seq<string>): (r: Result<seq<Collectible>>)
    ensures r.Ok? <==> forall i :: 0 <= i < |names| ==> FromName(names[i]).Ok?
    ensures r.Ok? ==> |r.value| == |names| && forall i :: 0 <= i < |names| ==> Name(r.value[i]) == names[i]
    ensures r.Err? ==> r.error == ValueError
  {
    if names == [] then Ok([])
    else
      match FromName(names[0])
      case Err(e) => Err(e)
      case Ok(c) =>
        match Members(names[1..])
        case Err(e) => Err(e)
        case Ok(rest) =>
          assert forall i :: 1 <= i < |names| ==> names[i] == names[1..][i - 1];
          Ok([c] + rest)
  }

  /** `process_result_value`: None stays None, otherwise every string is read back as a member. */
  function ResultValue(value: Option<seq<string>>): (r: Result<Option<seq<Collectible>>>)
    ensures value.None? ==> r == Ok(None)
    ensures value.Some? ==> (r.Ok? <==> Members(value.value).Ok?)
    ensures value.Some? && r.Ok? ==> r.value.Some? && r.value.value == Members(value.value).value
  {
    if value.None? then Ok(None)
    else
      match Members(value.value)
      case Err(e) => Err(e)
      case Ok(cs) => Ok(Some(cs))
  }

  /** A member is read back from its own value. */
  lemma NameRoundTrip(c: Collectible)
    ensures FromName(Name(c)) == Ok(c)
  {
  }

  /** Each value names one member only. */
  lemma NameInjective(c: Collectible, d: Collectible)
    ensures Name(c) == Name(d) ==> c == d
  {
  }

  /** Storing a list of members and reading it back gives the same list. */
  lemma {:induction false} MembersOfNames(cs: seq<Collectible>)
    ensures Members(Names(cs)) == Ok(cs)
  {
    if cs != [] {
      MembersOfNames(cs[1..]);
      assert Names(cs)[1..] == Names(cs[1..]);
      NameRoundTrip(cs[0]);
      assert [cs[0]] + cs[1..] == cs;
    }
  }

  /** `process_result_value(process_bind_param(v)) == v` for every list of members, and for None. */
  lemma BindThenRead(value: Option<seq<Collectible>>)
    ensures ResultValue(BindParam(value)) == Ok(value)
  {
    if value.Some? {
      MembersOfNames(value.value);
    }
  }

  /** A stored list holding a string outside "red", "green" and "blue" cannot be read back. */
  lemma UnknownNameFails(names: seq<string>, i: nat)
    requires i < |names| && names[i] != "red" && names[i] != "green" && names[i] != "blue"
    ensures ResultValue(Some(names)) == Err(ValueError)
  {
    assert FromName(names[i]).Err?;
  }
}
