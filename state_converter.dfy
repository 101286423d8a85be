/** The request-parameter converter from a state keyword to `State`. */
module StateConverter {
  import opened Wrappers
  import opened Domain
  import Text

  /** `State.name()`. */
  function Name(s: State): string {
    match s
    case ALL => "ALL"
    case CURRENT => "CURRENT"
    case PAST => "PAST"
    case FUTURE => "FUTURE"
    case WAITING => "WAITING"
    case REJECTED => "REJECTED"
    case UNSUPPORTED_STATUS => "UNSUPPORTED_STATUS"
  }

  /** `State.valueOf(name)`: the constant with exactly that name; None where the JDK throws. */
  function ValueOf(name: string): (r: Option<State>)
    ensures r.Some? ==> Name(r.value) == name
    ensures r.None? ==> forall s: State :: Name(s) != name
  {
    if name == "ALL" then Some(ALL)
    else if name == "CURRENT" then Some(CURRENT)
    else if name == "PAST" then Some(PAST)
    else if name == "FUTURE" then Some(FUTURE)
    else if name == "WAITING" then Some(State.WAITING)
    else if name == "REJECTED" then Some(State.REJECTED)
    else if name == "UNSUPPORTED_STATUS" then Some(UNSUPPORTED_STATUS)
    else None
  }

  /**
   * `convert(source)`: `State.valueOf(source.toUpperCase())`, and
   * UNSUPPORTED_STATUS whenever that throws, including for a null source.
   */
  function Convert(source: Option<string>): State {
    match source
    case None => UNSUPPORTED_STATUS
    case Some(s) =>
      match ValueOf(Text.ToUpper(s))
      case Some(st) => st
      case None => UNSUPPORTED_STATUS
  }

  /** Every constant name is already upper case. */
  lemma NameIsUpper(st: State)
    ensures Text.ToUpper(Name(st)) == Name(st)
  {
    var n := Name(st);
    assert forall i :: 0 <= i < |n| ==> !('a' <= n[i] <= 'z');
    assert Text.ToUpper(n) == n;
  }

  /** Each constant's own name converts to it. */
  lemma ConvertName(st: State)
    ensures Convert(Some(Name(st))) == st
  {
    NameIsUpper(st);
  }

  /** Conversion ignores case: a string and its upper-case form convert alike. */
  lemma ConvertIgnoresCase(s: string)
    ensures Convert(Some(s)) == Convert(Some(Text.ToUpper(s)))
    ensures Convert(Some(s)) == Convert(Some(Text.ToLower(s)))
  {
    Text.UpperIdempotent(s);
    Text.UpperOfLower(s);
  }

  /** A constant's name in lower case still converts to that constant. */
  lemma ConvertLowerName(st: State)
    ensures Convert(Some(Text.ToLower(Name(st)))) == st
  {
    ConvertIgnoresCase(Name(st));
    ConvertName(st);
  }

  /** A string whose upper-case form names no constant converts to UNSUPPORTED_STATUS. */
  lemma ConvertUnknown(s: string)
    requires forall st: State :: Name(st) != Text.ToUpper(s)
    ensures Convert(Some(s)) == UNSUPPORTED_STATUS
  {
  }

  /** Conversion is the identity on its own results: converting the result's name gives it back. */
  lemma ConvertStable(source: Option<string>)
    ensures Convert(Some(Name(Convert(source)))) == Convert(source)
  {
    ConvertName(Convert(source));
  }

  /** Only the name UNSUPPORTED_STATUS itself, or a string naming nothing, converts to UNSUPPORTED_STATUS. */
  lemma ConvertUnsupportedExactly(s: string)
    ensures Convert(Some(s)) == UNSUPPORTED_STATUS <==>
      (Text.ToUpper(s) == "UNSUPPORTED_STATUS" || forall st: State :: Name(st) != Text.ToUpper(s))
  {
    var u := Text.ToUpper(s);
    if Convert(Some(s)) == UNSUPPORTED_STATUS && u != "UNSUPPORTED_STATUS" {
      assert ValueOf(u).None?;
    }
  }
}
