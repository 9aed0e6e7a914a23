/**
 * The values a parsed JSON request body can hold for a field, and JavaScript's notion of
 * truthiness over them. A missing key is `None` (JavaScript's `undefined`).
 */
module Json {
  import opened Wrappers
  import opened Decimal

  datatype Value =
    | JNull
    | JBool(b: bool)
    | JInt(i: int)           // a number with no fractional part
    | JFraction              // a number with a non-zero fractional part
    | JStr(s: string)
    | JObject                // a nested object: always truthy, neither a string nor an integer

  /** A request body: field name to value; absent keys are `undefined`. */
  type Body = map<string, Value>

  function Lookup(body: Body, key: string): (v: Option<Value>)
    ensures v.Some? <==> key in body
    ensures v.Some? ==> v.value == body[key]
  {
    if key in body then Some(body[key]) else None
  }

  /** JavaScript truthiness: `undefined`, `null`, `false`, `0` and `""` are falsy. */
  predicate Truthy(v: Option<Value>)
  {
    match v
    case None => false
    case Some(JNull) => false
    case Some(JBool(b)) => b
    case Some(JInt(i)) => i != 0
    case Some(JFraction) => true
    case Some(JStr(s)) => s != ""
    case Some(JObject) => true
  }

  /** The `isString` check: the value's JavaScript type is string. */
  predicate IsString(v: Option<Value>)
  {
    v.Some? && v.value.JStr?
  }

  /**
   * The `isInt` check: the value's text form matches `^[-+]?[0-9]+$`. An integral number's
   * text always does; `undefined`, `null`, booleans, fractions and objects never do; a
   * string does when it is integer-looking.
   */
  predicate IsInt(v: Option<Value>)
  {
    match v
    case Some(JInt(_)) => true
    case Some(JStr(s)) => IntPattern(s)
    case _ => false
  }

  /** The integer an `isInt`-valid value stands for. */
  function IntOf(v: Option<Value>): (n: int)
    requires IsInt(v)
    ensures v.value.JStr? ==> ParseInt(v.value.s) == Some(n)
    ensures v.value.JInt? ==> n == v.value.i
  {
    match v.value
    case JInt(i) => i
    case JStr(s) => ParseInt(s).value
  }

  /**
   * An integer sent as its decimal text stands for that integer, and so does the text with a
   * `+` sign or a leading zero; a `-` sign negates the digits' value.
   */
  lemma IntOfReadsText(i: int, digits: string)
    requires |digits| >= 1 && AllDigits(digits)
    ensures IsInt(Some(JStr(IntToString(i)))) && IntOf(Some(JStr(IntToString(i)))) == i
    ensures IsInt(Some(JStr("+" + digits))) && IntOf(Some(JStr("+" + digits))) == DigitsValue(digits)
    ensures IsInt(Some(JStr("-" + digits))) && IntOf(Some(JStr("-" + digits))) == -(DigitsValue(digits) as int)
    ensures IsInt(Some(JStr("0" + digits))) && IntOf(Some(JStr("0" + digits))) == DigitsValue(digits)
  {
    IntToStringRoundTrip(i);
    assert ("+" + digits)[1..] == digits;
    assert ("-" + digits)[1..] == digits;
    LeadingZero(digits);
  }
}
