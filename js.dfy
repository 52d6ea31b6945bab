/** JavaScript values as `JSON.parse` produces them, and the few JavaScript
    operators the dashboard server applies to them: truthiness, optional
    property access `?.`, the `||` default, `.length` and `Number(...)`. */
module Js {

  datatype Option<+T> = None | Some(value: T) {
    function GetOr(otherwise: T): T {
      if Some? then value else otherwise
    }
  }

  /** `xs.map(f)` where computing element `i` either yields `xs[i].value`
      or throws (`None`): the whole map throws as soon as one element does. */
  function AllSome<T>(xs: seq<Option<T>>): (r: Option<seq<T>>)
    ensures r.None? <==> exists i | 0 <= i < |xs| :: xs[i].None?
    ensures r.Some? ==> |r.value| == |xs| && forall i | 0 <= i < |xs| :: Some(r.value[i]) == xs[i]
  {
    if xs == [] then Some([])
    else
      match xs[0]
      case None => None
      case Some(x) =>
        match AllSome(xs[1..])
        case None =>
          ghost var i :| 0 <= i < |xs[1..]| && xs[1..][i].None?;
          assert xs[i + 1].None?;
          None
        case Some(rest) =>
          Some([x] + rest)
  }

  /** A parsed JSON value. JSON numbers are modelled as integers. */
  datatype Json =
    | JNull
    | JBool(b: bool)
    | JNum(n: int)
    | JStr(s: string)
    | JArr(items: seq<Json>)
    | JObj(fields: map<string, Json>)

  /** JavaScript truthiness of a value; `None` stands for `undefined`. */
  predicate Truthy(v: Option<Json>) {
    match v
    case None => false
    case Some(j) =>
      match j
      case JNull => false
      case JBool(b) => b
      case JNum(n) => n != 0
      case JStr(s) => s != ""
      case _ => true
  }

  /** `v?.key` (and `v.key` on a value that is not null or undefined) for a
      plain field name: only objects have such properties. */
  function Prop(v: Option<Json>, key: string): (r: Option<Json>)
    ensures r.Some? <==> v.Some? && v.value.JObj? && key in v.value.fields
    ensures r.Some? ==> r.value == v.value.fields[key]
  {
    match v
    case Some(JObj(fields)) => if key in fields then Some(fields[key]) else None
    case _ => None
  }

  /** `v || otherwise` */
  function Or(v: Option<Json>, otherwise: Json): Json {
    if Truthy(v) then v.value else otherwise
  }

  /** `v?.length`: arrays and strings have a length, an object may carry a
      field named `length`, everything else is `undefined`. */
  function LengthProp(v: Option<Json>): Option<Json> {
    match v
    case Some(JArr(items)) => Some(JNum(|items|))
    case Some(JStr(s)) => Some(JNum(|s|))
    case Some(JObj(fields)) => if "length" in fields then Some(fields["length"]) else None
    case _ => None
  }

  predicate IsDigit(c: char) {
    '0' <= c <= '9'
  }

  predicate AllDigits(s: string) {
    forall i | 0 <= i < |s| :: IsDigit(s[i])
  }

  /** The value of a string of decimal digits. */
  function Decimal(s: string): nat
    requires AllDigits(s)
    decreases |s|
  {
    if s == "" then 0
    else 10 * Decimal(s[..|s| - 1]) + ((s[|s| - 1] as int) - ('0' as int))
  }

  /** What `Number(v)` gives: a number, NaN, or a thrown `TypeError`. */
  datatype Number = Num(n: int) | NaN | TypeError

  /** `String(v)` throws a `TypeError`: an object with an own `toString`
      field has no callable `toString` (a parsed value is never a
      function) and its inherited `valueOf` returns the object itself, and
      an array's text is the text of its elements. */
  predicate TextThrows(v: Json) {
    match v
    case JObj(fields) => "toString" in fields
    case JArr(items) => exists i | 0 <= i < |items| :: TextThrows(items[i])
    case _ => false
  }

  /** `Number(v)`. An object converts through its text: `"[object Object]"`,
      which is NaN, or a `TypeError` when it has an own `toString` field. An
      array converts through its text, the elements joined by commas: the
      empty array reads as `""`, an array of one element as that element's
      text (`""` for `null`, `"true"` or `"false"` for a boolean), and an
      array of two or more elements holds a comma and reads as NaN; the
      text of any element may throw first. */
  function NumberOf(v: Json): (r: Number)
    ensures r.TypeError? <==> TextThrows(v)
    ensures v.JNum? ==> r == Num(v.n)
    ensures v.JObj? ==> !r.Num?
    ensures v.JArr? && |v.items| >= 2 ==> !r.Num?
    ensures v.JStr? && !AllDigits(v.s) ==> r == NaN
  {
    match v
    case JNull => Num(0)
    case JBool(b) => Num(if b then 1 else 0)
    case JNum(n) => Num(n)
    case JStr(s) => if AllDigits(s) then Num(Decimal(s)) else NaN
    case JArr(items) =>
      if TextThrows(v) then TypeError
      else if |items| == 0 then Num(0)
      else if |items| == 1 then (if items[0].JBool? then NaN else NumberOf(items[0]))
      else NaN
    case JObj(fields) => if "toString" in fields then TypeError else NaN
  }

  /** `String(n)` of a natural number: its decimal digits. */
  function DecimalText(n: nat): (s: string)
    ensures s != "" && AllDigits(s)
  {
    if n < 10 then [('0' as int + n) as char]
    else DecimalText(n / 10) + [('0' as int + n % 10) as char]
  }

  /** Reading back the digits of a number gives the number. */
  lemma {:induction false} DecimalRoundTrip(n: nat)
    ensures Decimal(DecimalText(n)) == n
  {
    if n >= 10 {
      var s := DecimalText(n);
      assert s[..|s| - 1] == DecimalText(n / 10);
      DecimalRoundTrip(n / 10);
    }
  }

  /** `Number(String(n))` and `Number([String(n)])` both give back `n`: an
      id written as a digit string, bare or wrapped in a one-element array,
      compares as its number. */
  lemma NumberOfText(n: nat)
    ensures NumberOf(JStr(DecimalText(n))) == Num(n)
    ensures NumberOf(JArr([JStr(DecimalText(n))])) == Num(n)
  {
    DecimalRoundTrip(n);
  }

  /** `s.startsWith(prefix)` */
  predicate StartsWith(s: string, prefix: string) {
    |prefix| <= |s| && s[..|prefix|] == prefix
  }

  /** `s.endsWith(suffix)` */
  predicate EndsWith(s: string, suffix: string) {
    |suffix| <= |s| && s[|s| - |suffix|..] == suffix
  }
}
