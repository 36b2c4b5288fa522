/**
 * Parsed JSON values as the JavaScript code sees them, with the small set of
 * JavaScript operations the normalisation layer applies to them: truthiness,
 * property reads, optional chaining, `??`, `Object.values` and `for..of`.
 *
 * Objects are ordered association lists: the order of `fields` is the order in
 * which JavaScript enumerates the object's own keys, and several results of the
 * model (first collection with a schema, first non-empty row-id list, last
 * column name wins) depend on that order.
 */
module JsValues {
  import opened Wrappers

  datatype Json =
    | JNull
    | JBool(b: bool)
    | JNum(n: real)
    | JStr(s: string)
    | JArr(items: seq<Json>)
    | JObj(fields: seq<(string, Json)>)

  /** A runtime error JavaScript raises on an unexpected shape (a `TypeError`). */
  datatype Fault = TypeError

  /** JavaScript truthiness of a present value (`!!v`). JSON has no NaN, so a number is falsy only when zero. */
  predicate Truthy(v: Json) {
    match v
    case JNull => false
    case JBool(b) => b
    case JNum(n) => n != 0.0
    case JStr(s) => s != ""
    case JArr(_) => true
    case JObj(_) => true
  }

  /** Truthiness of a possibly absent value: `undefined` is falsy. */
  predicate TruthyOpt(v: Option<Json>) {
    v.Some? && Truthy(v.value)
  }

  /** `typeof v === "object" && v !== null` (arrays are objects to `typeof`). */
  predicate IsObjectLike(v: Json) {
    v.JArr? || v.JObj?
  }

  /** True when the value is present and is the string `s` (`v === s`). */
  predicate IsString(v: Option<Json>, s: string) {
    v == Some(JStr(s))
  }

  /** The value of the first member named `key`. */
  function Lookup(fields: seq<(string, Json)>, key: string): (r: Option<Json>)
    ensures r.None? <==> forall i | 0 <= i < |fields| :: fields[i].0 != key
    ensures r.Some? ==>
      exists i | 0 <= i < |fields| ::
        fields[i] == (key, r.value) && forall j | 0 <= j < i :: fields[j].0 != key
  {
    if |fields| == 0 then None
    else if fields[0].0 == key then Some(fields[0].1)
    else
      var r := Lookup(fields[1..], key);
      assert forall i | 1 <= i < |fields| :: fields[i] == fields[1..][i - 1];
      r
  }

  /** `v[key]` for a named key: only objects carry named properties in this model. */
  function Get(v: Json, key: string): Option<Json> {
    match v
    case JObj(fields) => Lookup(fields, key)
    case _ => None
  }

  /** Optional chaining `v?.[key]`: an absent or null receiver gives `undefined`. */
  function At(v: Option<Json>, key: string): Option<Json> {
    match v
    case Some(x) => Get(x, key)
    case None => None
  }

  /** `v[i]` for an index: only arrays are indexed in this model. */
  function Index(v: Json, i: nat): Option<Json> {
    match v
    case JArr(items) => if i < |items| then Some(items[i]) else None
    case _ => None
  }

  /** `a ?? b`: fall back to `b` when `a` is `undefined` or `null`. */
  function Coalesce(a: Option<Json>, b: Json): Json {
    match a
    case Some(x) => if x.JNull? then b else x
    case None => b
  }

  /** The one-character strings of `s`, as `Object.values` and `for..of` yield them. */
  function Chars(s: string): seq<Json> {
    seq(|s|, i requires 0 <= i < |s| => JStr([s[i]]))
  }

  /** `Object.values(v)` for a non-null `v`; `Object.values(null)` throws. */
  function ObjectValues(v: Json): Result<seq<Json>, Fault> {
    match v
    case JNull => Failure(TypeError)
    case JBool(_) => Success([])
    case JNum(_) => Success([])
    case JStr(s) => Success(Chars(s))
    case JArr(items) => Success(items)
    case JObj(fields) => Success(seq(|fields|, i requires 0 <= i < |fields| => fields[i].1))
  }

  /** The sequence `for (const x of v)` walks; only arrays and strings are iterable in JSON. */
  function Iterate(v: Json): Result<seq<Json>, Fault> {
    match v
    case JArr(items) => Success(items)
    case JStr(s) => Success(Chars(s))
    case _ => Failure(TypeError)
  }

  /**
   * The property key JavaScript converts `v` to in `obj[v]`. Fractional
   * numbers, arrays and objects are not converted by this model and read as
   * no key at all.
   */
  function PropertyKey(v: Json): Option<string> {
    match v
    case JStr(s) => Some(s)
    case JNull => Some("null")
    case JBool(b) => Some(if b then "true" else "false")
    case JNum(n) =>
      if n != n.Floor as real then None
      else if n >= 0.0 then Some(DecimalString(n.Floor))
      else Some("-" + DecimalString(-n.Floor))
    case _ => None
  }

  /** `obj[k]` where the key is itself a JSON value. */
  function GetByValue(obj: Json, k: Json): Option<Json> {
    match PropertyKey(k)
    case Some(key) => Get(obj, key)
    case None => None
  }

  /** The decimal spelling of `n`, as JavaScript spells array indices used as keys. */
  function DecimalString(n: nat): (r: string)
    ensures |r| > 0
    decreases n
  {
    var digit := [('0' as int + n % 10) as char];
    if n < 10 then digit else DecimalString(n / 10) + digit
  }

  /**
   * `Object.entries(v)` for a non-null `v`: an object's members in order,
   * an array's or a string's elements under their decimal indices, nothing for
   * numbers and booleans.
   */
  function Entries(v: Json): seq<(string, Json)> {
    match v
    case JObj(fields) => fields
    case JArr(items) => seq(|items|, i requires 0 <= i < |items| => (DecimalString(i), items[i]))
    case JStr(s) => seq(|s|, i requires 0 <= i < |s| => (DecimalString(i), JStr([s[i]])))
    case _ => []
  }

  function DigitValue(c: char): nat
    requires '0' <= c <= '9'
  {
    c as int - '0' as int
  }

  predicate AllDigits(s: string) {
    forall k | 0 <= k < |s| :: '0' <= s[k] <= '9'
  }

  /** The value of a non-empty string of decimal digits. */
  function DigitsValue(s: string): nat
    requires AllDigits(s)
  {
    if |s| == 0 then 0 else DigitsValue(s[..|s| - 1]) * 10 + DigitValue(s[|s| - 1])
  }

  /**
   * `Number(raw)` for decimal integer spellings with an optional leading `-`,
   * the form `String(n)` gives an integer. `None` stands for every other
   * spelling: NaN, and also the forms this model does not parse (surrounding
   * whitespace, fractions, exponents, hexadecimal, `Infinity`). The empty
   * string, which JavaScript reads as 0, is left to the callers.
   */
  function NumberOf(raw: string): Option<int> {
    if |raw| > 0 && AllDigits(raw) then Some(DigitsValue(raw))
    else if |raw| > 1 && raw[0] == '-' && AllDigits(raw[1..]) then Some(0 - DigitsValue(raw[1..]))
    else None
  }

  /**
   * `Number(v)` for a JSON value, the conversion behind `v > 0` and `now - v`:
   * numbers as they are, `true` as 1, `false` and `null` as 0, a string by
   * `NumberOf` with the empty string as 0. An array converts through its
   * `join(",")` text: the empty array is 0, a one-element array converts
   * like its element (a `null` element is the empty text, a boolean one is
   * NaN), and two or more elements hold a comma, which no number does. An
   * object's text is `"[object Object]"`. `None` stands for NaN.
   */
  function ToNumber(v: Json): (r: Option<real>)
    ensures v.JNum? ==> r == Some(v.n)
    ensures v.JObj? ==> r.None?
    ensures v.JArr? && |v.items| == 0 ==> r == Some(0.0)
    ensures v.JArr? && |v.items| == 1 && !v.items[0].JBool? ==> r == ToNumber(v.items[0])
    ensures v.JArr? && |v.items| == 1 && v.items[0].JBool? ==> r.None?
    ensures v.JArr? && |v.items| > 1 ==> r.None?
  {
    match v
    case JNum(n) => Some(n)
    case JBool(b) => Some(if b then 1.0 else 0.0)
    case JNull => Some(0.0)
    case JStr(s) => StringToNumber(s)
    case JArr(items) =>
      if |items| == 0 then Some(0.0)
      else if |items| > 1 then None
      else if items[0].JBool? then None
      else ToNumber(items[0])
    case JObj(_) => None
  }

  /** `Number(s)`: the empty string is 0; otherwise `NumberOf`. */
  function StringToNumber(s: string): (r: Option<real>)
    ensures s == "" ==> r == Some(0.0)
  {
    if s == "" then Some(0.0)
    else match NumberOf(s)
      case Some(i) => Some(i as real)
      case None => None
  }

  /** Arrays convert through their text: `[5]`, `["5"]` and `[[5]]` are 5, `[null]` is 0, `[true]` and `[1, 2]` are NaN. */
  lemma ToNumberArrays()
    ensures ToNumber(JArr([JNum(5.0)])) == Some(5.0)
    ensures ToNumber(JArr([JStr("5")])) == Some(5.0)
    ensures ToNumber(JArr([JArr([JNum(5.0)])])) == Some(5.0)
    ensures ToNumber(JArr([JNull])) == Some(0.0)
    ensures ToNumber(JArr([JBool(true)])).None?
    ensures ToNumber(JArr([JNum(1.0), JNum(2.0)])).None?
  {
    assert NumberOf("5") == Some(5) by {
      assert AllDigits("5");
      assert DigitsValue("5") == DigitsValue("") * 10 + DigitValue('5');
    }
  }
}
