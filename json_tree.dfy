/**
 * The parsed JSON tree the configuration parser walks (an nlohmann::json value),
 * with the three queries the parser uses: `contains(key)`, `operator[]` on an
 * object, and `get<T>()` for the C++ types int, double, bool and std::string.
 * Lexing JSON text is not part of this model.
 */
module JsonTree {
  import opened Wrappers

  /** A JSON value. Integers are the parser's signed/unsigned 64-bit numbers, floats are reals. */
  datatype Json =
    | JNull
    | JBool(b: bool)
    | JInt(i: int)
    | JFloat(r: real)
    | JString(s: string)
    | JArray(items: seq<Json>)
    | JObject(fields: map<string, Json>)

  /** `json.contains(key)`: only an object has keys; every other value answers false. */
  predicate Has(j: Json, key: string) {
    j.JObject? && key in j.fields
  }

  /** `json[key]` for a key that is present. */
  function At(j: Json, key: string): Json
    requires Has(j, key)
  {
    j.fields[key]
  }

  const TWO_31: int := 0x8000_0000
  const TWO_32: int := 0x1_0000_0000

  predicate IsInt32(n: int) {
    -TWO_31 <= n < TWO_31
  }

  /** `static_cast<int>` of a wider integer: two's-complement wrap-around to 32 bits. */
  function ToInt32(n: int): (r: int)
    ensures IsInt32(r)
    ensures (r - n) % TWO_32 == 0
  {
    (n + TWO_31) % TWO_32 - TWO_31
  }

  /** The wrap-around leaves every value that already fits unchanged. */
  lemma ToInt32Identity(n: int)
    requires IsInt32(n)
    ensures ToInt32(n) == n
  {
    assert (n + TWO_31) % TWO_32 == n + TWO_31;
  }

  /** Conversion of a double to an integer type truncates toward zero. */
  function TruncateTowardZero(r: real): (n: int)
    ensures 0.0 <= r ==> n as real <= r < n as real + 1.0
    ensures r < 0.0 ==> n as real - 1.0 < r <= n as real
  {
    if r >= 0.0 then r.Floor else -((-r).Floor)
  }

  /**
   * `get<int>()`: any number converts (floats truncate, wider integers wrap),
   * and a boolean converts to 0 or 1; every other value is a type error.
   */
  function GetInt(j: Json): (r: Result<int, string>)
    ensures r.Ok? <==> (j.JInt? || j.JFloat? || j.JBool?)
    ensures r.Ok? ==> IsInt32(r.value)
    ensures j.JInt? && IsInt32(j.i) ==> r == Ok(j.i)
  {
    match j
    case JInt(n) => if IsInt32(n) then ToInt32Identity(n); Ok(n) else Ok(ToInt32(n))
    case JFloat(x) => Ok(ToInt32(TruncateTowardZero(x)))
    case JBool(b) => Ok(if b then 1 else 0)
    case _ => Err("number")
  }

  /** `get<double>()`: integers and floats convert; a boolean is a type error for double. */
  function GetDouble(j: Json): (r: Result<real, string>)
    ensures r.Ok? <==> (j.JInt? || j.JFloat?)
    ensures j.JFloat? ==> r == Ok(j.r)
    ensures j.JInt? ==> r == Ok(j.i as real)
  {
    match j
    case JInt(n) => Ok(n as real)
    case JFloat(x) => Ok(x)
    case _ => Err("number")
  }

  /** `get<std::string>()` */
  function GetString(j: Json): (r: Result<string, string>)
    ensures r.Ok? <==> j.JString?
    ensures j.JString? ==> r.value == j.s
  {
    if j.JString? then Ok(j.s) else Err("string")
  }

  /** `get<bool>()` */
  function GetBool(j: Json): (r: Result<bool, string>)
    ensures r.Ok? <==> j.JBool?
    ensures j.JBool? ==> r.value == j.b
  {
    if j.JBool? then Ok(j.b) else Err("boolean")
  }
}
