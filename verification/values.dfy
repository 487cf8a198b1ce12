/**
 * Dynamically typed cell values of the `dict` rows that the records are
 * converted to and from (the pandas/CSV boundary), and the Python
 * conversions `float(x)` and `int(x)` applied to them.
 */
module Values {
  import opened Wrappers

  /** A dict value: a string, a float, an int, or pandas' missing marker `pd.NA`. */
  datatype Value = VStr(s: string) | VReal(r: real) | VInt(i: int) | VNA

  type Dict = map<string, Value>

  /** Python's `int(x)` on a float: truncation toward zero. */
  function Trunc(r: real): (n: int)
    ensures r >= 0.0 ==> n as real <= r < n as real + 1.0
    ensures r < 0.0 ==> n as real - 1.0 < r <= n as real
  {
    if r >= 0.0 then r.Floor else -((-r).Floor)
  }

  /** `float(v)`: None where Python raises (a missing marker, or a string; numeric strings are not modelled). */
  function AsFloat(v: Value): (r: Option<real>)
    ensures r.Some? <==> (v.VReal? || v.VInt?)
    ensures v.VReal? ==> r == Some(v.r)
    ensures v.VInt? ==> r == Some(v.i as real)
  {
    match v
    case VReal(x) => Some(x)
    case VInt(i) => Some(i as real)
    case _ => None
  }

  /** `int(v)`: None where Python raises. */
  function AsInt(v: Value): (r: Option<int>)
    ensures r.Some? <==> (v.VReal? || v.VInt?)
    ensures v.VInt? ==> r == Some(v.i)
  {
    match v
    case VInt(i) => Some(i)
    case VReal(x) => Some(Trunc(x))
    case _ => None
  }

  /** An optional float column as written: NA for None. */
  function EncodeReal(x: Option<real>): (v: Value)
    ensures CleanReal(v) == Some(x)
  {
    match x
    case Some(r) => VReal(r)
    case None => VNA
  }

  /** An optional integer column as written: NA for None. */
  function EncodeInt(x: Option<int>): (v: Value)
    ensures CleanInt(v) == Some(x)
  {
    match x
    case Some(i) => VInt(i)
    case None => VNA
  }

  /**
   * `clean_value(v)` for a float column: Some(None) for NA, Some(Some(x)) for
   * a number. Python hands any other value through unchanged; a typed field
   * has no place for a string, so the model reads one as None.
   */
  function CleanReal(v: Value): (r: Option<Option<real>>)
    ensures r == Some(None) <==> v.VNA?
    ensures r.None? <==> v.VStr?
  {
    match v
    case VNA => Some(None)
    case VReal(x) => Some(Some(x))
    case VInt(i) => Some(Some(i as real))
    case VStr(_) => None
  }

  /**
   * As `CleanReal` for a millisecond column; a float with no fractional part
   * is read as that integer. A string or a fractional float, which Python
   * would carry unchanged, has no place in an integer field and reads as None.
   */
  function CleanInt(v: Value): (r: Option<Option<int>>)
    ensures r == Some(None) <==> v.VNA?
    ensures v.VInt? ==> r == Some(Some(v.i))
  {
    match v
    case VNA => Some(None)
    case VInt(i) => Some(Some(i))
    case VReal(x) => if x == x.Floor as real then Some(Some(x.Floor)) else None
    case VStr(_) => None
  }
}
