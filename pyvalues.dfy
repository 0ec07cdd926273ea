/**
  The loosely typed values an instance is made of, whether they come from
  json.loads, from the DZN-like parser or from the constraint engine, with
  the three Python conversions the core applies to them: int(v), bool(v)
  and indexing v[i].
*/
module PyValues {
  import opened Wrappers
  import opened Text

  type Pos = n: int | n > 0 witness 1

  datatype Value =
    | VNone
    | VBool(b: bool)
    | VInt(i: int)
    | VFloat(num: int, den: Pos)          // the finite float num / den
    | VStr(s: string)
    | VList(items: seq<Value>)
    | VObject(fields: map<string, Value>)

  /** int(x) for the float x = num / den: truncation toward zero, so the
      result never lies farther from zero than x. */
  function Truncate(num: int, den: Pos): (r: int)
    ensures num >= 0 ==> 0 <= r * den <= num < r * den + den
    ensures num < 0 ==> r * den - den < num <= r * den <= 0
  {
    var a := if num >= 0 then num else -num;
    var q := a / den;
    assert a == q * den + a % den && 0 <= a % den < den;
    assert 0 <= q * den by { assert q >= 0; }
    if num >= 0 then q else
      assert -q * den == -(q * den);
      -q
  }

  /** int(v), or None where Python raises ValueError or TypeError. A string
      is stripped and must then be an optional sign and decimal digits. */
  function PyInt(v: Value): Option<int> {
    match v
    case VBool(b) => Some(if b then 1 else 0)
    case VInt(i) => Some(i)
    case VFloat(n, d) => Some(Truncate(n, d))
    case VStr(s) => ParseInt(Strip(s))
    case _ => None
  }

  /** bool(v): Python's truthiness, which never fails on these values. */
  predicate Truthy(v: Value) {
    match v
    case VNone => false
    case VBool(b) => b
    case VInt(i) => i != 0
    case VFloat(n, _) => n != 0
    case VStr(s) => s != []
    case VList(xs) => xs != []
    case VObject(m) => m != map[]
  }

  /** v[i] for an index i >= 0; a string yields its i-th character as a
      string. None where Python raises IndexError, KeyError or TypeError. */
  function Index(v: Value, i: nat): Option<Value> {
    match v
    case VList(xs) => if i < |xs| then Some(xs[i]) else None
    case VStr(s) => if i < |s| then Some(VStr([s[i]])) else None
    case _ => None
  }
}
