/** JSON values as they travel between the admin panel, the API and the
    document store, with JavaScript truthiness (`x || d`). Numbers are
    integers: every number the modelled code stores or compares is one. */
module Json {
  import opened Common

  datatype Value =
    | Null
    | Bool(b: bool)
    | Num(n: int)
    | Str(s: string)
    | Arr(items: seq<Value>)
    | Obj(fields: map<string, Value>)

  /** JavaScript truthiness: `null`, `false`, `0` and `''` are falsy; every
      array and object, even an empty one, is truthy. */
  predicate Truthy(v: Value)
  {
    match v
    case Null => false
    case Bool(b) => b
    case Num(n) => n != 0
    case Str(s) => s != ""
    case Arr(_) => true
    case Obj(_) => true
  }

  /** JavaScript `v || d` where a missing value reads as `undefined`. */
  function OrElse(v: Option<Value>, d: Value): (r: Value)
    ensures v.Some? && Truthy(v.value) ==> r == v.value
    ensures !(v.Some? && Truthy(v.value)) ==> r == d
  {
    match v
    case Some(x) => if Truthy(x) then x else d
    case None => d
  }

  /** Decimal rendering of a natural number (the keys `Object.keys` gives an array). */
  function NatToString(n: nat): (r: string)
    ensures |r| >= 1
    ensures forall c :: c in r ==> '0' <= c <= '9'
  {
    if n < 10 then [DigitChar(n)] else NatToString(n / 10) + [DigitChar(n % 10)]
  }

  function DigitChar(d: nat): (c: char)
    requires d < 10
    ensures '0' <= c <= '9'
  {
    "0123456789"[d]
  }
}
