/** Reading a JSON request body into a declared request model, the way the
    API's validation layer does it: a required field that is missing or of the
    wrong type is a 422, `null` on an optional field reads as "not given",
    a defaulted field that is absent takes its default, and keys the model
    does not declare are ignored. Values are not coerced between types.
    Each reader comes as a predicate (the field is acceptable) and a getter. */
module Fields {
  import opened Common
  import opened Json

  type Body = map<string, Value>

  /** The 422 for field `name`; the detail names the offending field. */
  function Invalid<T>(name: string): Result<T>
  {
    Err(Unprocessable, name)
  }

  predicate IsStrList(v: Value)
  {
    v.Arr? && forall i :: 0 <= i < |v.items| ==> v.items[i].Str?
  }

  /** The strings of an all-string JSON array. */
  function Strings(items: seq<Value>): (r: seq<string>)
    requires forall i :: 0 <= i < |items| ==> items[i].Str?
    ensures |r| == |items|
    ensures forall i :: 0 <= i < |r| ==> r[i] == items[i].s
  {
    if |items| == 0 then [] else [items[0].s] + Strings(items[1..])
  }

  /** A list of strings as a JSON array; `Strings` reads it back. */
  function StrArray(xs: seq<string>): (v: Value)
    ensures IsStrList(v) && Strings(v.items) == xs
  {
    Arr(seq(|xs|, i requires 0 <= i < |xs| => Str(xs[i])))
  }

  /** A required string. */
  predicate HasStr(body: Body, name: string)
  {
    name in body && body[name].Str?
  }

  /** A required instant (a number). */
  predicate HasNum(body: Body, name: string)
  {
    name in body && body[name].Num?
  }

  /** Absent and `null` both read as "not given". */
  predicate Given(body: Body, name: string)
  {
    name in body && body[name] != Null
  }

  /** The browser's test for a `required` text input bound to `body[name]`:
      the input shows nothing when the key is missing, `null` or the empty
      string, and the form is then not submitted. */
  predicate RequiredMissing(body: Body, name: string)
  {
    name !in body || body[name] == Null || body[name] == Str("")
  }

  /** A defaulted list of strings: absent or a list of strings (`null` is refused). */
  predicate StrListOk(body: Body, name: string)
  {
    name !in body || IsStrList(body[name])
  }

  function StrListOr(body: Body, name: string, default: seq<string>): (r: seq<string>)
    requires StrListOk(body, name)
    ensures name !in body ==> r == default
    ensures name in body ==> |r| == |body[name].items|
                             && forall i :: 0 <= i < |r| ==> body[name].items[i] == Str(r[i])
  {
    if name in body then Strings(body[name].items) else default
  }

  /** A defaulted string. */
  predicate StrOk(body: Body, name: string)
  {
    name !in body || body[name].Str?
  }

  function StrOr(body: Body, name: string, default: string): string
    requires StrOk(body, name)
  {
    if name in body then body[name].s else default
  }

  /** A defaulted integer. */
  predicate NumOk(body: Body, name: string)
  {
    name !in body || body[name].Num?
  }

  function NumOr(body: Body, name: string, default: int): int
    requires NumOk(body, name)
  {
    if name in body then body[name].n else default
  }

  /** Optional fields: not given, or given with the declared type. */
  predicate OptStrOk(body: Body, name: string)
  {
    !Given(body, name) || body[name].Str?
  }

  function OptStr(body: Body, name: string): (r: Option<string>)
    requires OptStrOk(body, name)
    ensures r.None? <==> !Given(body, name)
    ensures r.Some? ==> body[name] == Str(r.value)
  {
    if Given(body, name) then Some(body[name].s) else None
  }

  predicate OptBoolOk(body: Body, name: string)
  {
    !Given(body, name) || body[name].Bool?
  }

  function OptBool(body: Body, name: string): (r: Option<bool>)
    requires OptBoolOk(body, name)
    ensures r.None? <==> !Given(body, name)
    ensures r.Some? ==> body[name] == Bool(r.value)
  {
    if Given(body, name) then Some(body[name].b) else None
  }

  predicate OptNumOk(body: Body, name: string)
  {
    !Given(body, name) || body[name].Num?
  }

  function OptNum(body: Body, name: string): (r: Option<int>)
    requires OptNumOk(body, name)
    ensures r.None? <==> !Given(body, name)
    ensures r.Some? ==> body[name] == Num(r.value)
  {
    if Given(body, name) then Some(body[name].n) else None
  }

  predicate OptStrListOk(body: Body, name: string)
  {
    !Given(body, name) || IsStrList(body[name])
  }

  function OptStrList(body: Body, name: string): (r: Option<seq<string>>)
    requires OptStrListOk(body, name)
    ensures r.None? <==> !Given(body, name)
    ensures r.Some? ==> |r.value| == |body[name].items|
                        && forall i :: 0 <= i < |r.value| ==> body[name].items[i] == Str(r.value[i])
  {
    if Given(body, name) then Some(Strings(body[name].items)) else None
  }

  /** `Some(x)` as the JSON value `x`, `None` as `null`. */
  function OptStrValue(o: Option<string>): Value
  {
    if o.Some? then Str(o.value) else Null
  }
}
