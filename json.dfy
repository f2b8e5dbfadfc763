/** Values as JSON.parse produces them, and the JavaScript string measures the
    schema rules use. */
module Json {

  /** A parsed JSON value. Numbers are IEEE doubles in JavaScript and are
      modelled as reals. Objects are maps: JSON.parse keeps only the last of
      several equal keys, and no rule of the model depends on key order. */
  datatype Value =
    | Null
    | Bool(b: bool)
    | Num(n: real)
    | Str(s: string)
    | Arr(items: seq<Value>)
    | Obj(fields: map<string, Value>)

  /** `v` with member `k` set to `x`; a value that is not an object is left alone. */
  function WithField(v: Value, k: string, x: Value): (r: Value)
    ensures v.Obj? ==> r.Obj? && r.fields.Keys == v.fields.Keys + {k} && r.fields[k] == x
    ensures v.Obj? ==> forall j :: j in v.fields && j != k ==> r.fields[j] == v.fields[j]
  {
    if v.Obj? then Obj(v.fields[k := x]) else v
  }

  /** `v` without member `k`; a value that is not an object is left alone. */
  function WithoutField(v: Value, k: string): (r: Value)
    ensures v.Obj? ==> r.Obj? && r.fields.Keys == v.fields.Keys - {k}
    ensures v.Obj? ==> forall j :: j in r.fields ==> r.fields[j] == v.fields[j]
  {
    if v.Obj? then Obj(v.fields - {k}) else v
  }

  /** True when the number has no fractional part (Joi's integer() rule). */
  predicate IsInteger(x: real) {
    x.Floor as real == x
  }

  /** UTF-16 code units one character takes: one inside the Basic
      Multilingual Plane, a surrogate pair outside it. */
  function CharUnits(c: char): (n: nat)
    ensures 1 <= n <= 2
    ensures n == 1 <==> c as int < 0x1_0000
  {
    if c as int < 0x1_0000 then 1 else 2
  }

  /** JavaScript's `String.prototype.length`: the number of UTF-16 code units. */
  function Utf16Length(s: string): (n: nat)
    ensures |s| <= n <= 2 * |s|
    ensures n == 0 <==> s == []
  {
    if s == [] then 0 else CharUnits(s[0]) + Utf16Length(s[1..])
  }

  /** The longest prefix of `s` whose UTF-16 length is at most `max`: what
      Joi's truncate() keeps of a string over its max(). */
  function Prefix16(s: string, max: nat): (r: string)
    ensures r <= s
    ensures Utf16Length(r) <= max
    ensures Utf16Length(s) <= max ==> r == s
    ensures r != s ==> Utf16Length(r) + CharUnits(s[|r|]) > max
    ensures max >= 2 && s != [] ==> r != []
  {
    if s == [] then []
    else if CharUnits(s[0]) <= max then [s[0]] + Prefix16(s[1..], max - CharUnits(s[0]))
    else []
  }
}
