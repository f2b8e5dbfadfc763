/** The part of the Joi validation library that the two log-event schemas use,
    as a schema datatype and an interpreter over parsed JSON values. */
module Joi {
  import opened Json

  /** The string grammars whose code lives inside Joi and is not part of this
      model: isoDate() and ip({version: ['ipv4', 'ipv6'], cidr: 'forbidden'}). */
  datatype Grammars = Grammars(isIsoDate: string -> bool, isIpLiteral: string -> bool)

  /** One entry of an object's keys({...}): its name, its schema and whether
      it carries .required(). */
  datatype Key = Key(name: string, schema: Schema, required: bool)

  datatype Schema =
    | BoundedString(maxLength: nat, truncate: bool)  // Joi.string().max(n), with or without .truncate()
    | IsoDateString                                  // Joi.string().isoDate()
    | IpString                                       // Joi.string().ip({version: ['ipv4', 'ipv6'], cidr: 'forbidden'})
    | EnumString(values: seq<string>)                // Joi.string().valid([...])
    | BoundedPositiveInteger(max: nat)               // Joi.number().integer().positive().max(n)
    | ClosedObject(keys: seq<Key>)                   // Joi.object().keys({...}): no other keys allowed
    | OpenObject(maxKeys: nat)                       // Joi.object().unknown().max(n)
    | ArrayOf(item: Schema, minLength: nat)          // Joi.array().items(s), with .min(n) when n > 0
    | Nullable(inner: Schema)                        // s.allow(null)

  function Names(keys: seq<Key>): (names: set<string>)
    ensures forall i :: 0 <= i < |keys| ==> keys[i].name in names
  {
    set i | 0 <= i < |keys| :: keys[i].name
  }

  predicate DistinctNames(keys: seq<Key>) {
    forall i, j :: 0 <= i < j < |keys| ==> keys[i].name != keys[j].name
  }

  /** Joi's string() type refuses the empty string unless it is explicitly
      allowed, and none of the schemas here allow it. */
  predicate NonEmptyString(v: Value) {
    v.Str? && v.s != ""
  }

  /** Whether `v` passes schema `s`. With `truncating` false this is Joi under
      strict(), where no conversion runs and a max() on a string is a plain
      length test; with `truncating` true, a string schema carrying
      truncate() accepts any length, because conversion would cut it first. */
  predicate Conforms(v: Value, s: Schema, g: Grammars, truncating: bool)
    decreases s
  {
    match s
    case BoundedString(max, truncate) =>
      NonEmptyString(v) && (Utf16Length(v.s) <= max || (truncating && truncate))
    case IsoDateString => NonEmptyString(v) && g.isIsoDate(v.s)
    case IpString => NonEmptyString(v) && g.isIpLiteral(v.s)
    case EnumString(values) => v.Str? && v.s in values
    case BoundedPositiveInteger(max) => v.Num? && IsInteger(v.n) && 0.0 < v.n <= max as real
    case ClosedObject(keys) =>
      v.Obj?
      && (forall k :: k in v.fields ==> k in Names(keys))
      && (forall i :: 0 <= i < |keys| && keys[i].required ==> keys[i].name in v.fields)
      && (forall i :: 0 <= i < |keys| && keys[i].name in v.fields ==>
            Conforms(v.fields[keys[i].name], keys[i].schema, g, truncating))
    case OpenObject(maxKeys) => v.Obj? && |v.fields| <= maxKeys
    case ArrayOf(item, min) =>
      v.Arr? && |v.items| >= min
      && forall i :: 0 <= i < |v.items| ==> Conforms(v.items[i], item, g, truncating)
    case Nullable(inner) => v.Null? || Conforms(v, inner, g, truncating)
  }

  /** The index of the first key called `name`. */
  function IndexOf(keys: seq<Key>, name: string): (i: nat)
    requires name in Names(keys)
    ensures i < |keys| && keys[i].name == name
    ensures forall j :: 0 <= j < i ==> keys[j].name != name
  {
    if keys[0].name == name then 0
    else
      assert name in Names(keys[1..]) by {
        var j :| 0 <= j < |keys| && keys[j].name == name;
        assert keys[1..][j - 1] == keys[j];
      }
      1 + IndexOf(keys[1..], name)
  }

  /** What truncate() would make of `v` if conversion ran: every string under
      a truncating max(n) is cut to its longest prefix of at most n UTF-16
      code units; nothing else changes. */
  function Truncate(v: Value, s: Schema): (r: Value)
    ensures r.Null? == v.Null? && r.Bool? == v.Bool? && r.Num? == v.Num?
    ensures r.Str? == v.Str? && r.Arr? == v.Arr? && r.Obj? == v.Obj?
    ensures !v.Str? && !v.Arr? && !v.Obj? ==> r == v
    ensures v.Obj? ==> r.fields.Keys == v.fields.Keys
    ensures v.Arr? ==> |r.items| == |v.items|
    ensures v.Str? ==> r.s <= v.s
    decreases s
  {
    match s
    case BoundedString(max, truncate) =>
      if truncate && v.Str? then Str(Prefix16(v.s, max)) else v
    case ClosedObject(keys) =>
      if v.Obj? then
        Obj(map k | k in v.fields ::
              if k in Names(keys) then Truncate(v.fields[k], keys[IndexOf(keys, k)].schema) else v.fields[k])
      else v
    case ArrayOf(item, _) =>
      if v.Arr? then Arr(seq(|v.items|, i requires 0 <= i < |v.items| => Truncate(v.items[i], item)))
      else v
    case Nullable(inner) => if v.Null? then v else Truncate(v, inner)
    case _ => v
  }

  /** A schema in which truncation can always keep one character (every cap is
      at least two code units) and no object lists a key twice. */
  predicate WellFormed(s: Schema)
    decreases s
  {
    match s
    case BoundedString(max, _) => max >= 2
    case ClosedObject(keys) =>
      DistinctNames(keys) && forall i :: 0 <= i < |keys| ==> WellFormed(keys[i].schema)
    case ArrayOf(item, _) => WellFormed(item)
    case Nullable(inner) => WellFormed(inner)
    case _ => true
  }

  /** The names of a key list, given as a list of strings. */
  lemma NamesAre(keys: seq<Key>, names: seq<string>)
    requires |keys| == |names| && forall i :: 0 <= i < |keys| ==> keys[i].name == names[i]
    ensures forall n :: n in Names(keys) <==> n in names
  {
    forall n | n in names ensures n in Names(keys) {
      var i :| 0 <= i < |names| && names[i] == n;
      assert keys[i].name == n;
    }
  }

  /** Every key of a conforming object is one the schema lists, and when the
      schema requires all of them, the object has exactly the listed keys. */
  lemma ClosedObjectKeys(v: Value, keys: seq<Key>, g: Grammars, t: bool)
    requires Conforms(v, ClosedObject(keys), g, t)
    ensures v.Obj? && v.fields.Keys <= Names(keys)
    ensures (forall i :: 0 <= i < |keys| ==> keys[i].required) ==> v.fields.Keys == Names(keys)
  {
    if forall i :: 0 <= i < |keys| ==> keys[i].required {
      forall k | k in Names(keys) ensures k in v.fields {
        var i :| 0 <= i < |keys| && keys[i].name == k;
      }
    }
  }

  /** When every key is required, an object conforms exactly when it has the
      listed keys and no other, each with a conforming value. */
  lemma AllRequiredConforms(v: Value, keys: seq<Key>, g: Grammars, t: bool)
    requires forall i :: 0 <= i < |keys| ==> keys[i].required
    ensures Conforms(v, ClosedObject(keys), g, t) <==>
            v.Obj? && v.fields.Keys == Names(keys) &&
            forall i :: 0 <= i < |keys| ==> Conforms(v.fields[keys[i].name], keys[i].schema, g, t)
  {
    if Conforms(v, ClosedObject(keys), g, t) {
      ClosedObjectKeys(v, keys, g, t);
    }
  }

  /** The value of a listed key of a conforming object passes that key's schema. */
  lemma KeyConforms(v: Value, s: Schema, i: nat, g: Grammars, t: bool)
    requires s.ClosedObject? && i < |s.keys| && Conforms(v, s, g, t)
    ensures s.keys[i].required ==> s.keys[i].name in v.fields
    ensures s.keys[i].name in v.fields ==> Conforms(v.fields[s.keys[i].name], s.keys[i].schema, g, t)
  {
  }

  /** Within an object that conforms, replacing the value of a listed key
      keeps the object conforming exactly when the new value passes that
      key's own schema: the checks of an object's keys are independent. */
  lemma ReplaceKey(v: Value, s: Schema, i: nat, x: Value, g: Grammars, t: bool)
    requires s.ClosedObject? && i < |s.keys| && DistinctNames(s.keys)
    requires Conforms(v, s, g, t)
    ensures Conforms(WithField(v, s.keys[i].name, x), s, g, t) <==> Conforms(x, s.keys[i].schema, g, t)
  {
    var keys := s.keys;
    var k := keys[i].name;
    var w := WithField(v, k, x);
    assert w.fields == v.fields[k := x];
    if Conforms(w, s, g, t) {
      assert Conforms(w.fields[keys[i].name], keys[i].schema, g, t);
    }
    if Conforms(x, keys[i].schema, g, t) {
      assert forall n :: n in w.fields ==> n in Names(keys);
      assert forall j :: 0 <= j < |keys| && keys[j].required ==> keys[j].name in w.fields;
      forall j | 0 <= j < |keys| && keys[j].name in w.fields
        ensures Conforms(w.fields[keys[j].name], keys[j].schema, g, t)
      {
        if j != i {
          assert keys[j].name != k;
        }
      }
    }
  }

  /** Removing a listed key from a conforming object keeps it conforming
      exactly when that key is optional. */
  lemma RemoveKey(v: Value, s: Schema, i: nat, g: Grammars, t: bool)
    requires s.ClosedObject? && i < |s.keys| && DistinctNames(s.keys)
    requires Conforms(v, s, g, t)
    ensures Conforms(WithoutField(v, s.keys[i].name), s, g, t) <==> !s.keys[i].required
  {
    var keys := s.keys;
    var m' := v.fields - {keys[i].name};
    if !keys[i].required {
      forall j | 0 <= j < |keys| && keys[j].required ensures keys[j].name in m' {
        if j != i {
          assert keys[j].name != keys[i].name;
        }
      }
    }
  }

  /** ReplaceKey one level down: in a conforming object whose key `i` holds a
      nullable object schema `inner`, replacing key `j` of that inner object
      keeps the whole conforming exactly when the new value passes key `j`'s
      schema. */
  lemma ReplaceNested(v: Value, s: Schema, i: nat, inner: Schema, j: nat, x: Value, g: Grammars, t: bool)
    requires s.ClosedObject? && i < |s.keys| && DistinctNames(s.keys)
    requires s.keys[i].schema == Nullable(inner)
    requires inner.ClosedObject? && j < |inner.keys| && DistinctNames(inner.keys)
    requires Conforms(v, s, g, t) && s.keys[i].name in v.fields && v.fields[s.keys[i].name].Obj?
    ensures Conforms(WithField(v, s.keys[i].name, WithField(v.fields[s.keys[i].name], inner.keys[j].name, x)), s, g, t)
            <==> Conforms(x, inner.keys[j].schema, g, t)
  {
    var e := v.fields[s.keys[i].name];
    KeyConforms(v, s, i, g, t);
    ReplaceKey(e, inner, j, x, g, t);
    ReplaceKey(v, s, i, WithField(e, inner.keys[j].name, x), g, t);
  }

  /** RemoveKey one level down. */
  lemma RemoveNested(v: Value, s: Schema, i: nat, inner: Schema, j: nat, g: Grammars, t: bool)
    requires s.ClosedObject? && i < |s.keys| && DistinctNames(s.keys)
    requires s.keys[i].schema == Nullable(inner)
    requires inner.ClosedObject? && j < |inner.keys| && DistinctNames(inner.keys)
    requires Conforms(v, s, g, t) && s.keys[i].name in v.fields && v.fields[s.keys[i].name].Obj?
    ensures Conforms(WithField(v, s.keys[i].name, WithoutField(v.fields[s.keys[i].name], inner.keys[j].name)), s, g, t)
            <==> !inner.keys[j].required
  {
    var e := v.fields[s.keys[i].name];
    KeyConforms(v, s, i, g, t);
    RemoveKey(e, inner, j, g, t);
    ReplaceKey(v, s, i, WithoutField(e, inner.keys[j].name), g, t);
  }

  /** The strict reading accepts less: whatever passes without truncation
      also passes when truncate() may run. */
  lemma {:induction false} StrictImpliesTruncating(v: Value, s: Schema, g: Grammars)
    requires Conforms(v, s, g, false)
    ensures Conforms(v, s, g, true)
    decreases s
  {
    match s
    case ClosedObject(keys) =>
      forall i | 0 <= i < |keys| && keys[i].name in v.fields
        ensures Conforms(v.fields[keys[i].name], keys[i].schema, g, true)
      {
        StrictImpliesTruncating(v.fields[keys[i].name], keys[i].schema, g);
      }
    case ArrayOf(item, _) =>
      forall i | 0 <= i < |v.items| ensures Conforms(v.items[i], item, g, true) {
        StrictImpliesTruncating(v.items[i], item, g);
      }
    case Nullable(inner) =>
      if !v.Null? {
        StrictImpliesTruncating(v, inner, g);
      }
    case _ =>
  }

  /** A value accepted under the strict reading has no string over its cap,
      so truncation leaves it exactly as it was. */
  lemma {:induction false} TruncateKeepsStrict(v: Value, s: Schema, g: Grammars)
    requires Conforms(v, s, g, false)
    ensures Truncate(v, s) == v
    decreases s
  {
    match s
    case ClosedObject(keys) =>
      var r := Truncate(v, s);
      forall k | k in v.fields ensures r.fields[k] == v.fields[k] {
        var i := IndexOf(keys, k);
        TruncateKeepsStrict(v.fields[k], keys[i].schema, g);
      }
      assert r.fields == v.fields;
    case ArrayOf(item, _) =>
      var r := Truncate(v, s);
      forall i | 0 <= i < |v.items| ensures r.items[i] == v.items[i] {
        TruncateKeepsStrict(v.items[i], item, g);
      }
      assert r.items == v.items;
    case Nullable(inner) =>
      if !v.Null? {
        TruncateKeepsStrict(v, inner, g);
      }
    case _ =>
  }

  /** The other reading of truncate(): a value accepted when truncation may
      run is, once truncated, accepted under the strict reading. */
  lemma {:induction false} TruncateRepairs(v: Value, s: Schema, g: Grammars)
    requires WellFormed(s)
    requires Conforms(v, s, g, true)
    ensures Conforms(Truncate(v, s), s, g, false)
    decreases s
  {
    match s
    case ClosedObject(keys) =>
      var r := Truncate(v, s);
      forall i | 0 <= i < |keys| && keys[i].name in r.fields
        ensures Conforms(r.fields[keys[i].name], keys[i].schema, g, false)
      {
        var k := keys[i].name;
        assert IndexOf(keys, k) == i;
        TruncateRepairs(v.fields[k], keys[i].schema, g);
      }
    case ArrayOf(item, _) =>
      var r := Truncate(v, s);
      forall i | 0 <= i < |r.items| ensures Conforms(r.items[i], item, g, false) {
        TruncateRepairs(v.items[i], item, g);
      }
    case Nullable(inner) =>
      if !v.Null? {
        TruncateRepairs(v, inner, g);
      }
    case _ =>
  }

  /** Truncating twice is truncating once. */
  lemma {:induction false} TruncateIdempotent(v: Value, s: Schema)
    ensures Truncate(Truncate(v, s), s) == Truncate(v, s)
    decreases s
  {
    match s
    case ClosedObject(keys) =>
      if v.Obj? {
        var r := Truncate(v, s);
        var rr := Truncate(r, s);
        forall k | k in r.fields ensures rr.fields[k] == r.fields[k] {
          if k in Names(keys) {
            TruncateIdempotent(v.fields[k], keys[IndexOf(keys, k)].schema);
          }
        }
        assert rr.fields == r.fields;
      }
    case ArrayOf(item, _) =>
      if v.Arr? {
        var r := Truncate(v, s);
        var rr := Truncate(r, s);
        forall i | 0 <= i < |r.items| ensures rr.items[i] == r.items[i] {
          TruncateIdempotent(v.items[i], item);
        }
        assert rr.items == r.items;
      }
    case Nullable(inner) =>
      if !v.Null? {
        TruncateIdempotent(v, inner);
      }
    case _ =>
  }
}
