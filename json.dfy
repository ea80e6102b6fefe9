/** JavaScript values as the modelled code sees them (`unknown`): the primitive
    kinds it tests with `typeof`, arrays, plain objects and fetch `Headers`. */
module Json {
  import opened Wrappers
  import Text

  /** A JavaScript value. Numbers are integers (see README). Object fields keep
      their insertion order; the first field with a key is the one that is read.
      `HeaderBag` is a fetch `Headers` instance: its names are stored lower-cased. */
  datatype Value =
    | Undefined
    | Null
    | Bool(b: bool)
    | Num(n: int)
    | Str(s: string)
    | Arr(items: seq<Value>)
    | Obj(fields: seq<Field>)
    | HeaderBag(entries: map<string, string>)

  datatype Field = Field(key: string, val: Value)

  /** `typeof v === 'object' && v !== null` */
  predicate IsObject(v: Value) {
    v.Arr? || v.Obj? || v.HeaderBag?
  }

  /** JavaScript truthiness (`Boolean(v)`). */
  predicate Truthy(v: Value) {
    match v
    case Undefined => false
    case Null => false
    case Bool(b) => b
    case Num(n) => n != 0
    case Str(s) => s != []
    case _ => true
  }

  /** Index of the first field named `key`, if any. */
  function FindKey(fields: seq<Field>, key: string): (r: Option<nat>)
    ensures r.Some? ==> r.value < |fields| && fields[r.value].key == key
    ensures r.Some? ==> forall j :: 0 <= j < r.value ==> fields[j].key != key
    ensures r.None? ==> forall j :: 0 <= j < |fields| ==> fields[j].key != key
  {
    if fields == [] then None
    else if fields[0].key == key then Some(0)
    else
      match FindKey(fields[1..], key)
      case None => None
      case Some(i) => Some(i + 1)
  }

  /** `key in v` for an object. */
  predicate HasKey(v: Value, key: string) {
    v.Obj? && FindKey(v.fields, key).Some?
  }

  /** `v[key]`: the property's value, `undefined` when there is none. */
  function Get(v: Value, key: string): Value {
    if v.Obj? then
      match FindKey(v.fields, key)
      case Some(i) => v.fields[i].val
      case None => Undefined
    else Undefined
  }

  /** `typeof v === 'string' ? v : undefined` */
  function AsStr(v: Value): Option<string> {
    if v.Str? then Some(v.s) else None
  }

  /** `typeof v === 'number' ? v : undefined` */
  function AsNum(v: Value): Option<int> {
    if v.Num? then Some(v.n) else None
  }

  /** A value made from an optional string: the string, or `undefined`. */
  function OptStr(o: Option<string>): Value {
    if o.Some? then Str(o.value) else Undefined
  }

  /** A value made from an optional number: the number, or `undefined`. */
  function OptNum(o: Option<int>): Value {
    if o.Some? then Num(o.value) else Undefined
  }

  lemma {:induction false} AsStrOptStr(o: Option<string>)
    ensures AsStr(OptStr(o)) == o
  {
  }

  /** Reading a key right after it was written first gives the written value. */
  lemma {:induction false} GetFront(key: string, val: Value, rest: seq<Field>)
    ensures Get(Obj([Field(key, val)] + rest), key) == val
    ensures HasKey(Obj([Field(key, val)] + rest), key)
  {
  }

  /** Reading a key other than the first skips the first field. */
  lemma {:induction false} GetSkip(f: Field, rest: seq<Field>, key: string)
    requires f.key != key
    ensures Get(Obj([f] + rest), key) == Get(Obj(rest), key)
    ensures HasKey(Obj([f] + rest), key) == HasKey(Obj(rest), key)
  {
    assert ([f] + rest)[1..] == rest;
  }

  /** `headers.get(name)` of a fetch `Headers`: names compare case-insensitively. */
  function HeaderGet(entries: map<string, string>, name: string): Option<string> {
    var k := Text.ToLower(name);
    if k in entries then Some(entries[k]) else None
  }
}
