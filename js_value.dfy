/** The dynamic values the core passes around (form values, answers, extension
    values), with JavaScript's truthiness, own-property access, object spread and
    string conversion. */
module JsValue {
  import opened Wrappers
  import opened JsText

  /** A JavaScript value. Objects are ordered lists of fields; `Date` is a date
      object, carrying the text it was parsed from. */
  datatype Value =
    | Str(s: string)
    | Bool(b: bool)
    | Int(i: int)
    | Null
    | Undef
    | Date(iso: string)
    | Arr(items: seq<Value>)
    | Obj(fields: seq<Field>)

  datatype Field = Field(key: string, val: Value)

  /** `""`, `null`, `undefined`, `false` and `0` are falsy; every object, including
      an empty array or object, is truthy. */
  predicate Truthy(v: Value) {
    match v
    case Str(s) => s != ""
    case Bool(b) => b
    case Int(i) => i != 0
    case Null => false
    case Undef => false
    case Date(_) => true
    case Arr(_) => true
    case Obj(_) => true
  }

  /** `typeof v === "object" && v !== null`. */
  predicate IsObject(v: Value) {
    v.Date? || v.Arr? || v.Obj?
  }

  predicate IsNullish(v: Value) {
    v.Null? || v.Undef?
  }

  /** `a ?? b`. */
  function Coalesce(a: Value, b: Value): (r: Value)
    ensures IsNullish(a) ==> r == b
    ensures !IsNullish(a) ==> r == a
  {
    if IsNullish(a) then b else a
  }

  function KeysOf(fields: seq<Field>): (ks: seq<string>)
    ensures |ks| == |fields|
    ensures forall i :: 0 <= i < |ks| ==> ks[i] == fields[i].key
  {
    if |fields| == 0 then [] else [fields[0].key] + KeysOf(fields[1..])
  }

  predicate HasKey(fields: seq<Field>, k: string) {
    k in KeysOf(fields)
  }

  /** `o[k]` on a plain object: the first field with that key, else `undefined`. */
  function Get(fields: seq<Field>, k: string): (r: Value)
    ensures !HasKey(fields, k) ==> r == Undef
  {
    if |fields| == 0 then Undef
    else if fields[0].key == k then fields[0].val
    else Get(fields[1..], k)
  }

  lemma {:induction false} ConsFields(f: Field, rest: seq<Field>)
    ensures KeysOf([f] + rest) == [f.key] + KeysOf(rest)
    ensures forall k :: Get([f] + rest, k) == if f.key == k then f.val else Get(rest, k)
  {
    assert ([f] + rest)[1..] == rest;
  }

  /** `{...o, [k]: v}`: an existing key keeps its place and takes the new value; a new
      key is appended. */
  function Put(fields: seq<Field>, k: string, v: Value): (r: seq<Field>)
    ensures Get(r, k) == v
    ensures forall k' :: k' != k ==> Get(r, k') == Get(fields, k')
    ensures HasKey(fields, k) ==> KeysOf(r) == KeysOf(fields)
    ensures !HasKey(fields, k) ==> KeysOf(r) == KeysOf(fields) + [k]
  {
    PutNewKey(fields, k, v);
    Spread(fields, k, v)
  }

  /** The field list of the spread, built field by field. */
  function Spread(fields: seq<Field>, k: string, v: Value): (r: seq<Field>)
    ensures Get(r, k) == v
    ensures forall k' :: k' != k ==> Get(r, k') == Get(fields, k')
    ensures HasKey(fields, k) ==> KeysOf(r) == KeysOf(fields)
  {
    if |fields| == 0 then [Field(k, v)]
    else
      ConsFields(fields[0], fields[1..]);
      assert [fields[0]] + fields[1..] == fields;
      if fields[0].key == k then
        ConsFields(Field(k, v), fields[1..]);
        [Field(k, v)] + fields[1..]
      else
        var rest := Spread(fields[1..], k, v);
        ConsFields(fields[0], rest);
        [fields[0]] + rest
  }

  /** A key the object lacks is appended after all of its keys. */
  lemma {:induction false} PutNewKey(fields: seq<Field>, k: string, v: Value)
    ensures !HasKey(fields, k) ==> KeysOf(Spread(fields, k, v)) == KeysOf(fields) + [k]
  {
    if |fields| > 0 && !HasKey(fields, k) {
      ConsFields(fields[0], fields[1..]);
      assert [fields[0]] + fields[1..] == fields;
      PutNewKey(fields[1..], k, v);
      ConsFields(fields[0], Spread(fields[1..], k, v));
    }
  }

  /** `Object.values(o)`. */
  function ValuesOf(fields: seq<Field>): (vs: seq<Value>)
    ensures |vs| == |fields|
    ensures forall i :: 0 <= i < |vs| ==> vs[i] == fields[i].val
  {
    if |fields| == 0 then [] else [fields[0].val] + ValuesOf(fields[1..])
  }

  /** An own property of an array or string: `"length"` or a canonical index below it. */
  predicate IsIndexKey(k: string, n: nat) {
    IsCanonicalIndex(k) && DecimalValue(k) < n
  }

  /** Whether `k in v` finds an own property of `v` (objects, arrays, strings). */
  predicate HasOwn(v: Value, k: string) {
    match v
    case Obj(fields) => HasKey(fields, k)
    case Arr(items) => k == "length" || IsIndexKey(k, |items|)
    case Str(s) => k == "length" || IsIndexKey(k, |s|)
    case _ => false
  }

  /** `v[k]` for an own property, `undefined` otherwise. */
  function Prop(v: Value, k: string): (r: Value)
    ensures !HasOwn(v, k) ==> r == Undef
  {
    match v
    case Obj(fields) => Get(fields, k)
    case Arr(items) =>
      if k == "length" then Int(|items|)
      else if IsIndexKey(k, |items|) then items[DecimalValue(k)]
      else Undef
    case Str(s) =>
      if k == "length" then Int(|s|)
      else if IsIndexKey(k, |s|) then Str([s[DecimalValue(k)]])
      else Undef
    case _ => Undef
  }

  /** `v?.[k]`: `undefined` when `v` is `null` or `undefined`. */
  function OptProp(v: Value, k: string): Value {
    if IsNullish(v) then Undef else Prop(v, k)
  }

  /** Element `i` of an array is found under the key `String(i)`. */
  lemma {:induction false} ArrayIndexProp(items: seq<Value>, i: nat)
    requires i < |items|
    ensures HasOwn(Arr(items), NatToDecimal(i)) && Prop(Arr(items), NatToDecimal(i)) == items[i]
  {
    DecimalIsCanonical(i);
  }

  function IndexFields(items: seq<Value>, from: nat): (r: seq<Field>)
    ensures |r| == |items|
    ensures forall i :: 0 <= i < |r| ==> r[i] == Field(NatToDecimal(from + i), items[i])
  {
    if |items| == 0 then [] else [Field(NatToDecimal(from), items[0])] + IndexFields(items[1..], from + 1)
  }

  function CharValues(s: string): (r: seq<Value>)
    ensures |r| == |s|
    ensures forall i :: 0 <= i < |s| ==> r[i] == Str([s[i]])
  {
    if |s| == 0 then [] else [Str([s[0]])] + CharValues(s[1..])
  }

  /** `Object.entries(v)`: the own enumerable string-keyed properties, in order.
      Arrays and strings enumerate their indices; other primitives and dates have none. */
  function Entries(v: Value): seq<Field> {
    match v
    case Obj(fields) => fields
    case Arr(items) => IndexFields(items, 0)
    case Str(s) => IndexFields(CharValues(s), 0)
    case _ => []
  }

  /** The text a `Date` converts to. Its weekday-first form starts with a letter; only
      that is observable in the core (`parseInt` of it is `NaN`). */
  function DateText(iso: string): (t: string)
    ensures |t| > 0 && 'A' <= t[0] <= 'Z'
  {
    "Date " + iso
  }

  /** `String(v)`, as a template literal `${v}` also writes it. */
  function ToJsString(v: Value): string {
    match v
    case Str(s) => s
    case Bool(b) => if b then "true" else "false"
    case Int(i) => IntToDecimal(i)
    case Null => "null"
    case Undef => "undefined"
    case Date(iso) => DateText(iso)
    case Arr(items) => Join(ElementTexts(items), ",")
    case Obj(_) => "[object Object]"
  }

  /** `Array.prototype.toString` writes `null` and `undefined` elements as empty text. */
  function ElementTexts(items: seq<Value>): (r: seq<string>)
    ensures |r| == |items|
  {
    if |items| == 0 then []
    else [if IsNullish(items[0]) then "" else ToJsString(items[0])] + ElementTexts(items[1..])
  }
}
