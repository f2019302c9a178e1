/** `getNestedFormAnswer`: looking a question's answer up in the nested form values. */
module FormAnswer {
  import opened JsValue

  /** The answer under `key`: an own property of the object itself first, then the
      first non-`undefined` result of searching its object-valued entries in order;
      `undefined` when no object on the way has the key. */
  function NestedAnswer(v: Value, key: string): (r: Value)
    requires IsObject(v)
    decreases v, 2
    ensures HasOwn(v, key) ==> r == Prop(v, key)
  {
    if HasOwn(v, key) then Prop(v, key)
    else match v
         case Obj(fields) => InFields(fields, key)
         case Arr(items) => InItems(items, key)
         case _ => Undef
  }

  /** The loop over an object's entries. */
  function InFields(fields: seq<Field>, key: string): Value
    decreases fields, 1
  {
    if |fields| == 0 then Undef
    else
      var first := if IsObject(fields[0].val) then NestedAnswer(fields[0].val, key) else Undef;
      if first != Undef then first else InFields(fields[1..], key)
  }

  /** The same loop over an array, whose entries are its elements in index order. */
  function InItems(items: seq<Value>, key: string): Value
    decreases items, 1
  {
    if |items| == 0 then Undef
    else
      var first := if IsObject(items[0]) then NestedAnswer(items[0], key) else Undef;
      if first != Undef then first else InItems(items[1..], key)
  }

  /** Whether `key` is an own property of `v` or of an object nested anywhere below it. */
  predicate Occurs(v: Value, key: string)
    decreases v, 2
  {
    HasOwn(v, key) ||
    match v
    case Obj(fields) => OccursInFields(fields, key)
    case Arr(items) => OccursInItems(items, key)
    case _ => false
  }

  predicate OccursInFields(fields: seq<Field>, key: string)
    decreases fields, 1
  {
    |fields| > 0 && ((IsObject(fields[0].val) && Occurs(fields[0].val, key)) || OccursInFields(fields[1..], key))
  }

  predicate OccursInItems(items: seq<Value>, key: string)
    decreases items, 1
  {
    |items| > 0 && ((IsObject(items[0]) && Occurs(items[0], key)) || OccursInItems(items[1..], key))
  }

  /** A key that occurs nowhere in the form values is answered with `undefined`. */
  lemma {:induction false} AbsentKey(v: Value, key: string)
    requires IsObject(v) && !Occurs(v, key)
    decreases v, 2
    ensures NestedAnswer(v, key) == Undef
  {
    match v
    case Obj(fields) => AbsentInFields(fields, key);
    case Arr(items) => AbsentInItems(items, key);
    case Date(_) =>
  }

  lemma {:induction false} AbsentInFields(fields: seq<Field>, key: string)
    requires !OccursInFields(fields, key)
    decreases fields, 1
    ensures InFields(fields, key) == Undef
  {
    if |fields| > 0 {
      if IsObject(fields[0].val) {
        AbsentKey(fields[0].val, key);
      }
      AbsentInFields(fields[1..], key);
    }
  }

  lemma {:induction false} AbsentInItems(items: seq<Value>, key: string)
    requires !OccursInItems(items, key)
    decreases items, 1
    ensures InItems(items, key) == Undef
  {
    if |items| > 0 {
      if IsObject(items[0]) {
        AbsentKey(items[0], key);
      }
      AbsentInItems(items[1..], key);
    }
  }

  /** A nested group's answer is found through the group's entry, provided no earlier
      entry holds the key. */
  lemma {:induction false} NestedInGroup(group: string, inner: seq<Field>, key: string, v: Value)
    requires group != key && !HasKey(inner, key) && v != Undef
    ensures NestedAnswer(Obj([Field(group, Obj(inner + [Field(key, v)]))]), key) == v
  {
    var fs := inner + [Field(key, v)];
    GetAppendedKey(inner, key, v);
    var outer := [Field(group, Obj(fs))];
    assert KeysOf(outer) == [group];
    assert outer[1..] == [];
  }

  lemma {:induction false} GetAppendedKey(inner: seq<Field>, key: string, v: Value)
    requires !HasKey(inner, key)
    ensures HasKey(inner + [Field(key, v)], key) && Get(inner + [Field(key, v)], key) == v
  {
    if |inner| > 0 {
      assert (inner + [Field(key, v)])[1..] == inner[1..] + [Field(key, v)];
      assert KeysOf(inner) == [inner[0].key] + KeysOf(inner[1..]);
      GetAppendedKey(inner[1..], key, v);
    }
  }

  /** The search as the source writes it: an own-key test, then a loop over the
      entries with an early return. */
  method GetNestedFormAnswer(v: Value, key: string) returns (r: Value)
    requires IsObject(v)
    decreases v, 2
    ensures r == NestedAnswer(v, key)
  {
    if HasOwn(v, key) {
      return Prop(v, key);
    }
    match v {
      case Obj(fields) => r := SearchFields(fields, key);
      case Arr(items) => r := SearchItems(items, key);
      case Date(_) => r := Undef;
    }
  }

  method SearchFields(fields: seq<Field>, key: string) returns (r: Value)
    decreases fields, 1
    ensures r == InFields(fields, key)
  {
    var i := 0;
    while i < |fields|
      invariant 0 <= i <= |fields|
      invariant InFields(fields, key) == InFields(fields[i..], key)
    {
      assert fields[i..][1..] == fields[i + 1..];
      if IsObject(fields[i].val) {
        var found := GetNestedFormAnswer(fields[i].val, key);
        if found != Undef {
          return found;
        }
      }
      i := i + 1;
    }
    return Undef;
  }

  method SearchItems(items: seq<Value>, key: string) returns (r: Value)
    decreases items, 1
    ensures r == InItems(items, key)
  {
    var i := 0;
    while i < |items|
      invariant 0 <= i <= |items|
      invariant InItems(items, key) == InItems(items[i..], key)
    {
      assert items[i..][1..] == items[i + 1..];
      if IsObject(items[i]) {
        var found := GetNestedFormAnswer(items[i], key);
        if found != Undef {
          return found;
        }
      }
      i := i + 1;
    }
    return Undef;
  }
}
