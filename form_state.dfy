/** The generic resource form (`Form` and `Form.NestedField`): the nested field's
    list of entries with a parallel list of error objects, and the form's data and
    error map. */
module FormState {
  import opened Wrappers
  import opened JsValue

  /** What the `onChange` callback receives: a path, the data and the error. */
  datatype Emit = Emit(path: string, data: Value, error: Value)

  /** A nested field's `defaultData`: absent, one object, or a list of objects. */
  datatype DefaultData = NoDefault | One(obj: seq<Field>) | Many(objs: seq<seq<Field>>)

  /** `getDefaultData()`: a list is kept, one object is wrapped, an absent default is `[]`. */
  function DefaultEntries(d: DefaultData): (r: seq<seq<Field>>)
    ensures d.NoDefault? ==> r == []
    ensures d.One? ==> r == [d.obj]
    ensures d.Many? ==> r == d.objs
  {
    match d
    case NoDefault => []
    case One(o) => [o]
    case Many(list) => list
  }

  /** A list of `{}` as long as the list given. */
  function EmptyObjects(n: nat): (r: seq<seq<Field>>)
    ensures |r| == n && forall i :: 0 <= i < n ==> r[i] == []
  {
    if n == 0 then [] else EmptyObjects(n - 1) + [[]]
  }

  /** The list of entries as an array value. */
  function Objects(entries: seq<seq<Field>>): (r: seq<Value>)
    ensures |r| == |entries| && forall i :: 0 <= i < |r| ==> r[i] == Obj(entries[i])
  {
    if |entries| == 0 then [] else [Obj(entries[0])] + Objects(entries[1..])
  }

  /** `values.find(v => v !== undefined)`, `undefined` when there is none. */
  function FirstDefined(vals: seq<Value>): (r: Value)
    ensures r == Undef <==> forall i :: 0 <= i < |vals| ==> vals[i] == Undef
    ensures r != Undef ==> exists i :: 0 <= i < |vals| && vals[i] == r && forall j :: 0 <= j < i ==> vals[j] == Undef
  {
    if |vals| == 0 then Undef
    else if vals[0] != Undef then vals[0]
    else
      var r := FirstDefined(vals[1..]);
      assert r != Undef ==> exists i :: 0 <= i < |vals[1..]| && vals[1..][i] == r && forall j :: 0 <= j < i ==> vals[1..][j] == Undef;
      assert r != Undef ==> exists i :: 1 <= i < |vals| && vals[i] == r && forall j :: 1 <= j < i ==> vals[j] == Undef;
      r
  }

  /** The message of one error object: its first defined value. */
  function Message(e: seq<Field>): Value {
    FirstDefined(ValuesOf(e))
  }

  /** No error object before index `k` has a truthy message. */
  predicate NoMessageBefore(errors: seq<seq<Field>>, k: nat) {
    forall j :: 0 <= j < k && j < |errors| ==> !Truthy(Message(errors[j]))
  }

  /** `getError(errors)`: per error object, its first defined value; the first such value
      that is truthy is the error. An object whose first defined value is falsy (say `""`)
      is passed over even when a later value in it is truthy. */
  function ErrorOf(errors: seq<seq<Field>>): (r: Value)
    ensures r == Undef || Truthy(r)
    ensures r == Undef <==> NoMessageBefore(errors, |errors|)
    ensures r != Undef ==> exists k :: 0 <= k < |errors| && r == Message(errors[k]) && NoMessageBefore(errors, k)
  {
    if |errors| == 0 then Undef
    else
      var m := Message(errors[0]);
      if Truthy(m) then
        assert NoMessageBefore(errors, 0);
        m
      else
        var r := ErrorOf(errors[1..]);
        NoMessageShift(errors);
        if r != Undef then
          var k :| 0 <= k < |errors[1..]| && r == Message(errors[1..][k]) && NoMessageBefore(errors[1..], k);
          assert errors[1..][k] == errors[k + 1];
          r
        else r
  }

  /** Dropping an error object without a truthy message shifts `NoMessageBefore`. */
  lemma {:induction false} NoMessageShift(errors: seq<seq<Field>>)
    requires |errors| > 0 && !Truthy(Message(errors[0]))
    ensures forall k :: 0 <= k <= |errors| - 1 ==> (NoMessageBefore(errors[1..], k) <==> NoMessageBefore(errors, k + 1))
  {
    assert forall j :: 1 <= j < |errors| ==> errors[j] == errors[1..][j - 1];
  }

  /** The loop of `getError`, with its early return. */
  method GetError(errors: seq<seq<Field>>) returns (r: Value)
    ensures r == ErrorOf(errors)
  {
    var i := 0;
    while i < |errors|
      invariant 0 <= i <= |errors|
      invariant ErrorOf(errors) == ErrorOf(errors[i..])
    {
      assert errors[i..][1..] == errors[i + 1..];
      var message := Message(errors[i]);
      if Truthy(message) {
        return message;
      }
      i := i + 1;
    }
    return Undef;
  }

  /** A list of error objects without any defined value yields no error. */
  lemma {:induction false} NoMessagesNoError(errors: seq<seq<Field>>)
    requires forall i, j :: 0 <= i < |errors| && 0 <= j < |errors[i]| ==> errors[i][j].val == Undef
    ensures ErrorOf(errors) == Undef
  {
    forall i | 0 <= i < |errors| ensures Message(errors[i]) == Undef {
      assert forall j :: 0 <= j < |ValuesOf(errors[i])| ==> ValuesOf(errors[i])[j] == errors[i][j].val;
    }
  }

  /** `splice(i, 1)`: index `i` is taken out when it exists. */
  function RemoveAt<T>(s: seq<T>, i: nat): (r: seq<T>)
    ensures i < |s| ==> |r| == |s| - 1 && r[..i] == s[..i] && r[i..] == s[i + 1..]
    ensures i >= |s| ==> r == s
  {
    if i < |s| then s[..i] + s[i + 1..] else s
  }

  class NestedField {
    const path: string
    var formData: seq<seq<Field>>
    var errorList: seq<seq<Field>>

    /** The two lists run in parallel. */
    predicate Valid()
      reads this
    {
      |formData| == |errorList|
    }

    constructor(path: string, defaultData: DefaultData)
      ensures this.path == path && formData == DefaultEntries(defaultData)
      ensures errorList == EmptyObjects(|DefaultEntries(defaultData)|)
      ensures Valid()
    {
      this.path := path;
      formData := DefaultEntries(defaultData);
      errorList := EmptyObjects(|DefaultEntries(defaultData)|);
    }

    /** A child at `index` reports `data` and `error` under `childPath`: only that entry's
        key changes, in both lists, and the new list and first error are reported. */
    method HandleChildChange(index: nat, childPath: string, data: Value, error: Value) returns (emitted: Emit)
      requires Valid() && index < |formData|
      modifies this
      ensures formData == old(formData)[index := Put(old(formData)[index], childPath, data)]
      ensures errorList == old(errorList)[index := Put(old(errorList)[index], childPath, error)]
      ensures emitted == Emit(path, Arr(Objects(formData)), ErrorOf(errorList))
      ensures Valid()
    {
      var changedData := Put(formData[index], childPath, data);
      formData := formData[index := changedData];
      var newError := Put(errorList[index], childPath, error);
      errorList := errorList[index := newError];
      var message := GetError(errorList);
      emitted := Emit(path, Arr(Objects(formData)), message);
    }

    /** `addItem()`: an empty entry and an empty error object are appended. */
    method AddItem() returns (emitted: Emit)
      requires Valid()
      modifies this
      ensures formData == old(formData) + [[]] && errorList == old(errorList) + [[]]
      ensures emitted == Emit(path, Arr(Objects(formData)), ErrorOf(errorList))
      ensures Valid()
    {
      formData := formData + [[]];
      errorList := errorList + [[]];
      var message := GetError(errorList);
      emitted := Emit(path, Arr(Objects(formData)), message);
    }

    /** `removeItem(index)`: the entry and its error object are taken out together. */
    method RemoveItem(index: nat) returns (emitted: Emit)
      requires Valid()
      modifies this
      ensures formData == RemoveAt(old(formData), index) && errorList == RemoveAt(old(errorList), index)
      ensures emitted == Emit(path, Arr(Objects(formData)), ErrorOf(errorList))
      ensures Valid()
    {
      formData := RemoveAt(formData, index);
      errorList := RemoveAt(errorList, index);
      var message := GetError(errorList);
      emitted := Emit(path, Arr(Objects(formData)), message);
    }
  }

  /** Removing an entry keeps the others in order: the entry after it moves down one. */
  lemma {:induction false} RemoveShifts<T>(s: seq<T>, i: nat, j: nat)
    requires i < |s| && j < |s| - 1
    ensures RemoveAt(s, i)[j] == if j < i then s[j] else s[j + 1]
  {
    var r := RemoveAt(s, i);
    if j < i {
      assert r[..i][j] == s[..i][j];
    } else {
      assert r[i..][j - i] == s[i + 1..][j - i];
    }
  }

  class Form {
    var formData: Option<seq<Field>>
    var errorMap: seq<Field>

    constructor(defaultData: Option<seq<Field>>)
      ensures formData == defaultData && errorMap == []
    {
      formData := defaultData;
      errorMap := [];
    }

    /** `handleChange(path, data, error)`: the path's error and data are set (from an
        absent default, the data starts as `{}`); other keys are kept. */
    method HandleChange(path: string, data: Value, error: Value)
      modifies this
      ensures errorMap == Put(old(errorMap), path, error)
      ensures formData == Some(Put(old(formData).GetOr([]), path, data))
    {
      errorMap := Put(errorMap, path, error);
      formData := Some(Put(formData.GetOr([]), path, data));
    }

    /** `handleSubmit()`: the data and the first defined error of the error map. */
    method HandleSubmit() returns (data: Option<seq<Field>>, error: Value)
      ensures data == formData && error == FirstDefined(ValuesOf(errorMap))
    {
      data := formData;
      error := FirstDefined(ValuesOf(errorMap));
    }
  }

  /** Reporting `undefined` for the only path that had an error clears the form's error. */
  lemma {:induction false} ClearingLastError(m: seq<Field>, path: string)
    requires forall i :: 0 <= i < |m| && m[i].key != path ==> m[i].val == Undef
    requires forall i, j :: 0 <= i < j < |m| ==> m[i].key != m[j].key
    ensures FirstDefined(ValuesOf(Put(m, path, Undef))) == Undef
  {
    if |m| > 0 {
      ConsFields(m[0], m[1..]);
      assert [m[0]] + m[1..] == m;
      if m[0].key == path {
        var r := [Field(path, Undef)] + m[1..];
        assert Put(m, path, Undef) == r;
        forall i | 0 <= i < |r| ensures ValuesOf(r)[i] == Undef {
          if i > 0 { assert r[i] == m[i]; assert m[i].key != m[0].key; }
        }
      } else {
        ClearingLastError(m[1..], path);
        var rest := Put(m[1..], path, Undef);
        assert Put(m, path, Undef) == [m[0]] + rest;
        var r := [m[0]] + rest;
        forall i | 0 <= i < |r| ensures ValuesOf(r)[i] == Undef {
          if i > 0 { assert ValuesOf(rest)[i - 1] == Undef; }
        }
      }
    }
  }
}
