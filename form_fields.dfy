/** The inputs of the generic resource form (`TextArea`, `DateTimeInput`, `TimeInput`,
    `ResourceInput`, `CodingInput`): each normalises a value into the triple it passes
    to `onChange`. */
module FormFields {
  import opened Wrappers
  import opened JsValue
  import FormState

  const MISSING_REQUIRED_FIELD := "Missing required field"

  datatype InputKind = TextAreaInput | DateTimeInput | TimeInput | ResourceInput | CodingInput

  /** `createReference(resource)`: `{reference: "<resourceType>/<id>"}` (the `display`
      part is not modelled). */
  function CreateReference(resource: Value): (r: Value)
    ensures r.Obj? && KeysOf(r.fields) == ["reference"]
  {
    Obj([Field("reference", Str(ToJsString(Prop(resource, "resourceType")) + "/" + ToJsString(Prop(resource, "id"))))])
  }

  /** The data a truthy value is reported as. */
  function Normalised(kind: InputKind, value: Value): Value {
    match kind
    case ResourceInput => CreateReference(value)
    case CodingInput => Arr([Obj([Field("coding", Arr([value]))])])
    case _ => value
  }

  /** `handleChange(value)`: a falsy value reports no data, with the missing-field error
      when the input is required; a truthy value reports its normalised data and no error. */
  function HandleChange(kind: InputKind, name: string, required: bool, value: Value): (e: FormState.Emit)
    ensures e.path == name
    ensures !Truthy(value) ==> e.data == Undef && e.error == (if required then Str(MISSING_REQUIRED_FIELD) else Undef)
    ensures Truthy(value) ==> e.error == Undef && e.data == Normalised(kind, value)
    ensures Truthy(value) && kind in {TextAreaInput, DateTimeInput, TimeInput} ==> e.data == value
  {
    if !Truthy(value) then
      FormState.Emit(name, Undef, if required then Str(MISSING_REQUIRED_FIELD) else Undef)
    else
      FormState.Emit(name, Normalised(kind, value), Undef)
  }

  /** The report an input makes once on mount: `handleChange(defaultValue)`. */
  function OnMount(kind: InputKind, name: string, required: bool, defaultValue: Value): FormState.Emit {
    HandleChange(kind, name, required, defaultValue)
  }

  /** A required input mounted without a default reports the missing-field error, and
      the form's submit then carries that error. */
  lemma {:induction false} RequiredWithoutDefault(kind: InputKind, name: string, errorMap: seq<Field>)
    requires forall i :: 0 <= i < |errorMap| ==> errorMap[i].val == Undef
    ensures OnMount(kind, name, true, Undef).error == Str(MISSING_REQUIRED_FIELD)
    ensures FormState.FirstDefined(ValuesOf(Put(errorMap, name, OnMount(kind, name, true, Undef).error)))
            == Str(MISSING_REQUIRED_FIELD)
  {
    var e := OnMount(kind, name, true, Undef);
    assert e.error == Str(MISSING_REQUIRED_FIELD);
    PutIntoUndefined(errorMap, name, e.error);
  }

  /** Putting a defined value into fields that are all undefined makes it the first
      defined value. */
  lemma {:induction false} PutIntoUndefined(fields: seq<Field>, k: string, v: Value)
    requires forall j :: 0 <= j < |fields| ==> fields[j].val == Undef
    requires v != Undef
    ensures FormState.FirstDefined(ValuesOf(Put(fields, k, v))) == v
  {
    if |fields| > 0 && fields[0].key != k {
      PutIntoUndefined(fields[1..], k, v);
      var rest := Put(fields[1..], k, v);
      assert Put(fields, k, v) == [fields[0]] + rest;
      assert ValuesOf([fields[0]] + rest)[1..] == ValuesOf(rest);
    }
  }
}
