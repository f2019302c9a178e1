/** The per-type lookup tables of the questionnaire engine: default form values, the
    answer value key of each item type, the answer parsers and the key set of the
    render registry. */
module Constants {
  import opened Wrappers
  import opened JsValue
  import opened Fhir

  /** The default form value of an item type (`FORM_INITIAL_VALUES`); `None` when the
      table has no entry. */
  function FormInitialValue(t: ItemType): (r: Option<Value>)
    ensures r.Some? <==> t in {StringType, DateType, OpenChoice, Boolean, Group, Reference}
    ensures r.Some? ==> (Truthy(r.value) <==> t in {OpenChoice, Boolean, Group})
  {
    match t
    case StringType => Some(Str(""))
    case DateType => Some(Null)
    case OpenChoice => Some(Obj([]))
    case Boolean => Some(Bool(true))
    case Group => Some(Obj([]))
    case Reference => Some(Null)
    case _ => None
  }

  /** The answer `value[x]` key of an item type (`FORM_TYPE_VALUES`). */
  function FormTypeValue(t: ItemType): (r: Option<string>)
    ensures r.Some? <==> t in {StringType, DateType, Choice, OpenChoice, Boolean, Reference}
    ensures t in {StringType, Choice} ==> r == Some("valueString")
  {
    match t
    case StringType => Some("valueString")
    case DateType => Some("valueDate")
    case Choice => Some("valueString")
    case OpenChoice => Some("valueOpenChoice")
    case Boolean => Some("valueBoolean")
    case Reference => Some("valueReference")
    case _ => None
  }

  /** The three parser shapes of `VALUE_TYPE_PARSERS`. */
  datatype Parser = Identity | ParseDate | WrapCoding

  /** The parser registered for an answer value key. */
  function ParserOf(valueType: string): Option<Parser>
  {
    if valueType == "valueString" then Some(Identity)
    else if valueType == "valueDate" then Some(ParseDate)
    else if valueType == "valueBoolean" then Some(Identity)
    else if valueType == "valueCoding" then Some(WrapCoding)
    else if valueType == "valueReference" then Some(Identity)
    else None
  }

  /** Exactly five answer keys have a parser. */
  lemma {:induction false} ParserKeys(valueType: string)
    ensures ParserOf(valueType).Some?
        <==> valueType in {"valueString", "valueDate", "valueBoolean", "valueCoding", "valueReference"}
  {
  }

  /** Applying a parser: `valueDate` turns only text into a date object, `valueCoding`
      wraps its input, the others return it. */
  function ApplyParser(p: Parser, v: Value): (r: Value)
    ensures p == Identity ==> r == v
    ensures p == ParseDate ==> (v.Str? ==> r == Date(v.s)) && (!v.Str? ==> r == v)
    ensures p == WrapCoding ==> r.Obj? && KeysOf(r.fields) == ["valueCoding"] && Get(r.fields, "valueCoding") == v
  {
    match p
    case Identity => v
    case ParseDate => if v.Str? then Date(v.s) else v
    case WrapCoding => Obj([Field("valueCoding", v)])
  }

  /** A parser keeps a truthy input truthy. */
  lemma {:induction false} ApplyParserTruthy(p: Parser, v: Value)
    requires Truthy(v)
    ensures Truthy(ApplyParser(p, v))
  {
  }

  /** The item types the render registry (`FORMS_FIELDS`) has a component for. */
  datatype FieldKind = StringField | DateField | ChoiceField | BooleanField | GroupField | ReferenceField

  function FieldOf(t: ItemType): (r: Option<FieldKind>)
    ensures r.Some? <==> t in {StringType, DateType, Choice, Boolean, Group, Reference}
    ensures r == Some(GroupField) <==> t == Group
  {
    match t
    case StringType => Some(StringField)
    case DateType => Some(DateField)
    case Choice => Some(ChoiceField)
    case Boolean => Some(BooleanField)
    case Group => Some(GroupField)
    case Reference => Some(ReferenceField)
    case _ => None
  }

  /** `open-choice` has a default value and an answer key but no component to render it. */
  lemma {:induction false} OpenChoiceHasNoField()
    ensures FormInitialValue(OpenChoice).Some? && FormTypeValue(OpenChoice).Some?
    ensures FieldOf(OpenChoice).None?
  {
  }
}
