/** The parts of the HL7 FHIR R4 `Questionnaire` and `QuestionnaireResponse`
    resources that the questionnaire engine reads and writes. */
module Fhir {
  import opened Wrappers
  import opened JsValue

  /** The extension whose `CodeableConcept` names the form control of an item. */
  const ITEM_CONTROL_URL := "http://hl7.org/fhir/StructureDefinition/questionnaire-itemControl"

  /** An extension, with the content of its `value[x]`. */
  datatype Extension = Extension(url: string, value: Value)

  /** The codes of `Questionnaire.item.type` (value set `item-type` of FHIR R4). */
  datatype ItemType =
    | Group | Display | Boolean | Decimal | Integer | DateType | DateTime | Time
    | StringType | Text | Url | Choice | OpenChoice | Attachment | Reference | Quantity

  /** The codes of `Questionnaire.item.enableWhen.operator` (FHIR R4). */
  datatype Operator = Exists | Eq | Ne | Gt | Lt | Ge | Le

  /** One `enableWhen` entry: the question it refers to, the operator and the two
      operand kinds the gate reads. */
  datatype EnableWhen = EnableWhen(
    question: string,
    operator: Operator,
    answerString: Option<string>,
    answerInteger: Option<int>)

  /** A `value[x]` with its type name, as the typed-value accessor returns it; an
      answer option without a value has `value == Undef`. */
  datatype TypedValue = TypedValue(valueType: string, value: Value)

  /** `item.item`: absent, or a (possibly empty) list of child items. */
  datatype ItemList = NoItems | Items(items: seq<Item>)

  /** A `Questionnaire.item`. */
  datatype Item = Item(
    id: Option<string>,
    linkId: string,
    definition: Option<string>,
    text: Option<string>,
    itemType: ItemType,
    required: bool,
    extension: Option<seq<Extension>>,
    modifierExtension: Option<seq<Extension>>,
    children: ItemList,
    answerValueSet: Option<string>,
    answerOption: seq<TypedValue>,
    enableWhen: seq<EnableWhen>)

  /** `responseItem.item`: absent, or a list of child response items. */
  datatype RespList = NoRespItems | RespItems(items: seq<RespItem>)

  /** A `QuestionnaireResponse.item`; each answer is the answer object as a value
      (for example `{valueString: "x"}`). */
  datatype RespItem = RespItem(
    id: Option<string>,
    linkId: string,
    definition: Option<string>,
    text: Option<string>,
    extension: Option<seq<Extension>>,
    modifierExtension: Option<seq<Extension>>,
    answer: Option<seq<Value>>,
    children: RespList)

  datatype Questionnaire = Questionnaire(id: Option<string>, items: ItemList)

  datatype QuestionnaireResponse = QuestionnaireResponse(id: Option<string>, items: RespList)

  /** `item.item ?? []`. */
  function ChildItems(l: ItemList): seq<Item> {
    match l
    case NoItems => []
    case Items(items) => items
  }

  /** `responseItem.item ?? []`. */
  function ChildResps(l: RespList): seq<RespItem> {
    match l
    case NoRespItems => []
    case RespItems(items) => items
  }

  /** The index of the first item with the linkId (`findIndex`), or `|items|` when none has it. */
  function ItemIndex(items: seq<Item>, linkId: string): (k: nat)
    ensures k <= |items|
    ensures forall j :: 0 <= j < k ==> items[j].linkId != linkId
    ensures k < |items| ==> items[k].linkId == linkId
  {
    if |items| == 0 then 0 else if items[0].linkId == linkId then 0 else 1 + ItemIndex(items[1..], linkId)
  }

  /** The index of the first response item with the linkId, or `|items|` when none has it. */
  function RespIndex(items: seq<RespItem>, linkId: string): (k: nat)
    ensures k <= |items|
    ensures forall j :: 0 <= j < k ==> items[j].linkId != linkId
    ensures k < |items| ==> items[k].linkId == linkId
  {
    if |items| == 0 then 0 else if items[0].linkId == linkId then 0 else 1 + RespIndex(items[1..], linkId)
  }

  /** `items.find(i => i.linkId === linkId)` over response items. */
  function FindResp(items: seq<RespItem>, linkId: string): (r: Option<RespItem>)
    ensures r.None? <==> forall j :: 0 <= j < |items| ==> items[j].linkId != linkId
    ensures r.Some? ==> RespIndex(items, linkId) < |items| && r.value == items[RespIndex(items, linkId)]
  {
    var k := RespIndex(items, linkId);
    if k < |items| then Some(items[k]) else None
  }

  /** The value of the first extension with the given url, else `undefined`. */
  function ExtensionValue(exts: Option<seq<Extension>>, url: string): (r: Value)
    ensures exts.None? ==> r == Undef
    ensures exts.Some? && (forall i :: 0 <= i < |exts.value| ==> exts.value[i].url != url) ==> r == Undef
  {
    match exts
    case None => Undef
    case Some(list) => FirstExtensionValue(list, url)
  }

  function FirstExtensionValue(list: seq<Extension>, url: string): (r: Value)
    ensures (forall i :: 0 <= i < |list| ==> list[i].url != url) ==> r == Undef
    ensures forall i :: (0 <= i < |list| && list[i].url == url
              && (forall j :: 0 <= j < i ==> list[j].url != url)) ==> r == list[i].value
  {
    if |list| == 0 then Undef
    else if list[0].url == url then list[0].value
    else FirstExtensionValue(list[1..], url)
  }

  /** `getExtensionValue(item, ITEM_CONTROL_URL)?.coding?.[0]?.code`. */
  function ItemControlCode(item: Item): Value {
    OptProp(OptProp(OptProp(ExtensionValue(item.extension, ITEM_CONTROL_URL), "coding"), "0"), "code")
  }

  /** An item-control extension whose concept's first coding has `code` yields that code. */
  lemma {:induction false} ItemControlCodeOf(item: Item, code: string, rest: seq<Value>)
    requires item.extension == Some([Extension(ITEM_CONTROL_URL,
               Obj([Field("coding", Arr([Obj([Field("code", Str(code))])] + rest))]))])
    ensures ItemControlCode(item) == Str(code)
  {
    JsValue.ArrayIndexProp([Obj([Field("code", Str(code))])] + rest, 0);
  }

  /** The response items of a forest in depth-first pre-order: an item before its
      children, and an earlier sibling's whole subtree before the next sibling. */
  function PreOrder(items: seq<RespItem>): (r: seq<RespItem>)
    decreases items
    ensures |items| > 0 ==> |r| > 0 && r[0] == items[0]
  {
    if |items| == 0 then [] else ItemPreOrder(items[0]) + PreOrder(items[1..])
  }

  function ItemPreOrder(item: RespItem): (r: seq<RespItem>)
    decreases item
    ensures |r| > 0 && r[0] == item
  {
    [item] + (match item.children
              case NoRespItems => []
              case RespItems(children) => PreOrder(children))
  }

  lemma {:induction false} PreOrderAppend(a: seq<RespItem>, b: seq<RespItem>)
    ensures PreOrder(a + b) == PreOrder(a) + PreOrder(b)
  {
    if |a| == 0 {
      assert a + b == b;
    } else {
      assert (a + b)[1..] == a[1..] + b;
      PreOrderAppend(a[1..], b);
    }
  }

  /** The questionnaire items of a forest in depth-first pre-order. */
  function ItemsPreOrder(items: seq<Item>): (r: seq<Item>)
    decreases items
  {
    if |items| == 0 then [] else ItemTreePreOrder(items[0]) + ItemsPreOrder(items[1..])
  }

  function ItemTreePreOrder(item: Item): (r: seq<Item>)
    decreases item
    ensures |r| > 0 && r[0] == item
  {
    [item] + (match item.children
              case NoItems => []
              case Items(children) => ItemsPreOrder(children))
  }

  lemma {:induction false} ItemsPreOrderAppend(a: seq<Item>, b: seq<Item>)
    ensures ItemsPreOrder(a + b) == ItemsPreOrder(a) + ItemsPreOrder(b)
  {
    if |a| == 0 {
      assert a + b == b;
    } else {
      assert (a + b)[1..] == a[1..] + b;
      ItemsPreOrderAppend(a[1..], b);
    }
  }
}
