/** One level of the questionnaire form (`QuestionnaireForm`): for each child of a
    group, the registry component it is rendered with and the props it receives,
    and whether its visibility gate lets it through. */
module QuestionnaireForm {
  import opened Wrappers
  import opened JsText
  import opened JsValue
  import opened Fhir
  import Constants
  import EnableWhenGate

  /** The extension urls the props read placeholder, icon and mask from (sic, `masl`). */
  const PLACEHOLDER_URL := "create-your-own-extension-for-placeholder"
  const ICON_URL := "create-your-own-extension-for-icon"
  const MASK_URL := "create-your-own-extension-for-masl"

  /** The props handed to a registry component. */
  datatype FieldProps = FieldProps(
    key: string,
    formFieldName: string,
    labelText: string,
    name: string,
    required: bool,
    question: Item,
    responseItem: Option<RespItem>,
    enableWhen: Option<EnableWhen>,
    placeholder: Value,
    icon: Value,
    mask: Value)

  /** A rendered child: the registry component and its props. */
  datatype Element = Element(kind: Constants.FieldKind, props: FieldProps)

  /** The form path of a question: `${parentPath}.${linkId}`, or the bare linkId at the top. */
  function FormFieldName(parentPath: string, linkId: string): (r: string)
    ensures parentPath == "" ==> r == linkId
    ensures parentPath != "" ==> |r| == |parentPath| + 1 + |linkId|
    ensures parentPath != "" ==> r[..|parentPath|] == parentPath && r[|parentPath|] == '.' && r[|parentPath| + 1..] == linkId
  {
    if parentPath != "" then parentPath + "." + linkId else linkId
  }

  /** A dot-free parent path is recovered by cutting the field name at its first dot. */
  lemma {:induction false} FieldNameSplits(parentPath: string, linkId: string)
    requires parentPath != "" && forall i :: 0 <= i < |parentPath| ==> parentPath[i] != '.'
    ensures var r := FormFieldName(parentPath, linkId);
            var k := IndexOf(r, '.');
            k < |r| && r[..k] == parentPath && r[k + 1..] == linkId
  {
    var r := FormFieldName(parentPath, linkId);
    assert forall i :: 0 <= i < |parentPath| ==> r[i] == parentPath[i];
    assert r[|parentPath|] == '.';
  }

  /** `question.text || ""`. */
  function Label(text: Option<string>): (r: string)
    ensures text.Some? ==> r == text.value
    ensures text.None? ==> r == ""
  {
    if text.Some? && text.value != "" then text.value else ""
  }

  /** `arr?.[0]` of the `enableWhen` list: only the first condition is ever used. */
  function FirstEnableWhen(rules: seq<EnableWhen>): (r: Option<EnableWhen>)
    ensures r.None? <==> rules == []
    ensures r.Some? ==> r.value == rules[0]
  {
    if |rules| == 0 then None else Some(rules[0])
  }

  /** `getExtensionValue(question, url) ?? ""`. */
  function ExtensionOrEmpty(question: Item, url: string): (r: Value)
    ensures IsNullish(ExtensionValue(question.extension, url)) ==> r == Str("")
    ensures !IsNullish(ExtensionValue(question.extension, url)) ==> r == ExtensionValue(question.extension, url)
  {
    Coalesce(ExtensionValue(question.extension, url), Str(""))
  }

  /** The response child of the group's response item with the question's linkId. */
  function ResponseChild(response: Option<RespItem>, linkId: string): (r: Option<RespItem>)
    ensures response.None? ==> r.None?
    ensures response.Some? ==> r == FindResp(ChildResps(response.value.children), linkId)
  {
    if response.None? then None else FindResp(ChildResps(response.value.children), linkId)
  }

  /** The props of one child question. */
  function PropsOf(question: Item, response: Option<RespItem>, parentPath: string): FieldProps
  {
    FieldProps(
      question.linkId,
      FormFieldName(parentPath, question.linkId),
      Label(question.text),
      question.linkId,
      question.required,
      question,
      ResponseChild(response, question.linkId),
      FirstEnableWhen(question.enableWhen),
      ExtensionOrEmpty(question, PLACEHOLDER_URL),
      ExtensionOrEmpty(question, ICON_URL),
      ExtensionOrEmpty(question, MASK_URL))
  }

  /** One child: `null` when the registry has no component for its type. */
  function RenderChild(question: Item, response: Option<RespItem>, parentPath: string): (r: Option<Element>)
    ensures r.None? <==> Constants.FieldOf(question.itemType).None?
    ensures r.Some? ==> r.value.kind == Constants.FieldOf(question.itemType).value
                        && r.value.props == PropsOf(question, response, parentPath)
  {
    match Constants.FieldOf(question.itemType)
    case None => None
    case Some(kind) => Some(Element(kind, PropsOf(question, response, parentPath)))
  }

  function RenderList(questions: seq<Item>, response: Option<RespItem>, parentPath: string): (r: seq<Option<Element>>)
    ensures |r| == |questions|
    ensures forall i :: 0 <= i < |r| ==> r[i] == RenderChild(questions[i], response, parentPath)
  {
    if |questions| == 0 then []
    else [RenderChild(questions[0], response, parentPath)] + RenderList(questions[1..], response, parentPath)
  }

  /** `QuestionnaireForm`: nothing for an absent group or one without a child list;
      otherwise one entry per child, in order. */
  function Render(group: Option<Item>, response: Option<RespItem>, parentPath: string): (r: seq<Option<Element>>)
    ensures group.None? ==> r == []
    ensures group.Some? ==> |r| == |ChildItems(group.value.children)|
    ensures group.Some? ==> forall i :: 0 <= i < |r| ==> r[i] == RenderChild(ChildItems(group.value.children)[i], response, parentPath)
  {
    if group.None? then [] else RenderList(ChildItems(group.value.children), response, parentPath)
  }

  /** What the props of a rendered child say about its question. */
  lemma {:induction false} RenderedProps(group: Item, response: Option<RespItem>, parentPath: string, i: nat)
    requires i < |ChildItems(group.children)|
    requires Constants.FieldOf(ChildItems(group.children)[i].itemType).Some?
    ensures var q := ChildItems(group.children)[i];
            var r := Render(Some(group), response, parentPath);
            r[i].Some?
            && r[i].value.props.name == q.linkId && r[i].value.props.key == q.linkId
            && r[i].value.props.formFieldName == FormFieldName(parentPath, q.linkId)
            && r[i].value.props.enableWhen == (if q.enableWhen == [] then None else Some(q.enableWhen[0]))
            && (q.text.None? ==> r[i].value.props.labelText == "")
            && (q.text.Some? ==> r[i].value.props.labelText == q.text.value)
            && r[i].value.props.required == q.required
            && r[i].value.props.question == q
            && (response.None? ==> r[i].value.props.responseItem.None?)
            && (response.Some? ==> r[i].value.props.responseItem == FindResp(ChildResps(response.value.children), q.linkId))
  {
  }

  /** Whether a rendered child is shown for the current form values. */
  function Shown(values: seq<Field>, child: Option<Element>): (r: bool)
    ensures child.None? ==> !r
    ensures child.Some? ==> (r <==> EnableWhenGate.Gate(Obj(values), child.value.props.enableWhen))
  {
    child.Some? && EnableWhenGate.Gate(Obj(values), child.value.props.enableWhen)
  }

  /** A registered question without conditions is always shown. */
  lemma {:induction false} UnconditionalShown(values: seq<Field>, question: Item, response: Option<RespItem>, parentPath: string)
    requires Constants.FieldOf(question.itemType).Some? && question.enableWhen == []
    ensures Shown(values, RenderChild(question, response, parentPath))
  {
  }
}
