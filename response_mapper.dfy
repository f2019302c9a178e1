/** Mapping form values back into a `QuestionnaireResponse`
    (`getQuestionnaireResponseFromFormValues`, `mapQuestionnaireItems` and the two
    answer encoders). */
module ResponseMapper {
  import opened Wrappers
  import opened JsText
  import opened JsValue
  import opened Fhir
  import InitialValues

  /** `{[key]: value}`, one answer object. */
  function Answer(key: string, value: Value): Value {
    Obj([Field(key, value)])
  }

  /** `handleFormControlAnswer`: a radio button gives one `valueString`; a check box
      maps each element of its array value to a `valueString` (a value without
      `map` throws); any other control code gives no answers. */
  function FormControlAnswer(control: Value, value: Value): (r: Result<seq<Value>>)
    requires Truthy(value)
    ensures control == Str("radio-button") ==> r == Ok([Answer("valueString", value)])
    ensures control == Str("check-box") && value.Arr? ==>
              r.Ok? && |r.value| == |value.items|
              && forall i :: 0 <= i < |value.items| ==> r.value[i] == Answer("valueString", value.items[i])
    ensures control == Str("check-box") && !value.Arr? ==> r == TypeError
    ensures control != Str("radio-button") && control != Str("check-box") ==> r == Ok([])
  {
    if control == Str("radio-button") then Ok([Answer("valueString", value)])
    else if control == Str("check-box") then
      if value.Arr? then Ok(StringAnswers(value.items)) else TypeError
    else Ok([])
  }

  function StringAnswers(items: seq<Value>): (r: seq<Value>)
    ensures |r| == |items|
    ensures forall i :: 0 <= i < |items| ==> r[i] == Answer("valueString", items[i])
  {
    if |items| == 0 then [] else [Answer("valueString", items[0])] + StringAnswers(items[1..])
  }

  /** `handleBaseTypeAnswer`: the value under the answer key of the item type, for
      the four types that have one; no answers otherwise. */
  function BaseTypeAnswer(t: ItemType, value: Value): (r: seq<Value>)
    ensures t in {StringType, Choice} ==> r == [Answer("valueString", value)]
    ensures t == DateType ==> r == [Answer("valueDate", value)]
    ensures t == Reference ==> r == [Answer("valueReference", value)]
    ensures t !in {StringType, Choice, DateType, Reference} ==> r == []
  {
    match t
    case StringType => [Answer("valueString", value)]
    case Choice => [Answer("valueString", value)]
    case DateType => [Answer("valueDate", value)]
    case Reference => [Answer("valueReference", value)]
    case _ => []
  }

  /** `pick(item, QUESTIONNAIRE_RESPONSE_ITEM_FIELDS)`: the six copied fields, no
      answer and no children. */
  function Pick(item: Item): RespItem {
    RespItem(item.id, item.linkId, item.definition, item.text, item.extension, item.modifierExtension,
             None, NoRespItems)
  }

  /** `previousItems?.find(i => i.linkId === linkId)`. */
  function Previous(prev: Option<seq<RespItem>>, linkId: string): (r: Option<RespItem>)
    ensures prev.None? ==> r.None?
    ensures prev.Some? ==> r == FindResp(prev.value, linkId)
  {
    match prev
    case None => None
    case Some(items) => FindResp(items, linkId)
  }

  /** `previous?.item`. */
  function PreviousChildren(p: Option<RespItem>): Option<seq<RespItem>> {
    match p
    case None => None
    case Some(ri) => match ri.children case NoRespItems => None case RespItems(c) => Some(c)
  }

  /** `item.answerValueSet` is truthy: present and not empty. */
  predicate HasValueSet(item: Item) {
    item.answerValueSet.Some? && item.answerValueSet.value != ""
  }

  /** What one questionnaire item contributes to the response list: `None` when the
      loop `continue`s without pushing. */
  function MapOne(item: Item, values: Value, prev: Option<seq<RespItem>>): (r: Result<Option<RespItem>>)
    decreases item
    ensures r.Ok? && r.value.Some? ==> r.value.value.linkId == item.linkId
    ensures item.itemType == Group && r.Ok? ==> r.value.Some?
  {
    var previous := Previous(prev, item.linkId);
    if item.itemType == Group then
      var nested := Prop(values, item.linkId);
      var scope := if Truthy(nested) then nested else values;
      match item.children
      case NoItems => Ok(Some(Pick(item).(children := RespItems([]))))
      case Items(children) =>
        match MapList(children, scope, PreviousChildren(previous))
        case TypeError => TypeError
        case Ok(out) => Ok(Some(Pick(item).(children := RespItems(out))))
    else
      var value := Prop(values, item.linkId);
      if !Truthy(value) && previous.Some? && previous.value.answer.Some? then
        Ok(Some(Pick(item).(answer := previous.value.answer)))
      else if !Truthy(value) then Ok(None)
      else if HasValueSet(item) then Ok(Some(Pick(item).(answer := Some([value]))))
      else
        var control := ItemControlCode(item);
        if Truthy(control) then
          match FormControlAnswer(control, value)
          case TypeError => TypeError
          case Ok(answers) => Ok(Some(Pick(item).(answer := Some(answers))))
        else Ok(Some(Pick(item).(answer := Some(BaseTypeAnswer(item.itemType, value)))))
  }

  /** `mapQuestionnaireItems` as a value: the contributions of the items, in order.
      The response items follow the questionnaire's order: their linkIds are a
      subsequence of the items' linkIds, and every group's linkId is among them. */
  function MapList(items: seq<Item>, values: Value, prev: Option<seq<RespItem>>): (r: Result<seq<RespItem>>)
    decreases items
    ensures r.Ok? ==> IsSubsequence(RespLinkIds(r.value), InitialValues.LinkIds(items))
    ensures r.Ok? ==> IsSubsequence(GroupLinkIds(items), RespLinkIds(r.value))
  {
    if |items| == 0 then Ok([])
    else
      var pre := items[..|items| - 1];
      var last := items[|items| - 1];
      match MapList(pre, values, prev)
      case TypeError => TypeError
      case Ok(out) =>
        match MapOne(last, values, prev)
        case TypeError => TypeError
        case Ok(one) =>
          EmitStep(items, out, one);
          Ok(if one.Some? then out + [one.value] else out)
  }

  /** The two order invariants of `MapList`, carried from a prefix to one more item. */
  lemma {:induction false} EmitStep(items: seq<Item>, out: seq<RespItem>, one: Option<RespItem>)
    requires |items| > 0
    requires IsSubsequence(RespLinkIds(out), InitialValues.LinkIds(items[..|items| - 1]))
    requires IsSubsequence(GroupLinkIds(items[..|items| - 1]), RespLinkIds(out))
    requires items[|items| - 1].itemType == Group ==> one.Some?
    requires one.Some? ==> one.value.linkId == items[|items| - 1].linkId
    ensures var next := if one.Some? then out + [one.value] else out;
            IsSubsequence(RespLinkIds(next), InitialValues.LinkIds(items))
            && IsSubsequence(GroupLinkIds(items), RespLinkIds(next))
  {
    var pre := items[..|items| - 1];
    var last := items[|items| - 1];
    InitialValues.LinkIdsSnoc(items);
    GroupLinkIdsSnoc(items);
    if one.Some? {
      RespLinkIdsSnoc(out, one.value);
    }
    IdsStep(RespLinkIds(out), InitialValues.LinkIds(pre), GroupLinkIds(pre), last.linkId,
            last.itemType == Group, one.Some?);
  }

  lemma {:induction false} GroupLinkIdsSnoc(items: seq<Item>)
    requires |items| > 0
    ensures GroupLinkIds(items) == GroupLinkIds(items[..|items| - 1])
              + (if items[|items| - 1].itemType == Group then [items[|items| - 1].linkId] else [])
  {
  }

  lemma {:induction false} RespLinkIdsSnoc(out: seq<RespItem>, ri: RespItem)
    ensures RespLinkIds(out + [ri]) == RespLinkIds(out) + [ri.linkId]
  {
  }

  /** The order invariants on the linkId lists alone. */
  lemma {:induction false} IdsStep(outIds: seq<string>, preIds: seq<string>, groupIds: seq<string>, x: string,
                isGroup: bool, emitted: bool)
    requires IsSubsequence(outIds, preIds) && IsSubsequence(groupIds, outIds)
    requires isGroup ==> emitted
    ensures IsSubsequence(if emitted then outIds + [x] else outIds, preIds + [x])
    ensures IsSubsequence(groupIds + (if isGroup then [x] else []), if emitted then outIds + [x] else outIds)
  {
    OrderStep(outIds, preIds, x, emitted);
    if isGroup {
      assert (groupIds + [x])[..|groupIds|] == groupIds;
      assert (outIds + [x])[..|outIds|] == outIds;
    } else {
      assert groupIds + [] == groupIds;
      if emitted {
        SubsequenceExtend(groupIds, outIds, x);
      }
    }
  }

  /** `mapQuestionnaireItems(items, values, previous)`: an absent item list maps to
      no response items. */
  function MapItems(items: ItemList, values: Value, prev: Option<seq<RespItem>>): Result<seq<RespItem>> {
    match items
    case NoItems => Ok([])
    case Items(list) => MapList(list, values, prev)
  }

  /** The loop of `mapQuestionnaireItems`, pushing into `result`. */
  method MapQuestionnaireItems(items: ItemList, values: Value, prev: Option<seq<RespItem>>)
      returns (r: Result<seq<RespItem>>)
    decreases items, 1
    ensures r == MapItems(items, values, prev)
  {
    if items.NoItems? {
      return Ok([]);
    }
    var list := items.items;
    var result: seq<RespItem> := [];
    for i := 0 to |list|
      invariant MapList(list[..i], values, prev) == Ok(result)
    {
      var one := MapItem(list[i], values, prev);
      LoopStep(list, i, values, prev, result, one);
      if one.TypeError? {
        return TypeError;
      }
      if one.value.Some? {
        result := result + [one.value.value];
      }
    }
    assert list[..|list|] == list;
    return Ok(result);
  }

  lemma {:induction false} LoopStep(list: seq<Item>, i: nat, values: Value, prev: Option<seq<RespItem>>,
                 result: seq<RespItem>, one: Result<Option<RespItem>>)
    requires i < |list| && MapList(list[..i], values, prev) == Ok(result) && one == MapOne(list[i], values, prev)
    ensures one.TypeError? ==> MapList(list, values, prev).TypeError?
    ensures one.Ok? ==> MapList(list[..i + 1], values, prev)
                        == Ok(if one.value.Some? then result + [one.value.value] else result)
  {
    MapListSnoc(list, i, values, prev);
    if one.TypeError? {
      MapListFails(list, i + 1, values, prev);
    }
  }

  /** The result list before item `i`, joined with what item `i` contributes. */
  function Snoc(before: Result<seq<RespItem>>, one: Result<Option<RespItem>>): Result<seq<RespItem>> {
    match before
    case TypeError => TypeError
    case Ok(out) =>
      match one
      case TypeError => TypeError
      case Ok(None) => Ok(out)
      case Ok(Some(ri)) => Ok(out + [ri])
  }

  lemma {:induction false} MapListSnoc(items: seq<Item>, i: nat, values: Value, prev: Option<seq<RespItem>>)
    requires i < |items|
    ensures MapList(items[..i + 1], values, prev) == Snoc(MapList(items[..i], values, prev), MapOne(items[i], values, prev))
  {
    assert items[..i + 1][..i] == items[..i];
  }

  /** A prefix that throws makes the whole list throw. */
  lemma {:induction false} MapListFails(items: seq<Item>, n: nat, values: Value, prev: Option<seq<RespItem>>)
    requires n <= |items| && MapList(items[..n], values, prev).TypeError?
    ensures MapList(items, values, prev).TypeError?
  {
    if n < |items| {
      assert items[..|items| - 1][..n] == items[..n];
      MapListFails(items[..|items| - 1], n, values, prev);
    } else {
      assert items[..n] == items;
    }
  }

  /** One iteration of that loop, with the recursive call for a group. */
  method MapItem(item: Item, values: Value, prev: Option<seq<RespItem>>) returns (r: Result<Option<RespItem>>)
    decreases item, 0
    ensures r == MapOne(item, values, prev)
  {
    var response := Pick(item);
    var previous := Previous(prev, item.linkId);
    if item.itemType == Group {
      var nested := Prop(values, item.linkId);
      var sub := MapQuestionnaireItems(item.children, if Truthy(nested) then nested else values,
                                       PreviousChildren(previous));
      if sub.TypeError? {
        return TypeError;
      }
      return Ok(Some(response.(children := RespItems(sub.value))));
    }
    var value := Prop(values, item.linkId);
    if !Truthy(value) && previous.Some? && previous.value.answer.Some? {
      response := response.(answer := previous.value.answer);
      return Ok(Some(response));
    }
    if !Truthy(value) {
      return Ok(None);
    }
    if HasValueSet(item) {
      response := response.(answer := Some([value]));
      return Ok(Some(response));
    }
    var control := ItemControlCode(item);
    if Truthy(control) {
      var answers := FormControlAnswer(control, value);
      if answers.TypeError? {
        return TypeError;
      }
      response := response.(answer := Some(answers.value));
    } else {
      response := response.(answer := Some(BaseTypeAnswer(item.itemType, value)));
    }
    return Ok(Some(response));
  }

  /** Each emitted item copies exactly the six picked fields of its questionnaire item. */
  lemma {:induction false} MapOnePicks(item: Item, values: Value, prev: Option<seq<RespItem>>)
    requires MapOne(item, values, prev).Ok? && MapOne(item, values, prev).value.Some?
    ensures var ri := MapOne(item, values, prev).value.value;
            ri.id == item.id && ri.linkId == item.linkId && ri.definition == item.definition
            && ri.text == item.text && ri.extension == item.extension
            && ri.modifierExtension == item.modifierExtension
  {
    var ri := MapOne(item, values, prev).value.value;
    if item.itemType == Group {
      assert ri == Pick(item).(children := ri.children);
    } else {
      assert ri == Pick(item).(answer := ri.answer);
    }
  }

  /** A group is always emitted (unless a check box below it throws), with its
      children mapped from `values[linkId]`, or from the same values when that is falsy. */
  lemma {:induction false} GroupEmitted(item: Item, values: Value, prev: Option<seq<RespItem>>)
    requires item.itemType == Group && item.children.Items?
    requires MapOne(item, values, prev).Ok?
    ensures var nested := Prop(values, item.linkId);
            var scope := if Truthy(nested) then nested else values;
            var children := MapList(item.children.items, scope, PreviousChildren(Previous(prev, item.linkId)));
            children.Ok? && MapOne(item, values, prev) == Ok(Some(Pick(item).(children := RespItems(children.value))))
  {
  }

  /** A falsy leaf value keeps the prior answer when there is one, and is dropped
      otherwise. */
  lemma {:induction false} FalsyLeaf(item: Item, values: Value, prev: Option<seq<RespItem>>)
    requires item.itemType != Group && !Truthy(Prop(values, item.linkId))
    ensures var previous := Previous(prev, item.linkId);
            if previous.Some? && previous.value.answer.Some?
            then MapOne(item, values, prev) == Ok(Some(Pick(item).(answer := previous.value.answer)))
            else MapOne(item, values, prev) == Ok(None)
  {
  }

  /** A truthy value of an item bound to a value set is stored as the single answer. */
  lemma {:induction false} ValueSetLeaf(item: Item, values: Value, prev: Option<seq<RespItem>>)
    requires item.itemType != Group && Truthy(Prop(values, item.linkId)) && HasValueSet(item)
    ensures MapOne(item, values, prev) == Ok(Some(Pick(item).(answer := Some([Prop(values, item.linkId)]))))
  {
  }

  /** A truthy value of an item with an item-control code and no value set is encoded
      by `handleFormControlAnswer`, and throws exactly when that encoder throws; a
      truthy value overrides any prior answer. */
  lemma {:induction false} ControlLeaf(item: Item, values: Value, prev: Option<seq<RespItem>>)
    requires item.itemType != Group && Truthy(Prop(values, item.linkId)) && !HasValueSet(item)
    requires Truthy(ItemControlCode(item))
    ensures var encoded := FormControlAnswer(ItemControlCode(item), Prop(values, item.linkId));
            (MapOne(item, values, prev).Ok? <==> encoded.Ok?)
            && (encoded.Ok? ==> MapOne(item, values, prev) == Ok(Some(Pick(item).(answer := Some(encoded.value)))))
  {
  }

  /** A truthy value of an item with neither an item-control code nor a value set is
      encoded by `handleBaseTypeAnswer` for the item's type; this never throws. */
  lemma {:induction false} BaseTypeLeaf(item: Item, values: Value, prev: Option<seq<RespItem>>)
    requires item.itemType != Group && Truthy(Prop(values, item.linkId)) && !HasValueSet(item)
    requires !Truthy(ItemControlCode(item))
    ensures MapOne(item, values, prev)
         == Ok(Some(Pick(item).(answer := Some(BaseTypeAnswer(item.itemType, Prop(values, item.linkId))))))
  {
  }

  /** `s` is a subsequence of `t`. */
  predicate IsSubsequence(s: seq<string>, t: seq<string>)
    decreases |t|
  {
    if |s| == 0 then true
    else if |t| == 0 then false
    else if s[|s| - 1] == t[|t| - 1] then IsSubsequence(s[..|s| - 1], t[..|t| - 1])
    else IsSubsequence(s, t[..|t| - 1])
  }

  function RespLinkIds(items: seq<RespItem>): (r: seq<string>)
    ensures |r| == |items|
    ensures forall i :: 0 <= i < |items| ==> r[i] == items[i].linkId
  {
    if |items| == 0 then [] else [items[0].linkId] + RespLinkIds(items[1..])
  }

  lemma {:induction false} SubsequenceExtend(s: seq<string>, t: seq<string>, x: string)
    requires IsSubsequence(s, t)
    ensures IsSubsequence(s, t + [x])
    decreases |t|, 1
  {
    assert (t + [x])[..|t|] == t;
    if |s| > 0 && s[|s| - 1] == x {
      SubsequenceDrop(s, t);
    }
  }

  lemma {:induction false} SubsequenceDrop(s: seq<string>, t: seq<string>)
    requires |s| > 0 && IsSubsequence(s, t)
    ensures IsSubsequence(s[..|s| - 1], t)
    decreases |t|, 0
  {
    if |t| > 0 {
      if s[|s| - 1] == t[|t| - 1] {
        if |s| > 1 {
          SubsequenceDrop(s[..|s| - 1], t[..|t| - 1]);
          assert s[..|s| - 1][..|s| - 2] == s[..|s| - 2];
        }
        SubsequenceExtend(s[..|s| - 1], t[..|t| - 1], t[|t| - 1]);
        assert t[..|t| - 1] + [t[|t| - 1]] == t;
      } else {
        SubsequenceDrop(s, t[..|t| - 1]);
        SubsequenceExtend(s[..|s| - 1], t[..|t| - 1], t[|t| - 1]);
        assert t[..|t| - 1] + [t[|t| - 1]] == t;
      }
    }
  }

  /** The linkIds of the groups among a list of items, in order. */
  function GroupLinkIds(items: seq<Item>): seq<string> {
    if |items| == 0 then []
    else GroupLinkIds(items[..|items| - 1])
         + (if items[|items| - 1].itemType == Group then [items[|items| - 1].linkId] else [])
  }

  /** One step of the order argument, on the linkId lists alone. */
  lemma {:induction false} OrderStep(outIds: seq<string>, preIds: seq<string>, x: string, emitted: bool)
    requires IsSubsequence(outIds, preIds)
    ensures IsSubsequence(if emitted then outIds + [x] else outIds, preIds + [x])
  {
    if emitted {
      assert (outIds + [x])[..|outIds|] == outIds;
      assert (preIds + [x])[..|preIds|] == preIds;
    } else {
      SubsequenceExtend(outIds, preIds, x);
    }
  }

  /** The response resource this core builds (the `authored` time is left out). */
  datatype Response = Response(questionnaire: string, status: string, subject: Value, source: Value,
                               items: seq<RespItem>)

  /** `` `Questionnaire/${questionnaire.id!})` ``: the reference carries a stray `)`,
      and a missing id is written as `undefined`. */
  function QuestionnaireReference(id: Option<string>): (s: string)
    ensures |s| > 0 && s[|s| - 1] == ')'
    ensures id.Some? ==> s == "Questionnaire/" + id.value + ")"
    ensures id.None? ==> s == "Questionnaire/undefined)"
  {
    "Questionnaire/" + (match id case Some(x) => x case None => "undefined") + ")"
  }

  /** The stray `)` makes the reference differ from the `Questionnaire/<id>` form. */
  lemma {:induction false} ReferenceIsNotPlain(id: string)
    ensures QuestionnaireReference(Some(id)) != "Questionnaire/" + id
  {
    assert |QuestionnaireReference(Some(id))| == |"Questionnaire/" + id| + 1;
  }

  /** `questionnaireResponse?.item`: the prior response's top-level items. */
  function PriorItems(previous: Option<QuestionnaireResponse>): Option<seq<RespItem>> {
    match previous
    case None => None
    case Some(resp) => match resp.items case NoRespItems => None case RespItems(c) => Some(c)
  }

  /** `getQuestionnaireResponseFromFormValues`: throws exactly when mapping the items
      throws; otherwise the items are the mapped questionnaire items, in the
      questionnaire's order and with every top-level group present. */
  function ResponseFromFormValues(q: Questionnaire, values: Value, subject: Value, source: Value,
                                  previous: Option<QuestionnaireResponse>): (r: Result<Response>)
    ensures r.Ok? <==> MapItems(q.items, values, PriorItems(previous)).Ok?
    ensures r.Ok? ==> r.value.items == MapItems(q.items, values, PriorItems(previous)).value
    ensures r.Ok? ==> r.value.questionnaire == QuestionnaireReference(q.id) && r.value.status == "in-progress"
                      && r.value.subject == subject && r.value.source == source
    ensures q.items.NoItems? ==> r.Ok? && r.value.items == []
    ensures r.Ok? && q.items.Items? ==> IsSubsequence(RespLinkIds(r.value.items), InitialValues.LinkIds(q.items.items))
                                        && IsSubsequence(GroupLinkIds(q.items.items), RespLinkIds(r.value.items))
  {
    match MapItems(q.items, values, PriorItems(previous))
    case TypeError => TypeError
    case Ok(items) => Ok(Response(QuestionnaireReference(q.id), "in-progress", subject, source, items))
  }

  /** A string question answered with text reads back, through the initial values of
      the response it produces, as the same text. */
  lemma {:induction false} StringRoundTrip(item: Item, text: string)
    requires item.itemType == StringType && !HasValueSet(item) && !Truthy(ItemControlCode(item))
    requires text != ""
    ensures var values := Obj([Field(item.linkId, Str(text))]);
            var mapped := MapList([item], values, None);
            mapped.Ok? && InitialValues.FormInitialValues([item], mapped.value) == Ok([Field(item.linkId, Str(text))])
  {
    var values := Obj([Field(item.linkId, Str(text))]);
    var ri := Pick(item).(answer := Some([Answer("valueString", Str(text))]));
    MapStringItem(item, text);
    MapListSnoc([item], 0, values, None);
    assert [item][..1] == [item] && [item][..0] == [];
    ReadBackString(item, ri, text);
    InitialSingle(item, [ri]);
  }

  /** The response item a string question with a text value maps to. */
  lemma {:induction false} MapStringItem(item: Item, text: string)
    requires item.itemType == StringType && !HasValueSet(item) && !Truthy(ItemControlCode(item))
    requires text != ""
    ensures MapOne(item, Obj([Field(item.linkId, Str(text))]), None)
         == Ok(Some(Pick(item).(answer := Some([Answer("valueString", Str(text))]))))
  {
  }

  /** That response item's answer is read back as the text. */
  lemma {:induction false} ReadBackString(item: Item, ri: RespItem, text: string)
    requires item.itemType == StringType && text != ""
    requires ri == Pick(item).(answer := Some([Answer("valueString", Str(text))]))
    ensures InitialValues.InitialValueOf(item, [ri]) == Ok(Str(text))
  {
    assert PreOrder([ri]) == [ri] by {
      assert [ri][1..] == [];
    }
    InitialValues.SingleAnswerValue(StringType, "valueString", Str(text));
  }

  /** The initial values of a one-item list hold that item's value under its linkId. */
  lemma {:induction false} InitialSingle(item: Item, resps: seq<RespItem>)
    requires InitialValues.InitialValueOf(item, resps).Ok?
    ensures InitialValues.FormInitialValues([item], resps)
         == Ok([Field(item.linkId, InitialValues.InitialValueOf(item, resps).value)])
  {
    assert [item][..0] == [];
  }
}
