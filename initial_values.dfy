/** Deriving the initial form values of a questionnaire from a prior response
    (`createFormInitialValue`) and the answer-key lookup `getCorrectAnswerTypeValue`. */
module InitialValues {
  import opened Wrappers
  import opened JsValue
  import opened Fhir
  import opened Constants

  /** The first item of a flat list with the given linkId. */
  function FirstWithLinkId(s: seq<RespItem>, linkId: string): (r: Option<RespItem>)
    ensures r.Some? ==> r.value in s && r.value.linkId == linkId
  {
    if |s| == 0 then None
    else if s[0].linkId == linkId then Some(s[0])
    else FirstWithLinkId(s[1..], linkId)
  }

  /** `FirstWithLinkId` finds the element at the least index with the linkId, and
      nothing exactly when no element has it. */
  lemma {:induction false} FirstWithLinkIdSpec(s: seq<RespItem>, linkId: string)
    ensures FirstWithLinkId(s, linkId).None? <==> forall i :: 0 <= i < |s| ==> s[i].linkId != linkId
    ensures FirstWithLinkId(s, linkId).Some? ==>
              exists i :: 0 <= i < |s| && s[i] == FirstWithLinkId(s, linkId).value
                          && forall j :: 0 <= j < i ==> s[j].linkId != linkId
  {
    if |s| > 0 && s[0].linkId != linkId {
      FirstWithLinkIdSpec(s[1..], linkId);
      assert forall j :: 1 <= j < |s| ==> s[j] == s[1..][j - 1];
      if FirstWithLinkId(s, linkId).Some? {
        var k :| 0 <= k < |s[1..]| && s[1..][k] == FirstWithLinkId(s, linkId).value
                 && forall j :: 0 <= j < k ==> s[1..][j].linkId != linkId;
        assert s[k + 1] == FirstWithLinkId(s, linkId).value;
      }
    }
  }

  lemma {:induction false} FirstWithLinkIdAppend(a: seq<RespItem>, b: seq<RespItem>, linkId: string)
    ensures FirstWithLinkId(a + b, linkId)
         == if FirstWithLinkId(a, linkId).Some? then FirstWithLinkId(a, linkId) else FirstWithLinkId(b, linkId)
  {
    if |a| == 0 {
      assert a + b == b;
    } else {
      assert (a + b)[1..] == a[1..] + b;
      FirstWithLinkIdAppend(a[1..], b, linkId);
    }
  }

  /** The response item `getResponseItem` finds: the first in pre-order with the linkId. */
  function FindResponse(linkId: string, items: seq<RespItem>): Option<RespItem> {
    FirstWithLinkId(PreOrder(items), linkId)
  }

  /** `getResponseItem`: a loop over the siblings that returns the item itself when
      its linkId matches, else the first match in its children, before moving on. */
  method GetResponseItem(linkId: string, items: seq<RespItem>) returns (r: Option<RespItem>)
    decreases items, 1
    ensures r == FindResponse(linkId, items)
  {
    var i := 0;
    while i < |items|
      invariant 0 <= i <= |items|
      invariant FindResponse(linkId, items[..i]) == None
    {
      var found := GetInSubtree(linkId, items[i]);
      FindResponseStep(linkId, items, i);
      if found.Some? {
        FindResponseSplit(linkId, items, i + 1);
        return found;
      }
      i := i + 1;
    }
    assert items[..i] == items;
    return None;
  }

  /** Extending the prefix of searched siblings by one sibling. */
  lemma {:induction false} FindResponseStep(linkId: string, items: seq<RespItem>, i: nat)
    requires i < |items|
    ensures FindResponse(linkId, items[..i + 1])
         == if FindResponse(linkId, items[..i]).Some? then FindResponse(linkId, items[..i])
            else FirstWithLinkId(ItemPreOrder(items[i]), linkId)
  {
    var a, b := items[..i], [items[i]];
    assert items[..i + 1] == a + b;
    assert PreOrder(b) == ItemPreOrder(items[i]) by {
      assert b[1..] == [];
    }
    PreOrderAppend(a, b);
    FirstWithLinkIdAppend(PreOrder(a), PreOrder(b), linkId);
  }

  /** A match in a prefix of the siblings is the match in the whole list. */
  lemma {:induction false} FindResponseSplit(linkId: string, items: seq<RespItem>, i: nat)
    requires i <= |items| && FindResponse(linkId, items[..i]).Some?
    ensures FindResponse(linkId, items) == FindResponse(linkId, items[..i])
  {
    var a, b := items[..i], items[i..];
    assert a + b == items;
    PreOrderAppend(a, b);
    FirstWithLinkIdAppend(PreOrder(a), PreOrder(b), linkId);
  }

  /** One iteration of `getResponseItem`'s loop: the item, then its children. */
  method GetInSubtree(linkId: string, item: RespItem) returns (r: Option<RespItem>)
    decreases item, 0
    ensures r == FirstWithLinkId(ItemPreOrder(item), linkId)
  {
    if item.linkId == linkId {
      return Some(item);
    }
    var nested := None;
    if item.children.RespItems? {
      nested := GetResponseItem(linkId, item.children.items);
    }
    var kids := match item.children case NoRespItems => [] case RespItems(c) => PreOrder(c);
    assert ItemPreOrder(item) == [item] + kids;
    FirstWithLinkIdAppend([item], kids, linkId);
    assert [item][1..] == [];
    return nested;
  }

  /** `parseInitialData`: a falsy raw value or an answer key without a parser gives `""`. */
  function ParseInitialData(valueType: string, value: Value): (r: Value)
    ensures !Truthy(value) ==> r == Str("")
    ensures ParserOf(valueType).None? ==> r == Str("")
    ensures Truthy(value) && ParserOf(valueType).Some? ==> r == ApplyParser(ParserOf(valueType).value, value)
    ensures !IsNullish(r)
  {
    match ParserOf(valueType)
    case None => Str("")
    case Some(p) => if Truthy(value) then ApplyParserTruthy(p, value); ApplyParser(p, value) else Str("")
  }

  /** `const [valueType, value] = Object.entries(answer)[0]`, then parse; destructuring
      the missing first entry of an answer without properties throws. */
  function ParseAnswer(answer: Value): (r: Result<Value>)
    ensures r.TypeError? <==> Entries(answer) == []
  {
    var entries := Entries(answer);
    if |entries| == 0 then TypeError
    else Ok(ParseInitialData(entries[0].key, entries[0].val))
  }

  function ParseAnswers(answers: seq<Value>): (r: Result<seq<Value>>)
    ensures r.TypeError? <==> exists i :: 0 <= i < |answers| && Entries(answers[i]) == []
    ensures r.Ok? ==> |r.value| == |answers|
                      && forall i :: 0 <= i < |answers| ==> ParseAnswer(answers[i]) == Ok(r.value[i])
  {
    if |answers| == 0 then Ok([])
    else
      match ParseAnswer(answers[0])
      case TypeError => TypeError
      case Ok(v) =>
        match ParseAnswers(answers[1..])
        case TypeError => TypeError
        case Ok(vs) => Ok([v] + vs)
  }

  /** The initial value of a non-group item (or a group without children), given
      the answers of its response item: several answers give the array of parsed
      answers, one gives that answer parsed (never nullish, so the default is not
      used), none gives the type's default or `null`. */
  function LeafValue(itemType: ItemType, answers: Option<seq<Value>>): (r: Result<Value>)
    ensures answers.Some? && |answers.value| > 1 ==>
              r == (match ParseAnswers(answers.value) case TypeError => TypeError case Ok(vs) => Ok(Arr(vs)))
    ensures answers.Some? && |answers.value| == 1 ==> r == ParseAnswer(answers.value[0])
    ensures (answers.None? || answers.value == []) ==>
              r == Ok(FormInitialValue(itemType).GetOr(Null))
  {
    match answers
    case None => Ok(FormInitialValue(itemType).GetOr(Null))
    case Some(list) =>
      match ParseAnswers(list)
      case TypeError => TypeError
      case Ok(vs) =>
        if |vs| > 1 then Ok(Arr(vs))
        else if |vs| == 1 then Ok(Coalesce(vs[0], FormInitialValue(itemType).GetOr(Null)))
        else Ok(FormInitialValue(itemType).GetOr(Null))
  }

  /** A single truthy answer under a registered key becomes the parsed answer itself. */
  lemma {:induction false} SingleAnswerValue(itemType: ItemType, key: string, v: Value)
    requires Truthy(v) && ParserOf(key).Some?
    ensures LeafValue(itemType, Some([Obj([Field(key, v)])])) == Ok(ApplyParser(ParserOf(key).value, v))
  {
    var answers := [Obj([Field(key, v)])];
    assert ParseAnswers(answers[1..]) == Ok([]);
    var p := ParserOf(key).value;
    assert Truthy(ApplyParser(p, v));
  }

  /** A single answer with a falsy value (say `{valueBoolean: false}`) reloads as `""`,
      not as the type's default; a single answer object without entries throws. */
  lemma {:induction false} SingleFalsyAnswer(itemType: ItemType, key: string, v: Value)
    requires !Truthy(v)
    ensures LeafValue(itemType, Some([Obj([Field(key, v)])])) == Ok(Str(""))
    ensures LeafValue(itemType, Some([Obj([])])) == TypeError
  {
    assert Entries(Obj([Field(key, v)]))[0] == Field(key, v);
  }

  /** `createFormInitialValue(items, responseItems)`: one field per item linkId in
      item order, built with object spread so that a later duplicate linkId replaces
      the value and keeps the first position. */
  function FormInitialValues(items: seq<Item>, resps: seq<RespItem>): (r: Result<seq<Field>>)
    decreases items
  {
    if |items| == 0 then Ok([])
    else
      match FormInitialValues(items[..|items| - 1], resps)
      case TypeError => TypeError
      case Ok(acc) =>
        match InitialValueOf(items[|items| - 1], resps)
        case TypeError => TypeError
        case Ok(v) => Ok(Put(acc, items[|items| - 1].linkId, v))
  }

  /** The value one item contributes: a group with a child list recurses into the
      children of its response item (found anywhere in the response tree), or into
      no response items. */
  function InitialValueOf(item: Item, resps: seq<RespItem>): (r: Result<Value>)
    decreases item
  {
    var found := FindResponse(item.linkId, resps);
    if item.itemType == Group && item.children.Items? then
      var sub := match found
                 case None => []
                 case Some(ri) => ChildResps(ri.children);
      match FormInitialValues(item.children.items, sub)
      case TypeError => TypeError
      case Ok(fields) => Ok(Obj(fields))
    else
      LeafValue(item.itemType, match found case None => None case Some(ri) => ri.answer)
  }

  /** The linkIds of a list of items. */
  function LinkIds(items: seq<Item>): (r: seq<string>)
    ensures |r| == |items|
    ensures forall i :: 0 <= i < |items| ==> r[i] == items[i].linkId
  {
    if |items| == 0 then [] else [items[0].linkId] + LinkIds(items[1..])
  }

  lemma {:induction false} LinkIdsSnoc(items: seq<Item>)
    requires |items| > 0
    ensures LinkIds(items) == LinkIds(items[..|items| - 1]) + [items[|items| - 1].linkId]
  {
    var a := LinkIds(items);
    var b := LinkIds(items[..|items| - 1]) + [items[|items| - 1].linkId];
    assert |a| == |b|;
    forall i | 0 <= i < |a|
      ensures a[i] == b[i]
    {
      if i < |items| - 1 {
        assert b[i] == LinkIds(items[..|items| - 1])[i] == items[..|items| - 1][i].linkId;
      }
    }
  }

  predicate NoDuplicates(s: seq<string>) {
    forall i, j :: 0 <= i < j < |s| ==> s[i] != s[j]
  }

  /** The initial values have exactly one key per distinct item linkId. */
  lemma {:induction false} InitialKeys(items: seq<Item>, resps: seq<RespItem>)
    requires FormInitialValues(items, resps).Ok?
    ensures var fields := FormInitialValues(items, resps).value;
            NoDuplicates(KeysOf(fields))
            && forall k :: HasKey(fields, k) <==> k in LinkIds(items)
  {
    if |items| > 0 {
      var pre := items[..|items| - 1];
      var last := items[|items| - 1];
      InitialStep(items, resps);
      var acc := FormInitialValues(pre, resps).value;
      InitialKeys(pre, resps);
      LinkIdsSnoc(items);
      PutKeys(acc, last.linkId, InitialValueOf(last, resps).value, LinkIds(pre));
    }
  }

  /** Putting one key into fields whose keys are distinct and are those of `ids`. */
  lemma {:induction false} PutKeys(acc: seq<Field>, k: string, v: Value, ids: seq<string>)
    requires NoDuplicates(KeysOf(acc)) && forall x :: HasKey(acc, x) <==> x in ids
    ensures NoDuplicates(KeysOf(Put(acc, k, v)))
    ensures forall x :: HasKey(Put(acc, k, v), x) <==> x in ids + [k]
  {
    var keys := KeysOf(Put(acc, k, v));
    if HasKey(acc, k) {
      assert keys == KeysOf(acc);
    } else {
      assert keys == KeysOf(acc) + [k];
      assert NoDuplicates(keys) by {
        forall i, j | 0 <= i < j < |keys| ensures keys[i] != keys[j] {
          if j == |keys| - 1 {
            assert keys[i] in KeysOf(acc);
          }
        }
      }
    }
    forall x
      ensures x in keys <==> x in ids + [k]
    {
      assert x in ids + [k] <==> x in ids || x == k;
    }
  }

  /** One step of the fold: the result is the prefix's result with the last item put. */
  lemma {:induction false} InitialStep(items: seq<Item>, resps: seq<RespItem>)
    requires |items| > 0 && FormInitialValues(items, resps).Ok?
    ensures FormInitialValues(items[..|items| - 1], resps).Ok?
    ensures InitialValueOf(items[|items| - 1], resps).Ok?
    ensures FormInitialValues(items, resps).value
         == Put(FormInitialValues(items[..|items| - 1], resps).value, items[|items| - 1].linkId,
                InitialValueOf(items[|items| - 1], resps).value)
  {
  }

  /** The value under a linkId is the value of the LAST item with that linkId. */
  lemma {:induction false} InitialValueOfLast(items: seq<Item>, resps: seq<RespItem>, i: nat)
    requires FormInitialValues(items, resps).Ok?
    requires i < |items| && forall j :: i < j < |items| ==> items[j].linkId != items[i].linkId
    ensures InitialValueOf(items[i], resps).Ok?
    ensures Get(FormInitialValues(items, resps).value, items[i].linkId) == InitialValueOf(items[i], resps).value
  {
    var pre := items[..|items| - 1];
    if i < |items| - 1 {
      InitialValueOfLast(pre, resps, i);
    }
  }

  /** Any item whose value cannot be derived makes the whole derivation throw. */
  lemma {:induction false} InitialValuesFail(items: seq<Item>, resps: seq<RespItem>, i: nat)
    requires i < |items| && InitialValueOf(items[i], resps).TypeError?
    ensures FormInitialValues(items, resps).TypeError?
  {
    if i < |items| - 1 {
      InitialValuesFail(items[..|items| - 1], resps, i);
    }
  }

  /** A group with children gets the nested values derived from the children of its
      matched response item, or from no response items when it has no match. */
  lemma {:induction false} GroupInitialValue(item: Item, resps: seq<RespItem>)
    requires item.itemType == Group && item.children.Items?
    ensures var found := FindResponse(item.linkId, resps);
            var sub := if found.None? then [] else ChildResps(found.value.children);
            InitialValueOf(item, resps)
              == match FormInitialValues(item.children.items, sub)
                 case TypeError => TypeError
                 case Ok(fields) => Ok(Obj(fields))
  {
  }

  /** Without a response, a group with children gets the object of its children's defaults. */
  lemma {:induction false} GroupNoResponse(item: Item)
    requires item.itemType == Group && item.children.Items?
    ensures InitialValueOf(item, [])
              == match FormInitialValues(item.children.items, [])
                 case TypeError => TypeError
                 case Ok(fields) => Ok(Obj(fields))
  {
    assert FindResponse(item.linkId, []) == None by { assert PreOrder([]) == []; }
    GroupInitialValue(item, []);
  }

  /** Without a response, every item gets its type's default (groups with children
      get the object of their children's defaults). */
  lemma {:induction false} NoResponseLeaf(item: Item)
    requires !(item.itemType == Group && item.children.Items?)
    ensures InitialValueOf(item, []) == Ok(FormInitialValue(item.itemType).GetOr(Null))
  {
    assert PreOrder([]) == [];
  }

  /** `getCorrectAnswerTypeValue`: the answer key of the first question with the
      name, `valueString` when there is none (and `undefined` for a type without an
      entry in the table). */
  function CorrectAnswerTypeValue(questionName: string, questions: seq<Item>): (r: Option<string>)
    ensures ItemIndex(questions, questionName) == |questions| ==> r == Some("valueString")
    ensures ItemIndex(questions, questionName) < |questions| ==>
              r == FormTypeValue(questions[ItemIndex(questions, questionName)].itemType)
  {
    var k := ItemIndex(questions, questionName);
    if k == |questions| then Some("valueString") else FormTypeValue(questions[k].itemType)
  }
}
