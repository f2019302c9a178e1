/** Choosing the active wizard group (`getCurrentQuestionnaireGroupInfo`): the first
    group whose questions are not yet answered, judged from a prior response. */
module GroupInfo {
  import opened Wrappers
  import opened JsValue
  import opened Fhir

  /** `flattenGroups`: the non-group descendants of a list of items, in document
      order; a group contributes its flattened children, never itself. */
  function FlattenGroups(items: seq<Item>): (r: seq<Item>)
    decreases items
    ensures forall i :: 0 <= i < |r| ==> r[i].itemType != Group
  {
    if |items| == 0 then [] else FlattenItem(items[0]) + FlattenGroups(items[1..])
  }

  function FlattenItem(item: Item): (r: seq<Item>)
    decreases item
    ensures forall i :: 0 <= i < |r| ==> r[i].itemType != Group
  {
    if item.itemType != Group then [item]
    else match item.children
         case NoItems => []
         case Items(c) => FlattenGroups(c)
  }

  /** The items of a list that are not groups, in order. */
  function NonGroups(items: seq<Item>): (r: seq<Item>)
    ensures |r| <= |items|
    ensures forall i :: 0 <= i < |r| ==> r[i].itemType != Group
  {
    if |items| == 0 then []
    else (if items[0].itemType == Group then [] else [items[0]]) + NonGroups(items[1..])
  }

  lemma {:induction false} NonGroupsAppend(a: seq<Item>, b: seq<Item>)
    ensures NonGroups(a + b) == NonGroups(a) + NonGroups(b)
  {
    if |a| == 0 {
      assert a + b == b;
    } else {
      assert (a + b)[1..] == a[1..] + b;
      NonGroupsAppend(a[1..], b);
    }
  }

  /** Flattening is the pre-order walk of the item tree with the group nodes dropped.
      (A non-group item's own children are not part of the result.) */
  lemma {:induction false} FlattenIsNonGroupPreOrder(items: seq<Item>)
    decreases items
    ensures FlattenGroups(items) == NonGroups(PreOrderOfGroups(items))
  {
    if |items| > 0 {
      FlattenItemIsNonGroupPreOrder(items[0]);
      FlattenIsNonGroupPreOrder(items[1..]);
      NonGroupsAppend(GroupTreePreOrder(items[0]), PreOrderOfGroups(items[1..]));
    }
  }

  lemma {:induction false} FlattenItemIsNonGroupPreOrder(item: Item)
    decreases item
    ensures FlattenItem(item) == NonGroups(GroupTreePreOrder(item))
  {
    if item.itemType == Group {
      if item.children.Items? {
        FlattenIsNonGroupPreOrder(item.children.items);
      }
      assert GroupTreePreOrder(item) == [item] + PreOrderOfGroups(ChildItems(item.children));
      NonGroupsAppend([item], PreOrderOfGroups(ChildItems(item.children)));
      assert [item][1..] == [];
    } else {
      assert GroupTreePreOrder(item) == [item];
      assert [item][1..] == [];
    }
  }

  /** The pre-order walk that descends into groups only. */
  function PreOrderOfGroups(items: seq<Item>): seq<Item>
    decreases items
  {
    if |items| == 0 then [] else GroupTreePreOrder(items[0]) + PreOrderOfGroups(items[1..])
  }

  function GroupTreePreOrder(item: Item): (r: seq<Item>)
    decreases item
    ensures |r| > 0 && r[0] == item
  {
    [item] + (if item.itemType != Group then []
              else match item.children
                   case NoItems => []
                   case Items(c) => PreOrderOfGroups(c))
  }

  /** Flattening distributes over concatenation. */
  lemma {:induction false} FlattenAppend(a: seq<Item>, b: seq<Item>)
    ensures FlattenGroups(a + b) == FlattenGroups(a) + FlattenGroups(b)
  {
    if |a| == 0 {
      assert a + b == b;
    } else {
      assert (a + b)[1..] == a[1..] + b;
      FlattenAppend(a[1..], b);
    }
  }

  /** A list without groups flattens to itself. */
  lemma {:induction false} FlattenNoGroups(items: seq<Item>)
    requires forall i :: 0 <= i < |items| ==> items[i].itemType != Group
    ensures FlattenGroups(items) == items
  {
    if |items| > 0 {
      FlattenNoGroups(items[1..]);
      assert [items[0]] + items[1..] == items;
    }
  }

  /** The linkIds that `getAllQuestionnaireAnswers` reports: those of the response
      items, anywhere in the tree, that carry at least one answer. */
  function AnsweredLinkIds(resps: seq<RespItem>): (ids: set<string>)
    ensures forall r :: r in PreOrder(resps) && r.answer.Some? && |r.answer.value| > 0 ==> r.linkId in ids
    ensures forall id :: id in ids ==> exists r :: r in PreOrder(resps) && r.answer.Some? && |r.answer.value| > 0
                                                   && r.linkId == id
  {
    var all := PreOrder(resps);
    set i | 0 <= i < |all| && all[i].answer.Some? && |all[i].answer.value| > 0 :: all[i].linkId
  }

  predicate AnyRequired(questions: seq<Item>) {
    exists i :: 0 <= i < |questions| && questions[i].required
  }

  predicate AllRequiredAnswered(questions: seq<Item>, answered: set<string>) {
    forall i :: 0 <= i < |questions| && questions[i].required ==> questions[i].linkId in answered
  }

  predicate AnyAnswered(questions: seq<Item>, answered: set<string>) {
    exists i :: 0 <= i < |questions| && questions[i].linkId in answered
  }

  /** A group is complete when all its required questions are answered, or, when it
      has none, when any of its questions is answered. */
  predicate GroupComplete(group: Item, answered: set<string>) {
    var questions := FlattenGroups(ChildItems(group.children));
    if AnyRequired(questions) then AllRequiredAnswered(questions, answered)
    else AnyAnswered(questions, answered)
  }

  /** `findIndex` of the first incomplete group, `|groups|` standing for `-1`. */
  function FirstIncomplete(groups: seq<Item>, answered: set<string>): (k: nat)
    ensures k <= |groups|
    ensures forall j :: 0 <= j < k ==> GroupComplete(groups[j], answered)
    ensures k < |groups| ==> !GroupComplete(groups[k], answered)
  {
    if |groups| == 0 then 0
    else if !GroupComplete(groups[0], answered) then 0
    else 1 + FirstIncomplete(groups[1..], answered)
  }

  /** The returned object: `{}`, or the current group, the group count and the index. */
  datatype Info = NoInfo | Info(currentGroup: Option<Item>, groupsCount: nat, groupIndex: int)

  /** `items[i]`, `undefined` outside the list (negative indices included). */
  function At(items: seq<Item>, i: int): (r: Option<Item>)
    ensures r.Some? <==> 0 <= i < |items|
    ensures r.Some? ==> r.value == items[i]
  {
    if 0 <= i < |items| then Some(items[i]) else None
  }

  predicate AllGroups(items: seq<Item>) {
    forall i :: 0 <= i < |items| ==> items[i].itemType == Group
  }

  function CurrentGroupInfo(q: Option<Questionnaire>, resp: Option<QuestionnaireResponse>,
                            navigator: Option<int>): (r: Info)
    ensures r.NoInfo? <==> q.None? || q.value.items.NoItems? || !AllGroups(q.value.items.items)
    ensures r.Info? ==> r.groupsCount == |q.value.items.items|
                        && r.currentGroup == At(q.value.items.items, r.groupIndex)
    ensures r.Info? && resp.None? ==> r.groupIndex == 0
    ensures r.Info? && resp.Some? && navigator.Some? ==> r.groupIndex == navigator.value
  {
    if q.None? || q.value.items.NoItems? || !AllGroups(q.value.items.items) then NoInfo
    else
      var groups := q.value.items.items;
      if resp.None? then Info(At(groups, 0), |groups|, 0)
      else if navigator.Some? then Info(At(groups, navigator.value), |groups|, navigator.value)
      else
        var answered := AnsweredLinkIds(ChildResps(resp.value.items));
        var k := FirstIncomplete(groups, answered);
        var index := if k == |groups| then |groups| - 1 else k;
        Info(At(groups, index), |groups|, index)
  }

  /** Without a navigator index the chosen group is the first incomplete one, every
      group before it being complete; when all are complete it is the last one. */
  lemma {:induction false} ChosenGroup(q: Questionnaire, resp: QuestionnaireResponse)
    requires q.items.Items? && |q.items.items| > 0 && AllGroups(q.items.items)
    ensures var r := CurrentGroupInfo(Some(q), Some(resp), None);
            var groups := q.items.items;
            var answered := AnsweredLinkIds(ChildResps(resp.items));
            r.Info? && 0 <= r.groupIndex < r.groupsCount
            && r.currentGroup == Some(groups[r.groupIndex])
            && (forall j :: 0 <= j < r.groupIndex ==> GroupComplete(groups[j], answered))
            && (!GroupComplete(groups[r.groupIndex], answered)
                || (r.groupIndex == |groups| - 1 && forall j :: 0 <= j < |groups| ==> GroupComplete(groups[j], answered)))
  {
  }

  /** An empty list of groups is "all groups": the index then falls to `-1`. */
  lemma {:induction false} EmptyGroupList(resp: QuestionnaireResponse)
    ensures CurrentGroupInfo(Some(Questionnaire(None, Items([]))), Some(resp), None) == Info(None, 0, -1)
  {
  }
}
