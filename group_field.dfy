/** The group question (`QuestionnaireGroupField`): the nested group it looks up
    among its parent's items and the form level it renders for it. */
module GroupField {
  import opened Wrappers
  import opened Fhir
  import QuestionnaireForm

  /** `findNestedGroup(items, linkId)`: an item before its descendants, an earlier
      sibling's whole subtree before the next sibling. */
  function FindNestedGroup(items: ItemList, linkId: string): (r: Option<Item>)
    ensures items.NoItems? ==> r.None?
  {
    match items
    case NoItems => None
    case Items(list) => FindInList(list, linkId)
  }

  function FindInList(list: seq<Item>, linkId: string): (r: Option<Item>)
    decreases list
    ensures r.Some? ==> r.value.linkId == linkId
  {
    if |list| == 0 then None
    else if list[0].linkId == linkId then Some(list[0])
    else
      match FindNestedGroup(list[0].children, linkId)
      case Some(nested) => Some(nested)
      case None => FindInList(list[1..], linkId)
  }

  /** The first item with the linkId in a sequence of items. */
  function FirstItem(s: seq<Item>, linkId: string): (r: Option<Item>)
    ensures r.None? <==> forall j :: 0 <= j < |s| ==> s[j].linkId != linkId
  {
    var k := ItemIndex(s, linkId);
    if k < |s| then Some(s[k]) else None
  }

  lemma {:induction false} ItemIndexAppend(a: seq<Item>, b: seq<Item>, linkId: string)
    ensures ItemIndex(a + b, linkId) == if ItemIndex(a, linkId) < |a| then ItemIndex(a, linkId) else |a| + ItemIndex(b, linkId)
  {
    if |a| > 0 {
      assert (a + b)[1..] == a[1..] + b;
      ItemIndexAppend(a[1..], b, linkId);
    } else {
      assert a + b == b;
    }
  }

  lemma {:induction false} FirstItemAppend(a: seq<Item>, b: seq<Item>, linkId: string)
    ensures FirstItem(a + b, linkId) == FirstItem(a, linkId).OrElse(FirstItem(b, linkId))
  {
    ItemIndexAppend(a, b, linkId);
  }

  /** The search finds the first item with the linkId in depth-first pre-order,
      and nothing when no item in the tree has it. */
  lemma {:induction false} FindIsPreOrderFirst(items: ItemList, linkId: string)
    decreases items, 1
    ensures FindNestedGroup(items, linkId) == FirstItem(ItemsPreOrder(ChildItems(items)), linkId)
  {
    if items.Items? {
      ListIsPreOrderFirst(items.items, linkId);
    }
  }

  lemma {:induction false} ListIsPreOrderFirst(list: seq<Item>, linkId: string)
    decreases list, 0
    ensures FindInList(list, linkId) == FirstItem(ItemsPreOrder(list), linkId)
  {
    if |list| > 0 {
      var head := list[0];
      var sub := match head.children case NoItems => [] case Items(c) => ItemsPreOrder(c);
      assert ItemTreePreOrder(head) == [head] + sub;
      assert ItemsPreOrder(list) == [head] + (sub + ItemsPreOrder(list[1..]));
      FirstItemAppend([head], sub + ItemsPreOrder(list[1..]), linkId);
      FirstItemAppend(sub, ItemsPreOrder(list[1..]), linkId);
      FindIsPreOrderFirst(head.children, linkId);
      ListIsPreOrderFirst(list[1..], linkId);
      assert ItemsPreOrder(ChildItems(head.children)) == sub;
    }
  }

  /** The level a group question renders: the nested group found among the parent's
      items under the question's own linkId, with `parentPath` the bare group linkId. */
  function GroupContent(parent: Option<Item>, props: QuestionnaireForm.FieldProps): (r: seq<Option<QuestionnaireForm.Element>>)
    ensures var nested := FindNestedGroup(if parent.None? then NoItems else parent.value.children, props.name);
            r == QuestionnaireForm.Render(nested, props.responseItem, props.name)
  {
    var items := if parent.None? then NoItems else parent.value.children;
    QuestionnaireForm.Render(FindNestedGroup(items, props.name), props.responseItem, props.name)
  }

  /** Inside a group, a question's path is `group.question` whatever the depth: the
      nested level receives only the group's own linkId, not the group's path. */
  lemma {:induction false} NestedPathIsOneLevel(parent: Item, grandparentPath: string, j: nat, i: nat)
    requires j < |ChildItems(parent.children)|
    requires var g := ChildItems(parent.children)[j];
             g.linkId != "" && FindNestedGroup(parent.children, g.linkId) == Some(g) && i < |ChildItems(g.children)|
    ensures var g := ChildItems(parent.children)[j];
            var r := GroupContent(Some(parent), QuestionnaireForm.PropsOf(g, None, grandparentPath));
            |r| == |ChildItems(g.children)|
            && (r[i].Some? ==> r[i].value.props.formFieldName == g.linkId + "." + ChildItems(g.children)[i].linkId)
  {
    var g := ChildItems(parent.children)[j];
    var props := QuestionnaireForm.PropsOf(g, None, grandparentPath);
    assert props.name == g.linkId;
    var r := GroupContent(Some(parent), props);
    assert r == QuestionnaireForm.Render(Some(g), None, g.linkId);
    var q := ChildItems(g.children)[i];
    assert r[i] == QuestionnaireForm.RenderChild(q, None, g.linkId);
    assert QuestionnaireForm.FormFieldName(g.linkId, q.linkId) == g.linkId + "." + q.linkId;
  }
}
