/** The questionnaire wizard (`IntakeForms` in `GenericQuestionnaire`): the loaded
    questionnaire and response, the navigator index, the schema and the form values,
    and the transitions on load, submit, previous and the two effects. */
module Wizard {
  import opened Wrappers
  import opened JsValue
  import opened Fhir
  import GroupInfo
  import InitialValues
  import Schema
  import WizardCounter

  /** The navigator after a submit: the next group, except when there is no index yet
      or the next index equals the group count exactly. */
  function SubmitNavigator(prev: Option<int>, groupsCount: nat): (r: Option<int>)
    ensures prev.None? ==> r.None?
    ensures prev.Some? && prev.value + 1 == groupsCount ==> r == prev
    ensures prev.Some? && prev.value + 1 != groupsCount ==> r == Some(prev.value + 1)
  {
    if prev.Some? && prev.value + 1 != groupsCount then Some(prev.value + 1) else prev
  }

  /** The navigator after `Previous` (the handler returns early at index 0 before this). */
  function PreviousNavigator(prev: Option<int>): (r: Option<int>)
    ensures prev.Some? ==> r == Some(prev.value - 1)
    ensures prev.None? ==> r == Some(0)
  {
    if prev.Some? then Some(prev.value - 1) else Some(0)
  }

  /** The navigator points at a group when there is one. */
  predicate InRange(nav: Option<int>, groupsCount: nat) {
    nav.Some? ==> 0 <= nav.value < groupsCount
  }

  /** Submitting keeps an in-range navigator in range, and stays on the last group. */
  lemma {:induction false} SubmitInRange(prev: Option<int>, groupsCount: nat)
    requires InRange(prev, groupsCount)
    ensures InRange(SubmitNavigator(prev, groupsCount), groupsCount)
    ensures prev == Some(groupsCount - 1) ==> SubmitNavigator(prev, groupsCount) == prev
  {
  }

  /** `Previous` from a positive index, or from no index with some group, keeps the
      navigator in range. */
  lemma {:induction false} PreviousInRange(prev: Option<int>, groupsCount: nat)
    requires InRange(prev, groupsCount) && prev != Some(0) && groupsCount > 0
    ensures InRange(PreviousNavigator(prev), groupsCount)
  {
  }

  /** Setting the navigator to the computed index is a fixed point: the info computed
      with that navigator has the same index. */
  lemma {:induction false} SyncIsFixedPoint(q: Option<Questionnaire>, resp: QuestionnaireResponse, nav: Option<int>)
    requires GroupInfo.CurrentGroupInfo(q, Some(resp), nav).Info?
    ensures var i := GroupInfo.CurrentGroupInfo(q, Some(resp), nav).groupIndex;
            GroupInfo.CurrentGroupInfo(q, Some(resp), Some(i)).groupIndex == i
  {
  }

  /** The responses of the group at `groupIndex`: `response.item[groupIndex].item`,
      chosen by position, or `[]`. */
  function GroupResponses(response: Option<QuestionnaireResponse>, info: GroupInfo.Info): (r: seq<RespItem>)
    ensures response.None? || info.NoInfo? ==> r == []
    ensures response.Some? && info.Info? && response.value.items.RespItems?
            && 0 <= info.groupIndex < |response.value.items.items|
            ==> r == ChildResps(response.value.items.items[info.groupIndex].children)
  {
    if response.Some? && response.value.items.RespItems? && info.Info? then
      var items := response.value.items.items;
      if 0 <= info.groupIndex < |items| then ChildResps(items[info.groupIndex].children) else []
    else []
  }

  /** The response item the form level of the current group reads:
      `response.item[groupIndex || 0]`. */
  function FormResponse(response: Option<QuestionnaireResponse>, info: GroupInfo.Info): (r: Option<RespItem>)
    ensures response.None? || response.value.items.NoRespItems? ==> r.None?
    ensures response.Some? && response.value.items.RespItems? ==>
              var index := if info.Info? then info.groupIndex else 0;
              var items := response.value.items.items;
              (0 <= index < |items| ==> r == Some(items[index])) && (!(0 <= index < |items|) ==> r.None?)
  {
    if response.None? || response.value.items.NoRespItems? then None
    else
      var index := if info.Info? && info.groupIndex != 0 then info.groupIndex else 0;
      var items := response.value.items.items;
      if 0 <= index < |items| then Some(items[index]) else None
  }

  /** The items of the current group (`currentGroup?.item || []`). */
  function CurrentItems(info: GroupInfo.Info): (r: seq<Item>)
    ensures info.NoInfo? || info.currentGroup.None? ==> r == []
    ensures info.Info? && info.currentGroup.Some? ==> r == ChildItems(info.currentGroup.value.children)
  {
    if info.Info? && info.currentGroup.Some? then ChildItems(info.currentGroup.value.children) else []
  }

  /** The form level reads the same response item whose children seed the initial
      values: the form response's children are the group responses. */
  lemma {:induction false} FormResponseIsGroupResponse(response: Option<QuestionnaireResponse>, info: GroupInfo.Info)
    requires info.Info? && FormResponse(response, info).Some?
    ensures ChildResps(FormResponse(response, info).value.children) == GroupResponses(response, info)
  {
  }

  /** Positioned on group `k` of a questionnaire of groups, the wizard shows that
      group's own items. */
  lemma {:induction false} CurrentItemsOfGroup(q: Questionnaire, resp: Option<QuestionnaireResponse>, k: nat)
    requires q.items.Items? && GroupInfo.AllGroups(q.items.items) && k < |q.items.items|
    requires resp.Some?
    ensures CurrentItems(GroupInfo.CurrentGroupInfo(Some(q), resp, Some(k))) == ChildItems(q.items.items[k].children)
  {
  }

  /** The counter's `current`: `groupIndex + 1` when there is an index. */
  function CounterOf(info: GroupInfo.Info): (r: Option<string>)
  {
    if info.Info? then WizardCounter.CounterText(Some(info.groupsCount), Some(info.groupIndex + 1))
    else WizardCounter.CounterText(None, None)
  }

  /** A wizard over two or more groups, positioned on group `k`, shows `k + 1 of n`. */
  lemma {:induction false} CounterShowsPosition(q: Questionnaire, resp: QuestionnaireResponse, k: nat)
    requires q.items.Items? && GroupInfo.AllGroups(q.items.items) && 2 <= |q.items.items| && k < |q.items.items|
    ensures CounterOf(GroupInfo.CurrentGroupInfo(Some(q), Some(resp), Some(k)))
            == Some(JsText.IntToDecimal(k + 1) + " of " + JsText.IntToDecimal(|q.items.items|))
  {
  }

  class IntakeForm {
    var questionnaire: Option<Questionnaire>
    var response: Option<QuestionnaireResponse>
    var loading: bool
    var schema: Option<Schema.Rule>
    var navigator: Option<int>
    var values: seq<Field>

    constructor()
      ensures questionnaire.None? && response.None? && loading && schema.None? && navigator.None? && values == []
    {
      questionnaire := None;
      response := None;
      loading := true;
      schema := None;
      navigator := None;
      values := [];
    }

    /** The group info computed on every render. */
    function Info(): GroupInfo.Info
      reads this
    {
      GroupInfo.CurrentGroupInfo(questionnaire, response, navigator)
    }

    /** Loading: the fetched questionnaire is kept; the user's response is fetched (here:
        passed in) only when the questionnaire has items. */
    method Load(fetched: Option<Questionnaire>, fetchedResponse: Option<QuestionnaireResponse>)
      modifies this
      ensures questionnaire == fetched && !loading
      ensures response == if fetched.Some? && fetched.value.items.Items? && |fetched.value.items.items| > 0
                          then fetchedResponse else old(response)
      ensures navigator == old(navigator) && schema == old(schema) && values == old(values)
    {
      questionnaire := fetched;
      if fetched.Some? && fetched.value.items.Items? && |fetched.value.items.items| > 0 {
        response := fetchedResponse;
      }
      loading := false;
    }

    /** Submit of the values the user entered (`formValues`, as the form library hands
        them to the handler): a no-op without a current group, a non-empty questionnaire
        id or a schema, and when those values do not parse; otherwise the saved response
        (passed in) replaces the response and the navigator advances. The parsed values
        are returned. */
    method HandleSubmit(formValues: seq<Field>, saved: QuestionnaireResponse) returns (parsed: Option<Value>)
      modifies this
      ensures var info := old(Info());
              var ready := info.Info? && info.currentGroup.Some? && old(questionnaire).Some?
                           && old(questionnaire).value.id.Some? && old(questionnaire).value.id.value != ""
                           && old(schema).Some?;
              if ready && Schema.Check(old(schema).value, Obj(formValues)).Some? then
                parsed == Schema.Check(old(schema).value, Obj(formValues))
                && response == Some(saved) && navigator == SubmitNavigator(old(navigator), info.groupsCount)
              else parsed.None? && response == old(response) && navigator == old(navigator)
      ensures questionnaire == old(questionnaire) && schema == old(schema) && values == old(values)
      ensures loading == old(loading)
    {
      var info := Info();
      if info.NoInfo? || info.currentGroup.None? || questionnaire.None? || questionnaire.value.id.None?
         || questionnaire.value.id.value == "" || schema.None? {
        return None;
      }
      parsed := Schema.Check(schema.value, Obj(formValues));
      if parsed.None? {
        return;
      }
      response := Some(saved);
      navigator := SubmitNavigator(navigator, info.groupsCount);
    }

    /** `Previous`: nothing at index 0, otherwise one group back (to 0 from no index). */
    method OnPrevious()
      modifies this
      ensures navigator == if old(navigator) == Some(0) then old(navigator) else PreviousNavigator(old(navigator))
      ensures questionnaire == old(questionnaire) && response == old(response)
      ensures schema == old(schema) && values == old(values) && loading == old(loading)
    {
      if navigator == Some(0) {
        return;
      }
      navigator := PreviousNavigator(navigator);
    }

    /** The index effect: with a response, the navigator takes the computed index
        (`undefined` when there is no group info). */
    method SyncIndex()
      modifies this
      ensures old(response).Some? ==> navigator == if old(Info()).Info? then Some(old(Info()).groupIndex) else None
      ensures old(response).None? ==> navigator == old(navigator)
      ensures questionnaire == old(questionnaire) && response == old(response)
      ensures schema == old(schema) && values == old(values) && loading == old(loading)
    {
      if response.Some? {
        var info := Info();
        navigator := if info.Info? then Some(info.groupIndex) else None;
      }
    }

    /** The form effect: the schema of the current group's items, and the initial
        values derived from them and the current group's responses (`ok` is false when
        the derivation throws, leaving the values as they were). */
    method ResetForm() returns (ok: bool)
      modifies this
      ensures var items := CurrentItems(old(Info()));
              schema == Some(Schema.FormSchema(items))
              && var derived := InitialValues.FormInitialValues(items, GroupResponses(old(response), old(Info())));
                 ok == derived.Ok? && values == (if ok then derived.value else old(values))
      ensures questionnaire == old(questionnaire) && response == old(response)
      ensures navigator == old(navigator) && loading == old(loading)
    {
      var info := Info();
      var items := CurrentItems(info);
      schema := Some(Schema.FormSchema(items));
      var derived := InitialValues.FormInitialValues(items, GroupResponses(response, info));
      ok := derived.Ok?;
      if ok {
        values := derived.value;
      }
    }
  }
}
