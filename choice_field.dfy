/** The choice question: which input a `choice` item is rendered with, the radio
    options built from its answer options, the option a response selects, and the
    radio group's change handler. */
module ChoiceField {
  import opened Wrappers
  import opened JsText
  import opened JsValue
  import opened Fhir
  import Constants

  /** The three inputs a choice item can be rendered with. */
  datatype Strategy = CheckBoxGroup | CodingInput(binding: string) | RadioGroup

  /** `check-box` item control first, else a (non-empty) `answerValueSet`, else the radio group. */
  function StrategyOf(item: Item): (s: Strategy)
    ensures s == CheckBoxGroup <==> ItemControlCode(item) == Str("check-box")
    ensures s.CodingInput? <==> ItemControlCode(item) != Str("check-box")
                                && item.answerValueSet.Some? && item.answerValueSet.value != ""
    ensures s.CodingInput? ==> s.binding == item.answerValueSet.value
  {
    if ItemControlCode(item) == Str("check-box") then CheckBoxGroup
    else if item.answerValueSet.Some? && item.answerValueSet.value != "" then CodingInput(item.answerValueSet.value)
    else RadioGroup
  }

  /** A `check-box` control wins over a value set. */
  lemma {:induction false} CheckBoxWins(item: Item, rest: seq<Value>)
    requires item.extension == Some([Extension(ITEM_CONTROL_URL,
               Obj([Field("coding", Arr([Obj([Field("code", Str("check-box"))])] + rest))]))])
    ensures StrategyOf(item) == CheckBoxGroup
  {
    ItemControlCodeOf(item, "check-box", rest);
  }

  /** The answer the coding input reports: `{valueCoding: code}`, the shape the
      `valueCoding` parser produces when an answer is loaded. */
  function CodingAnswer(code: Value): (r: Value)
    ensures r == Constants.ApplyParser(Constants.ParserOf("valueCoding").value, code)
  {
    Obj([Field("valueCoding", code)])
  }

  /** The coding input's answer, read back as the current answer, yields its code. */
  lemma {:induction false} CodingAnswerReadBack(code: Value, ri: RespItem)
    requires code != Undef && ri.answer == Some([CodingAnswer(code)])
    ensures CurrentAnswer(Some(ri), 0) == Some(TypedValue("Coding", code))
  {
    assert "valueCoding"[..5] == "value";
    assert "valueCoding"[5..] == "Coding";
  }

  /** A key of the `value[x]` choice: `value` followed by a type name. */
  predicate IsValueKey(k: string) {
    |k| > 5 && k[..5] == "value"
  }

  /** The typed `value[x]` of an answer object: its first `value...` field with a
      defined value; `None` for anything else. */
  function AnswerValue(answer: Value): (r: Option<TypedValue>)
    ensures r.Some? ==> answer.Obj? && Field("value" + r.value.valueType, r.value.value) in answer.fields
                        && r.value.value != Undef
    ensures answer.Obj? && r.None? ==>
              forall i :: 0 <= i < |answer.fields| && IsValueKey(answer.fields[i].key) ==> answer.fields[i].val == Undef
  {
    if answer.Obj? then FirstValueField(answer.fields) else None
  }

  /** A `value...` field with a defined value. */
  predicate IsDefinedValueField(f: Field) {
    IsValueKey(f.key) && f.val != Undef
  }

  /** No field before index `k` is a defined `value...` field. */
  predicate NoValueFieldBefore(fields: seq<Field>, k: nat) {
    forall j :: 0 <= j < k && j < |fields| ==> !IsDefinedValueField(fields[j])
  }

  /** The typed value of the FIRST defined `value...` field. */
  function FirstValueField(fields: seq<Field>): (r: Option<TypedValue>)
    ensures r.Some? ==> Field("value" + r.value.valueType, r.value.value) in fields && r.value.value != Undef
    ensures r.Some? ==> exists k :: 0 <= k < |fields| && IsDefinedValueField(fields[k])
                                    && fields[k] == Field("value" + r.value.valueType, r.value.value)
                                    && NoValueFieldBefore(fields, k)
    ensures r.None? ==> forall i :: 0 <= i < |fields| && IsValueKey(fields[i].key) ==> fields[i].val == Undef
  {
    if |fields| == 0 then None
    else if IsDefinedValueField(fields[0]) then
      assert "value" + fields[0].key[5..] == fields[0].key;
      Some(TypedValue(fields[0].key[5..], fields[0].val))
    else
      var r := FirstValueField(fields[1..]);
      assert forall f :: f in fields[1..] ==> f in fields;
      if r.Some? then
        var k :| 0 <= k < |fields[1..]| && IsDefinedValueField(fields[1..][k])
                 && fields[1..][k] == Field("value" + r.value.valueType, r.value.value)
                 && NoValueFieldBefore(fields[1..], k);
        assert fields[k + 1] == fields[1..][k];
        assert forall j :: 1 <= j < k + 1 ==> fields[j] == fields[1..][j - 1];
        assert NoValueFieldBefore(fields, k + 1);
        r
      else r
  }

  /** `getCurrentAnswer(response, index)`: the typed value of answer `index` of the
      response item, `None` when there is no such answer. */
  function CurrentAnswer(response: Option<RespItem>, index: nat): (r: Option<TypedValue>)
    ensures r.Some? ==> response.Some? && response.value.answer.Some? && index < |response.value.answer.value|
                        && r == AnswerValue(response.value.answer.value[index])
    ensures response.Some? && response.value.answer.Some? && index < |response.value.answer.value|
            ==> r == AnswerValue(response.value.answer.value[index])
    ensures !(response.Some? && response.value.answer.Some? && index < |response.value.answer.value|) ==> r.None?
  {
    if response.Some? && response.value.answer.Some? && index < |response.value.answer.value|
    then AnswerValue(Coalesce(response.value.answer.value[index], Obj([])))
    else AnswerValue(Obj([]))
  }

  /** One radio option: its name and its typed value. */
  datatype RadioOption = RadioOption(name: string, value: TypedValue)

  /** `${name}-option-${i}`. */
  function OptionName(name: string, i: nat): (r: string)
    ensures r == name + "-option-" + NatToDecimal(i)
  {
    name + "-option-" + NatToDecimal(i)
  }

  /** Distinct indices give distinct option names. */
  lemma {:induction false} OptionNameInjective(name: string, i: nat, j: nat)
    requires OptionName(name, i) == OptionName(name, j)
    ensures i == j
  {
    var p := name + "-option-";
    assert OptionName(name, i)[|p|..] == NatToDecimal(i);
    assert OptionName(name, j)[|p|..] == NatToDecimal(j);
    NatToDecimalInjective(i, j);
  }

  /** The options the loop builds: every answer option with a truthy value, under
      the name of its ORIGINAL index, in order. */
  function OptionsOf(name: string, opts: seq<TypedValue>): (r: seq<RadioOption>)
    ensures |r| <= |opts|
  {
    if |opts| == 0 then []
    else
      var n := |opts| - 1;
      OptionsOf(name, opts[..n]) + (if Truthy(opts[n].value) then [RadioOption(OptionName(name, n), opts[n])] else [])
  }

  /** The indices of the answer options with a truthy value, in increasing order. */
  function TruthyIndices(opts: seq<TypedValue>): (r: seq<nat>)
    ensures forall k :: 0 <= k < |r| ==> r[k] < |opts| && Truthy(opts[r[k]].value)
    ensures forall k, l :: 0 <= k < l < |r| ==> r[k] < r[l]
  {
    if |opts| == 0 then []
    else
      var n := |opts| - 1;
      TruthyIndices(opts[..n]) + (if Truthy(opts[n].value) then [n] else [])
  }

  /** The options keep the answer options' order: option `k` is the answer option at
      the `k`-th truthy index, under that index's name. */
  lemma {:induction false} OptionsInOrder(name: string, opts: seq<TypedValue>)
    ensures |OptionsOf(name, opts)| == |TruthyIndices(opts)|
    ensures forall k :: 0 <= k < |OptionsOf(name, opts)| ==>
              OptionsOf(name, opts)[k] == RadioOption(OptionName(name, TruthyIndices(opts)[k]), opts[TruthyIndices(opts)[k]])
  {
    if |opts| > 0 {
      var n := |opts| - 1;
      var pre := opts[..n];
      OptionsInOrder(name, pre);
      var po, pi := OptionsOf(name, pre), TruthyIndices(pre);
      var o, ix := OptionsOf(name, opts), TruthyIndices(opts);
      var last := if Truthy(opts[n].value) then [RadioOption(OptionName(name, n), opts[n])] else [];
      assert o == po + last;
      assert ix == pi + (if Truthy(opts[n].value) then [n] else []);
      forall k | 0 <= k < |o| ensures o[k] == RadioOption(OptionName(name, ix[k]), opts[ix[k]]) {
        if k < |po| {
          assert o[k] == po[k] && ix[k] == pi[k];
          assert pre[pi[k]] == opts[pi[k]];
        }
      }
    }
  }

  /** The loop's default: the name of the LAST option equal to the initial value. */
  function DefaultOf(name: string, opts: seq<TypedValue>, initial: Option<TypedValue>): Option<string>
  {
    if |opts| == 0 then None
    else
      var n := |opts| - 1;
      if Truthy(opts[n].value) && initial == Some(opts[n]) then Some(OptionName(name, n))
      else DefaultOf(name, opts[..n], initial)
  }

  /** Building the options and the default in one pass over the answer options. */
  method BuildOptions(name: string, answerOption: seq<TypedValue>, initial: Option<TypedValue>)
    returns (options: seq<RadioOption>, default: Option<string>)
    ensures options == OptionsOf(name, answerOption)
    ensures default == DefaultOf(name, answerOption, initial)
  {
    options := [];
    default := None;
    for i := 0 to |answerOption|
      invariant options == OptionsOf(name, answerOption[..i])
      invariant default == DefaultOf(name, answerOption[..i], initial)
    {
      assert answerOption[..i + 1][..i] == answerOption[..i];
      var optionName := OptionName(name, i);
      var optionValue := answerOption[i];
      if !Truthy(optionValue.value) {
        continue;
      }
      if initial.Some? && optionValue == initial.value {
        default := Some(optionName);
      }
      options := options + [RadioOption(optionName, optionValue)];
    }
    assert answerOption[..|answerOption|] == answerOption;
  }

  /** Every option is an answer option with a truthy value, named after its index. */
  lemma {:induction false} OptionsAreTruthyOptions(name: string, opts: seq<TypedValue>, k: nat)
    requires k < |OptionsOf(name, opts)|
    ensures exists j :: 0 <= j < |opts| && Truthy(opts[j].value)
                        && OptionsOf(name, opts)[k] == RadioOption(OptionName(name, j), opts[j])
  {
    var n := |opts| - 1;
    var pre := OptionsOf(name, opts[..n]);
    if k < |pre| {
      OptionsAreTruthyOptions(name, opts[..n], k);
      var j :| 0 <= j < n && Truthy(opts[..n][j].value) && pre[k] == RadioOption(OptionName(name, j), opts[..n][j]);
      assert OptionsOf(name, opts)[k] == pre[k];
    } else {
      assert OptionsOf(name, opts)[k] == RadioOption(OptionName(name, n), opts[n]);
    }
  }

  /** Every answer option with a truthy value is offered, under its index's name. */
  lemma {:induction false} TruthyOptionsOffered(name: string, opts: seq<TypedValue>, j: nat)
    requires j < |opts| && Truthy(opts[j].value)
    ensures RadioOption(OptionName(name, j), opts[j]) in OptionsOf(name, opts)
  {
    var n := |opts| - 1;
    if j < n {
      TruthyOptionsOffered(name, opts[..n], j);
    }
  }

  /** Without an initial value (the only way the radio input is created) there is no default. */
  lemma {:induction false} NoInitialNoDefault(name: string, opts: seq<TypedValue>)
    ensures DefaultOf(name, opts, None) == None
  {
    if |opts| > 0 {
      NoInitialNoDefault(name, opts[..|opts| - 1]);
    }
  }

  /** The default is the name of the last truthy option equal to the initial value. */
  lemma {:induction false} DefaultIsLastMatch(name: string, opts: seq<TypedValue>, initial: TypedValue, j: nat)
    requires j < |opts| && Truthy(opts[j].value) && opts[j] == initial
    requires forall j' :: j < j' < |opts| ==> !(Truthy(opts[j'].value) && opts[j'] == initial)
    ensures DefaultOf(name, opts, Some(initial)) == Some(OptionName(name, j))
  {
    var n := |opts| - 1;
    if j < n {
      DefaultIsLastMatch(name, opts[..n], initial, j);
    }
  }

  /** The index of the first option with the given name, `|options|` when none has it. */
  function OptionByName(options: seq<RadioOption>, n: string): (k: nat)
    ensures k <= |options|
    ensures forall j :: 0 <= j < k ==> options[j].name != n
    ensures k < |options| ==> options[k].name == n
  {
    if |options| == 0 then 0 else if options[0].name == n then 0 else 1 + OptionByName(options[1..], n)
  }

  /** The index of the first option whose value deep-equals `v`. */
  function OptionByValue(options: seq<RadioOption>, v: Value): (k: nat)
    ensures k <= |options|
    ensures forall j :: 0 <= j < k ==> options[j].value.value != v
    ensures k < |options| ==> options[k].value.value == v
  {
    if |options| == 0 then 0 else if options[0].value.value == v then 0 else 1 + OptionByValue(options[1..], v)
  }

  /** `getCurrentRadioAnswer(options, answer)`: the name of the first option whose
      value equals the answer's value. */
  function CurrentRadioAnswer(options: seq<RadioOption>, answer: Option<TypedValue>): (r: Option<string>)
    ensures r.Some? <==> exists j :: 0 <= j < |options| && options[j].value.value == (if answer.Some? then answer.value.value else Undef)
    ensures r.Some? ==> var v := if answer.Some? then answer.value.value else Undef;
              exists k :: 0 <= k < |options| && options[k].value.value == v && r.value == options[k].name
                          && forall j :: 0 <= j < k ==> options[j].value.value != v
  {
    var v := if answer.Some? then answer.value.value else Undef;
    var k := OptionByValue(options, v);
    if k < |options| then Some(options[k].name) else None
  }

  /** An unanswered question selects no option: every option's value is truthy, so
      none equals `undefined`. */
  lemma {:induction false} UnansweredSelectsNothing(name: string, opts: seq<TypedValue>)
    ensures CurrentRadioAnswer(OptionsOf(name, opts), None) == None
  {
    var options := OptionsOf(name, opts);
    forall k | 0 <= k < |options| ensures options[k].value.value != Undef {
      OptionsAreTruthyOptions(name, opts, k);
    }
  }

  /** The radio group of a choice item: its options and the selected option name. */
  class RadioInput {
    const name: string
    const options: seq<RadioOption>
    var selected: Option<string>

    /** The first render: `answerLinkId ?? defaultValue`, with no initial value. */
    constructor(name: string, item: Item, response: Option<RespItem>)
      ensures this.name == name && options == OptionsOf(name, item.answerOption)
      ensures selected == CurrentRadioAnswer(options, CurrentAnswer(response, 0)).OrElse(DefaultOf(name, item.answerOption, None))
    {
      var opts, default := BuildOptions(name, item.answerOption, None);
      this.name := name;
      options := opts;
      var answerLinkId := CurrentRadioAnswer(opts, CurrentAnswer(response, 0));
      selected := answerLinkId.OrElse(default);
    }

    /** `onChange(newValue)`: a known option name becomes the selection and its typed
        value (the bare value, not an answer object) is reported; an unknown name
        changes nothing and reports nothing. */
    method OnChange(newValue: string) returns (reported: Option<Value>)
      modifies this
      ensures var k := OptionByName(options, newValue);
              if k < |options| then selected == Some(newValue) && reported == Some(options[k].value.value)
              else selected == old(selected) && reported == None
    {
      var k := OptionByName(options, newValue);
      if k < |options| {
        selected := Some(newValue);
        reported := Some(options[k].value.value);
      } else {
        reported := None;
      }
    }
  }

  /** Choosing the option named after answer option `j` reports that option's value. */
  lemma {:induction false} ChoosingOptionReportsItsValue(name: string, opts: seq<TypedValue>, j: nat)
    requires j < |opts| && Truthy(opts[j].value)
    ensures var options := OptionsOf(name, opts);
            var k := OptionByName(options, OptionName(name, j));
            k < |options| && options[k].value == opts[j]
  {
    var options := OptionsOf(name, opts);
    TruthyOptionsOffered(name, opts, j);
    var k := OptionByName(options, OptionName(name, j));
    OptionsAreTruthyOptions(name, opts, k);
    var j' :| 0 <= j' < |opts| && Truthy(opts[j'].value) && options[k] == RadioOption(OptionName(name, j'), opts[j']);
    OptionNameInjective(name, j, j');
  }
}
