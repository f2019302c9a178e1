/** The `"current of total"` label of the wizard (`QuestionnaireWizardCounter`). */
module WizardCounter {
  import opened Wrappers
  import opened JsText

  /** Fewer groups than this and the counter is not shown. */
  const MINIMUM_GROUP_SIZE := 2

  /** The counter's text, `None` when it renders nothing: a missing or zero total or
      current, or a total below the minimum group size. */
  function CounterText(total: Option<int>, current: Option<int>): (r: Option<string>)
    ensures r.Some? <==> total.Some? && current.Some? && current.value != 0 && total.value >= MINIMUM_GROUP_SIZE
    ensures r.Some? ==> r.value == IntToDecimal(current.value) + " of " + IntToDecimal(total.value)
  {
    if total.None? || total.value == 0 || current.None? || current.value == 0 || total.value < MINIMUM_GROUP_SIZE then None
    else Some(IntToDecimal(current.value) + " of " + IntToDecimal(total.value))
  }

  /** A single group never shows a counter. */
  lemma {:induction false} SingleGroupHidden(current: Option<int>)
    ensures CounterText(Some(1), current).None?
  {
  }

  /** The counter's text starts with the current number, which `parseInt` reads back. */
  lemma {:induction false} CounterStartsWithCurrent(total: int, current: nat)
    requires total >= MINIMUM_GROUP_SIZE && current != 0
    ensures ParseInt(CounterText(Some(total), Some(current)).value) == Some(current)
  {
    var t := CounterText(Some(total), Some(current)).value;
    assert t == IntToDecimal(current) + (" of " + IntToDecimal(total));
    ParseIntBeforeSpace(current, " of " + IntToDecimal(total));
  }
}
