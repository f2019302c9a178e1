/** The conditional-visibility gate (`EnableWhenWrapper`): a simplified, single-condition
    form of `Questionnaire.item.enableWhen`. */
module EnableWhenGate {
  import opened Wrappers
  import opened JsText
  import opened JsValue
  import opened Fhir
  import opened FormAnswer

  /** `isEnableWhenPossibility`: the operators the gate evaluates (all but `exists`). */
  predicate IsEnableWhenPossibility(op: Operator) {
    op in {Eq, Ne, Gt, Lt, Ge, Le}
  }

  /** `parseInt(answer) <op> answerInteger`: a `NaN` on either side makes it false. */
  predicate NumericCondition(op: Operator, answer: Value, bound: Option<int>) {
    match ParseInt(ToJsString(answer))
    case None => false
    case Some(n) =>
      bound.Some? &&
      match op
      case Gt => n > bound.value
      case Lt => n < bound.value
      case Ge => n >= bound.value
      case Le => n <= bound.value
      case _ => false
  }

  /** Whether the gate renders its children for the current form values. */
  function Gate(values: Value, rule: Option<EnableWhen>): (render: bool)
    requires IsObject(values)
    ensures rule.None? ==> render
    ensures rule.Some? && !IsEnableWhenPossibility(rule.value.operator) ==> render
    ensures (rule.Some? && IsEnableWhenPossibility(rule.value.operator)
             && !Truthy(NestedAnswer(values, rule.value.question))) ==> !render
    ensures rule.Some? && rule.value.operator == Eq && Truthy(NestedAnswer(values, rule.value.question)) ==>
              (render <==> rule.value.answerString.Some?
                           && NestedAnswer(values, rule.value.question) == Str(rule.value.answerString.value))
    ensures rule.Some? && rule.value.operator == Ne && Truthy(NestedAnswer(values, rule.value.question)) ==>
              (render <==> !(rule.value.answerString.Some?
                             && NestedAnswer(values, rule.value.question) == Str(rule.value.answerString.value)))
    ensures rule.Some? && rule.value.operator in {Gt, Lt, Ge, Le} && Truthy(NestedAnswer(values, rule.value.question)) ==>
              (render <==> NumericCondition(rule.value.operator, NestedAnswer(values, rule.value.question),
                                            rule.value.answerInteger))
  {
    match rule
    case None => true
    case Some(ew) =>
      if !IsEnableWhenPossibility(ew.operator) then true
      else
        var answer := NestedAnswer(values, ew.question);
        if !Truthy(answer) then false
        else
          match ew.operator
          case Eq => ew.answerString.Some? && answer == Str(ew.answerString.value)
          case Ne => !(ew.answerString.Some? && answer == Str(ew.answerString.value))
          case _ => NumericCondition(ew.operator, answer, ew.answerInteger)
  }

  /** For a truthy answer, `=` and `!=` render in exactly complementary cases. */
  lemma {:induction false} EqualityComplement(values: Value, question: string, s: Option<string>, n: Option<int>)
    requires IsObject(values) && Truthy(NestedAnswer(values, question))
    ensures Gate(values, Some(EnableWhen(question, Eq, s, n))) != Gate(values, Some(EnableWhen(question, Ne, s, n)))
  {
  }

  /** A number answer is compared by its value: `parseInt(String(i))` is `i`. */
  lemma {:induction false} NumberAnswer(values: Value, question: string, op: Operator, i: int, bound: int)
    requires IsObject(values) && NestedAnswer(values, question) == Int(i) && i != 0
    requires op in {Gt, Lt, Ge, Le}
    ensures Gate(values, Some(EnableWhen(question, op, None, Some(bound))))
         == match op
            case Gt => i > bound
            case Lt => i < bound
            case Ge => i >= bound
            case _ => i <= bound
  {
    ParseIntOfDecimal(i);
  }

  /** A text answer holding an integer's decimal form is compared by that integer. */
  lemma {:induction false} DecimalTextAnswer(values: Value, question: string, op: Operator, i: int, bound: int)
    requires IsObject(values) && NestedAnswer(values, question) == Str(IntToDecimal(i))
    requires op in {Gt, Lt, Ge, Le}
    ensures Gate(values, Some(EnableWhen(question, op, None, Some(bound))))
         == match op
            case Gt => i > bound
            case Lt => i < bound
            case Ge => i >= bound
            case _ => i <= bound
  {
    ParseIntOfDecimal(i);
  }

  /** A missing `answerInteger` suppresses every ordering comparison. */
  lemma {:induction false} MissingBound(values: Value, question: string, op: Operator, s: Option<string>)
    requires IsObject(values) && op in {Gt, Lt, Ge, Le}
    ensures !Gate(values, Some(EnableWhen(question, op, s, None)))
  {
  }

  /** A date answer is not numeric: every ordering comparison suppresses the children. */
  lemma {:induction false} DateAnswer(values: Value, question: string, op: Operator, iso: string, n: Option<int>)
    requires IsObject(values) && NestedAnswer(values, question) == Date(iso)
    requires op in {Gt, Lt, Ge, Le}
    ensures !Gate(values, Some(EnableWhen(question, op, None, n)))
  {
    ParseIntLetterFirst(DateText(iso));
  }

  /** An answer whose string form does not start with an integer (`"abc"`, `true`, an
      array or an object) suppresses every ordering comparison, whatever the bound. */
  lemma {:induction false} NonNumericAnswer(values: Value, question: string, op: Operator, s: Option<string>,
                                            n: Option<int>)
    requires IsObject(values) && op in {Gt, Lt, Ge, Le}
    requires ParseInt(ToJsString(NestedAnswer(values, question))).None?
    ensures !Gate(values, Some(EnableWhen(question, op, s, n)))
  {
  }

  /** For a numeric answer `<` and `>=` render in exactly complementary cases. */
  lemma {:induction false} OrderComplement(values: Value, question: string, i: int, bound: int)
    requires IsObject(values) && NestedAnswer(values, question) == Int(i) && i != 0
    ensures Gate(values, Some(EnableWhen(question, Lt, None, Some(bound))))
         != Gate(values, Some(EnableWhen(question, Ge, None, Some(bound))))
  {
    NumberAnswer(values, question, Lt, i, bound);
    NumberAnswer(values, question, Ge, i, bound);
  }
}
