/** The validation schema derived from a questionnaire (`zodFormSchema`), as a tree of
    rules, with the acceptance and transformation each rule stands for. */
module Schema {
  import opened Wrappers
  import opened JsText
  import opened JsValue
  import opened Fhir
  import InitialValues
  import Constants

  const REQUIRED_FIELD_MESSAGE := "This field is required"

  /** The rules the schema is built from: `zStringReq()` (trimmed, at least one
      character), `z.string()`, a required date, an optional (nullish) date, `z.any()`
      and `z.object(shape)`. */
  datatype Rule =
    | ReqTrimmedNonEmptyString(message: string)
    | AnyString
    | ReqDate(message: string)
    | OptDate
    | Any
    | Object(shape: seq<RuleField>)

  datatype RuleField = RuleField(key: string, rule: Rule)

  function RuleKeys(shape: seq<RuleField>): (ks: seq<string>)
    ensures |ks| == |shape|
    ensures forall i :: 0 <= i < |ks| ==> ks[i] == shape[i].key
  {
    if |shape| == 0 then [] else [shape[0].key] + RuleKeys(shape[1..])
  }

  predicate HasRuleKey(shape: seq<RuleField>, k: string) {
    k in RuleKeys(shape)
  }

  /** The rule under a key of the shape (the first, keys being distinct). */
  function RuleAt(shape: seq<RuleField>, k: string): (r: Option<Rule>)
    ensures r.None? <==> !HasRuleKey(shape, k)
  {
    if |shape| == 0 then None
    else if shape[0].key == k then Some(shape[0].rule)
    else RuleAt(shape[1..], k)
  }

  lemma {:induction false} ConsRuleField(f: RuleField, rest: seq<RuleField>)
    ensures RuleKeys([f] + rest) == [f.key] + RuleKeys(rest)
    ensures forall k :: RuleAt([f] + rest, k) == if f.key == k then Some(f.rule) else RuleAt(rest, k)
  {
    assert ([f] + rest)[1..] == rest;
  }

  /** `{...shape, [k]: rule}`. */
  function RulePut(shape: seq<RuleField>, k: string, rule: Rule): (r: seq<RuleField>)
    ensures RuleAt(r, k) == Some(rule)
    ensures forall k' :: k' != k ==> RuleAt(r, k') == RuleAt(shape, k')
    ensures HasRuleKey(shape, k) ==> RuleKeys(r) == RuleKeys(shape)
    ensures !HasRuleKey(shape, k) ==> RuleKeys(r) == RuleKeys(shape) + [k]
  {
    RuleSpreadNewKey(shape, k, rule);
    RuleSpread(shape, k, rule)
  }

  /** The field list of the spread, built field by field. */
  function RuleSpread(shape: seq<RuleField>, k: string, rule: Rule): (r: seq<RuleField>)
    ensures RuleAt(r, k) == Some(rule)
    ensures forall k' :: k' != k ==> RuleAt(r, k') == RuleAt(shape, k')
    ensures HasRuleKey(shape, k) ==> RuleKeys(r) == RuleKeys(shape)
  {
    if |shape| == 0 then [RuleField(k, rule)]
    else
      ConsRuleField(shape[0], shape[1..]);
      assert [shape[0]] + shape[1..] == shape;
      if shape[0].key == k then
        ConsRuleField(RuleField(k, rule), shape[1..]);
        [RuleField(k, rule)] + shape[1..]
      else
        var rest := RuleSpread(shape[1..], k, rule);
        ConsRuleField(shape[0], rest);
        [shape[0]] + rest
  }

  /** A key the shape lacks is appended after all of its keys. */
  lemma {:induction false} RuleSpreadNewKey(shape: seq<RuleField>, k: string, rule: Rule)
    ensures !HasRuleKey(shape, k) ==> RuleKeys(RuleSpread(shape, k, rule)) == RuleKeys(shape) + [k]
  {
    if |shape| > 0 && !HasRuleKey(shape, k) {
      ConsRuleField(shape[0], shape[1..]);
      assert [shape[0]] + shape[1..] == shape;
      RuleSpreadNewKey(shape[1..], k, rule);
      ConsRuleField(shape[0], RuleSpread(shape[1..], k, rule));
    }
  }

  /** `isEmpty(item.item)`: no child list, or an empty one. */
  predicate IsEmptyList(l: ItemList) {
    l.NoItems? || |l.items| == 0
  }

  /** `zodValidationOptions(type, required, nestedItems)`. */
  function ValidationRule(t: ItemType, required: bool, nested: ItemList): Rule
    decreases nested, 1
  {
    if t == Group && !IsEmptyList(nested) then Object(Shape(nested.items))
    else if t == StringType then (if required then ReqTrimmedNonEmptyString(REQUIRED_FIELD_MESSAGE) else AnyString)
    else if t == DateType then (if required then ReqDate(REQUIRED_FIELD_MESSAGE) else OptDate)
    else Any
  }

  /** A group with children gets an object rule; strings and dates get a required
      or an optional rule; every other type, and a group without children, `z.any()`. */
  lemma {:induction false} RuleKinds(t: ItemType, required: bool, nested: ItemList)
    ensures ValidationRule(t, required, nested).Object? <==> t == Group && !IsEmptyList(nested)
    ensures t == StringType ==>
              (ValidationRule(t, required, nested)
               == if required then ReqTrimmedNonEmptyString(REQUIRED_FIELD_MESSAGE) else AnyString)
    ensures t == DateType ==>
              (ValidationRule(t, required, nested) == if required then ReqDate(REQUIRED_FIELD_MESSAGE) else OptDate)
    ensures t != Group && t != StringType && t != DateType ==> ValidationRule(t, required, nested) == Any
    ensures t == Group && IsEmptyList(nested) ==> ValidationRule(t, required, nested) == Any
  {
  }

  /** The rule of one item. */
  function ItemRule(item: Item): Rule
    decreases item, 2
  {
    ValidationRule(item.itemType, item.required, item.children)
  }

  /** The `reduce` with spread over a list of items: one key per linkId, a later
      duplicate replacing the rule. */
  function Shape(items: seq<Item>): seq<RuleField>
    decreases items, 0
  {
    if |items| == 0 then []
    else RulePut(Shape(items[..|items| - 1]), items[|items| - 1].linkId, ItemRule(items[|items| - 1]))
  }

  /** `zodFormSchema(items)`. */
  function FormSchema(items: seq<Item>): (r: Rule)
    ensures r.Object?
  {
    Object(Shape(items))
  }

  /** The schema has exactly one key per distinct item linkId. */
  lemma {:induction false} SchemaKeys(items: seq<Item>)
    ensures InitialValues.NoDuplicates(RuleKeys(Shape(items)))
    ensures forall k :: HasRuleKey(Shape(items), k) <==> k in InitialValues.LinkIds(items)
  {
    if |items| > 0 {
      var pre := items[..|items| - 1];
      var last := items[|items| - 1];
      SchemaKeys(pre);
      ShapeStep(items);
      InitialValues.LinkIdsSnoc(items);
      RulePutKeys(Shape(pre), last.linkId, ItemRule(last), InitialValues.LinkIds(pre));
    }
  }

  /** One step of the fold: the last item's rule is put into the prefix's shape. */
  lemma {:induction false} ShapeStep(items: seq<Item>)
    requires |items| > 0
    ensures Shape(items) == RulePut(Shape(items[..|items| - 1]), items[|items| - 1].linkId, ItemRule(items[|items| - 1]))
  {
  }

  lemma {:induction false} RulePutKeys(shape: seq<RuleField>, k: string, rule: Rule, ids: seq<string>)
    requires InitialValues.NoDuplicates(RuleKeys(shape)) && forall x :: HasRuleKey(shape, x) <==> x in ids
    ensures InitialValues.NoDuplicates(RuleKeys(RulePut(shape, k, rule)))
    ensures forall x :: HasRuleKey(RulePut(shape, k, rule), x) <==> x in ids + [k]
  {
    if HasRuleKey(shape, k) {
      assert RuleKeys(RulePut(shape, k, rule)) == RuleKeys(shape);
    } else {
      assert RuleKeys(RulePut(shape, k, rule)) == RuleKeys(shape) + [k];
    }
  }

  /** The rule under a linkId is the rule of the LAST item with that linkId. */
  lemma {:induction false} RuleOfLast(items: seq<Item>, i: nat)
    requires i < |items| && forall j :: i < j < |items| ==> items[j].linkId != items[i].linkId
    ensures RuleAt(Shape(items), items[i].linkId) == Some(ItemRule(items[i]))
  {
    if i < |items| - 1 {
      RuleOfLast(items[..|items| - 1], i);
    }
  }

  /** `zTransformISODate`: a falsy input gives `""`, a date its calendar date. */
  function TransformISODate(v: Value): (s: string)
    requires v.Date? || IsNullish(v)
    ensures IsNullish(v) ==> s == ""
  {
    if !Truthy(v) then "" else FormatISODate(v.iso)
  }

  /** `formatISO(date, {representation: "date"})`: the `yyyy-MM-dd` part of the date. */
  function FormatISODate(iso: string): (s: string)
    ensures |s| <= 10 && |s| <= |iso| && s == iso[..|s|]
  {
    if |iso| >= 10 then iso[..10] else iso
  }

  /** A date-only answer text, parsed on load, is written back unchanged on submit. */
  lemma {:induction false} DateRoundTrip(d: string)
    requires |d| == 10
    ensures TransformISODate(Constants.ApplyParser(Constants.ParseDate, Str(d))) == d
  {
  }

  /** What a value checked against a rule becomes, `None` when the rule rejects it.
      An object keeps the shape's keys only (input keys outside the shape are
      dropped), and leaves out a missing key whose checked value is `undefined`. */
  function Check(rule: Rule, v: Value): Option<Value>
    decreases rule, 1
  {
    match rule
    case ReqTrimmedNonEmptyString(_) => if v.Str? && Trim(v.s) != "" then Some(Str(Trim(v.s))) else None
    case AnyString => if v.Str? then Some(v) else None
    case ReqDate(_) => if v.Date? then Some(Str(TransformISODate(v))) else None
    case OptDate =>
      if IsNullish(v) then Some(v)
      else if v.Date? then Some(Str(TransformISODate(v)))
      else None
    case Any => Some(v)
    case Object(shape) =>
      if !v.Obj? then None
      else match CheckShape(shape, v.fields)
           case None => None
           case Some(out) => Some(Obj(out))
  }

  function CheckShape(shape: seq<RuleField>, fields: seq<Field>): Option<seq<Field>>
    decreases shape, 0
  {
    if |shape| == 0 then Some([])
    else
      var key := shape[0].key;
      match Check(shape[0].rule, Get(fields, key))
      case None => None
      case Some(out) =>
        match CheckShape(shape[1..], fields)
        case None => None
        case Some(rest) =>
          Some((if HasKey(fields, key) || out != Undef then [Field(key, out)] else []) + rest)
  }

  /** A required string accepts exactly the texts with a non-space character, and
      yields them trimmed. */
  lemma {:induction false} RequiredString(s: string)
    ensures Check(ItemRule(Item(None, "q", None, None, StringType, true, None, None, NoItems, None, [], [])), Str(s)).Some?
        <==> exists i :: 0 <= i < |s| && !IsJsSpace(s[i])
  {
    TrimEmptyIffAllSpace(s);
  }

  /** An optional string accepts every text, `""` included, unchanged. */
  lemma {:induction false} OptionalString(s: string, nested: ItemList)
    ensures Check(ValidationRule(StringType, false, nested), Str(s)) == Some(Str(s))
  {
  }

  /** A required date rejects `null`; an optional one lets it through. */
  lemma {:induction false} DateRules(nested: ItemList)
    ensures Check(ValidationRule(DateType, true, nested), Null).None?
    ensures Check(ValidationRule(DateType, false, nested), Null) == Some(Null)
  {
  }

  /** No question is required at any depth the schema descends into. */
  predicate NothingRequired(items: seq<Item>)
    decreases items, 0
  {
    forall i :: 0 <= i < |items| ==> ItemNothingRequired(items[i])
  }

  predicate ItemNothingRequired(item: Item)
    decreases item, 1
  {
    !item.required && (item.children.NoItems? || NothingRequired(item.children.items))
  }

  /** Every key of the shape is present in the values and its rule accepts the value. */
  predicate Compatible(shape: seq<RuleField>, vals: seq<Field>) {
    forall j :: 0 <= j < |shape| ==> HasKey(vals, shape[j].key) && Check(shape[j].rule, Get(vals, shape[j].key)).Some?
  }

  lemma {:induction false} CompatibleShapeChecks(shape: seq<RuleField>, vals: seq<Field>)
    requires Compatible(shape, vals)
    ensures CheckShape(shape, vals).Some?
  {
    if |shape| > 0 {
      CompatibleShapeChecks(shape[1..], vals);
    }
  }

  /** Putting the same key into the shape and the values keeps them compatible. */
  lemma {:induction false} CompatiblePut(shape: seq<RuleField>, vals: seq<Field>, k: string, rule: Rule, v: Value)
    requires Compatible(shape, vals) && Check(rule, v).Some?
    requires forall x :: HasRuleKey(shape, x) ==> HasKey(vals, x)
    requires InitialValues.NoDuplicates(RuleKeys(shape))
    ensures Compatible(RulePut(shape, k, rule), Put(vals, k, v))
  {
    var s2 := RulePut(shape, k, rule);
    var v2 := Put(vals, k, v);
    forall j | 0 <= j < |s2|
      ensures HasKey(v2, s2[j].key) && Check(s2[j].rule, Get(v2, s2[j].key)).Some?
    {
      var key := s2[j].key;
      assert HasRuleKey(s2, key) by { assert RuleKeys(s2)[j] == key; }
      assert RuleAt(s2, key) == Some(s2[j].rule) by { RuleAtDistinct(s2, j, shape, k, rule); }
      if key == k {
      } else {
        assert HasRuleKey(shape, key) by {
          if !HasRuleKey(shape, k) { assert RuleKeys(s2) == RuleKeys(shape) + [k]; }
        }
        var j0 :| 0 <= j0 < |shape| && shape[j0].key == key;
        RuleAtIndex(shape, j0);
        assert HasKey(v2, key) by { if !HasKey(vals, k) { assert KeysOf(v2) == KeysOf(vals) + [k]; } }
      }
    }
  }

  /** With distinct keys, the rule at an index is the rule under its key. */
  lemma {:induction false} RuleAtIndex(shape: seq<RuleField>, j: nat)
    requires j < |shape| && InitialValues.NoDuplicates(RuleKeys(shape))
    ensures RuleAt(shape, shape[j].key) == Some(shape[j].rule)
  {
    if j > 0 {
      assert RuleKeys(shape)[0] != RuleKeys(shape)[j];
      assert InitialValues.NoDuplicates(RuleKeys(shape[1..])) by {
        forall a, b | 0 <= a < b < |shape| - 1 ensures RuleKeys(shape[1..])[a] != RuleKeys(shape[1..])[b] {
          assert RuleKeys(shape)[a + 1] != RuleKeys(shape)[b + 1];
        }
      }
      RuleAtIndex(shape[1..], j - 1);
    }
  }

  lemma {:induction false} RuleAtDistinct(s2: seq<RuleField>, j: nat, shape: seq<RuleField>, k: string, rule: Rule)
    requires s2 == RulePut(shape, k, rule) && j < |s2| && InitialValues.NoDuplicates(RuleKeys(shape))
    ensures RuleAt(s2, s2[j].key) == Some(s2[j].rule)
  {
    RulePutDistinct(shape, k, rule);
    RuleAtIndex(s2, j);
  }

  lemma {:induction false} RulePutDistinct(shape: seq<RuleField>, k: string, rule: Rule)
    requires InitialValues.NoDuplicates(RuleKeys(shape))
    ensures InitialValues.NoDuplicates(RuleKeys(RulePut(shape, k, rule)))
  {
    if !HasRuleKey(shape, k) {
      assert RuleKeys(RulePut(shape, k, rule)) == RuleKeys(shape) + [k];
    }
  }

  /** Without any required question, the initial values of an unanswered
      questionnaire pass its schema. */
  lemma {:induction false} DefaultsPass(items: seq<Item>)
    requires NothingRequired(items)
    decreases items, 0
    ensures InitialValues.FormInitialValues(items, []).Ok?
    ensures Check(FormSchema(items), Obj(InitialValues.FormInitialValues(items, []).value)).Some?
  {
    DefaultsCompatible(items);
    var fields := InitialValues.FormInitialValues(items, []).value;
    CompatibleShapeChecks(Shape(items), fields);
    ObjectAccepts(Shape(items), fields);
  }

  lemma {:induction false} DefaultsCompatible(items: seq<Item>)
    requires NothingRequired(items)
    decreases items, 0
    ensures InitialValues.FormInitialValues(items, []).Ok?
    ensures Compatible(Shape(items), InitialValues.FormInitialValues(items, []).value)
    ensures forall x :: HasRuleKey(Shape(items), x) ==> HasKey(InitialValues.FormInitialValues(items, []).value, x)
  {
    if |items| > 0 {
      var pre := items[..|items| - 1];
      var last := items[|items| - 1];
      assert NothingRequired(pre) by {
        forall i | 0 <= i < |pre| ensures ItemNothingRequired(pre[i]) { assert pre[i] == items[i]; }
      }
      assert ItemNothingRequired(last);
      DefaultsCompatible(pre);
      ItemDefaultPasses(last);
      SchemaKeys(pre);
      var acc := InitialValues.FormInitialValues(pre, []).value;
      var v := InitialValues.InitialValueOf(last, []).value;
      CompatiblePut(Shape(pre), acc, last.linkId, ItemRule(last), v);
      assert InitialValues.FormInitialValues(items, []) == Ok(Put(acc, last.linkId, v));
      forall x | HasRuleKey(Shape(items), x)
        ensures HasKey(Put(acc, last.linkId, v), x)
      {
        if x != last.linkId {
          assert HasRuleKey(Shape(pre), x) by {
            if !HasRuleKey(Shape(pre), last.linkId) {
              assert RuleKeys(Shape(items)) == RuleKeys(Shape(pre)) + [last.linkId];
            }
          }
          if !HasKey(acc, last.linkId) {
            assert KeysOf(Put(acc, last.linkId, v)) == KeysOf(acc) + [last.linkId];
          }
        } else {
          assert Get(Put(acc, last.linkId, v), x) == v;
          PutHasKey(acc, last.linkId, v);
        }
      }
    }
  }

  lemma {:induction false} PutHasKey(acc: seq<Field>, k: string, v: Value)
    ensures HasKey(Put(acc, k, v), k)
  {
    if !HasKey(acc, k) {
      assert KeysOf(Put(acc, k, v)) == KeysOf(acc) + [k];
      assert KeysOf(Put(acc, k, v))[|KeysOf(acc)|] == k;
    }
  }

  /** One unanswered item's default passes its own rule. */
  lemma {:induction false} ItemDefaultPasses(item: Item)
    requires ItemNothingRequired(item)
    decreases item, 1
    ensures InitialValues.InitialValueOf(item, []).Ok?
    ensures Check(ItemRule(item), InitialValues.InitialValueOf(item, []).value).Some?
  {
    if item.itemType == Group && item.children.Items? {
      GroupDefaultPasses(item);
    } else {
      InitialValues.NoResponseLeaf(item);
      LeafDefaultPasses(item.itemType, item.children);
    }
  }

  /** An unanswered group's default, the defaults of its children, passes its rule. */
  lemma {:induction false} GroupDefaultPasses(item: Item)
    requires ItemNothingRequired(item) && item.itemType == Group && item.children.Items?
    decreases item, 0
    ensures InitialValues.InitialValueOf(item, []).Ok?
    ensures Check(ItemRule(item), InitialValues.InitialValueOf(item, []).value).Some?
  {
    var children := item.children.items;
    InitialValues.GroupNoResponse(item);
    DefaultsCompatible(children);
    var fields := InitialValues.FormInitialValues(children, []).value;
    assert InitialValues.InitialValueOf(item, []) == Ok(Obj(fields));
    if |children| > 0 {
      CompatibleShapeChecks(Shape(children), fields);
      ObjectAccepts(Shape(children), fields);
      assert ItemRule(item) == Object(Shape(children));
    } else {
      assert ItemRule(item) == Any;
    }
  }

  lemma {:induction false} ObjectAccepts(shape: seq<RuleField>, fields: seq<Field>)
    requires CheckShape(shape, fields).Some?
    ensures Check(Object(shape), Obj(fields)).Some?
  {
    var out := CheckShape(shape, fields).value;
    assert Check(Object(shape), Obj(fields)) == Some(Obj(out));
  }

  /** The default of a leaf type passes the rule of an optional item of that type. */
  lemma {:induction false} LeafDefaultPasses(t: ItemType, nested: ItemList)
    requires !(t == Group && nested.Items?)
    ensures Check(ValidationRule(t, false, nested), Constants.FormInitialValue(t).GetOr(Null)).Some?
  {
  }

  /** A shape fails as soon as one of its keys fails. */
  lemma {:induction false} CheckShapeFails(shape: seq<RuleField>, fields: seq<Field>, j: nat)
    requires j < |shape| && Check(shape[j].rule, Get(fields, shape[j].key)).None?
    ensures CheckShape(shape, fields).None?
  {
    var tail := shape[j..];
    assert tail[0] == shape[j];
    CheckShapeStep(tail, fields);
    SuffixFails(shape, fields, j);
  }

  /** A shape fails when one of its suffixes fails. */
  lemma {:induction false} SuffixFails(shape: seq<RuleField>, fields: seq<Field>, k: nat)
    requires k <= |shape| && CheckShape(shape[k..], fields).None?
    ensures CheckShape(shape, fields).None?
  {
    if k > 0 {
      var tail := shape[k - 1..];
      assert tail[1..] == shape[k..];
      CheckShapeStep(tail, fields);
      SuffixFails(shape, fields, k - 1);
    } else {
      assert shape[k..] == shape;
    }
  }

  /** A shape fails when its first key fails or the rest of it fails. */
  lemma {:induction false} CheckShapeStep(shape: seq<RuleField>, fields: seq<Field>)
    requires |shape| > 0
    requires Check(shape[0].rule, Get(fields, shape[0].key)).None? || CheckShape(shape[1..], fields).None?
    ensures CheckShape(shape, fields).None?
  {
  }

  /** The rule found under a key sits at some index of the shape. */
  lemma {:induction false} RuleAtSomeIndex(shape: seq<RuleField>, k: string)
    requires RuleAt(shape, k).Some?
    ensures exists j :: 0 <= j < |shape| && shape[j].key == k && shape[j].rule == RuleAt(shape, k).value
  {
    if shape[0].key != k {
      RuleAtSomeIndex(shape[1..], k);
      var j :| 0 <= j < |shape| - 1 && shape[1..][j].key == k && shape[1..][j].rule == RuleAt(shape[1..], k).value;
      assert shape[j + 1] == shape[1..][j];
    }
  }

  /** An unanswered questionnaire with a required string question fails its schema:
      the question's default `""` has nothing left after trimming. */
  lemma {:induction false} RequiredStringBlocksDefaults(items: seq<Item>, i: nat)
    requires i < |items| && forall j :: i < j < |items| ==> items[j].linkId != items[i].linkId
    requires items[i].itemType == StringType && items[i].required
    requires InitialValues.FormInitialValues(items, []).Ok?
    ensures Check(FormSchema(items), Obj(InitialValues.FormInitialValues(items, []).value)).None?
  {
    var fields := InitialValues.FormInitialValues(items, []).value;
    RuleOfLast(items, i);
    InitialValues.InitialValueOfLast(items, [], i);
    StringDefault(items[i]);
    RuleKinds(StringType, true, items[i].children);
    assert Check(ReqTrimmedNonEmptyString(REQUIRED_FIELD_MESSAGE), Str("")).None? by { assert Trim("") == ""; }
    SchemaRejectsKey(items, fields, items[i].linkId, ItemRule(items[i]));
  }

  /** Once the user enters a text with a non-space character, a one-question form
      whose question is a required string passes, with the text trimmed. */
  lemma {:induction false} EnteredStringPasses(item: Item, s: string, i: nat)
    requires item.itemType == StringType && item.required
    requires i < |s| && !IsJsSpace(s[i])
    ensures Check(FormSchema([item]), Obj([Field(item.linkId, Str(s))])) == Some(Obj([Field(item.linkId, Str(Trim(s)))]))
  {
    RequiredAccepts(item, s, i);
    SingleShape(item);
    SingleFieldChecks(item.linkId, ItemRule(item), Str(s), Str(Trim(s)));
    ObjectYields(Shape([item]), [Field(item.linkId, Str(s))], [Field(item.linkId, Str(Trim(s)))]);
  }

  /** An object rule yields the object of what its shape yields. */
  lemma {:induction false} ObjectYields(shape: seq<RuleField>, fields: seq<Field>, out: seq<Field>)
    requires CheckShape(shape, fields) == Some(out)
    ensures Check(Object(shape), Obj(fields)) == Some(Obj(out))
  {
  }

  /** A required string item's rule accepts a text with a non-space character, trimmed. */
  lemma {:induction false} RequiredAccepts(item: Item, s: string, i: nat)
    requires item.itemType == StringType && item.required
    requires i < |s| && !IsJsSpace(s[i])
    ensures Check(ItemRule(item), Str(s)) == Some(Str(Trim(s)))
  {
    TrimEmptyIffAllSpace(s);
    RuleKinds(StringType, true, item.children);
  }

  /** The shape of a one-item list holds that item's rule alone. */
  lemma {:induction false} SingleShape(item: Item)
    ensures Shape([item]) == [RuleField(item.linkId, ItemRule(item))]
  {
    assert [item][..0] == [];
    assert RuleSpread([], item.linkId, ItemRule(item)) == [RuleField(item.linkId, ItemRule(item))];
  }

  /** A one-key shape checks a one-field object by that field's rule. */
  lemma {:induction false} SingleFieldChecks(key: string, rule: Rule, v: Value, out: Value)
    requires Check(rule, v) == Some(out)
    ensures CheckShape([RuleField(key, rule)], [Field(key, v)]) == Some([Field(key, out)])
  {
    var shape := [RuleField(key, rule)];
    var fields := [Field(key, v)];
    assert Get(fields, key) == v;
    assert HasKey(fields, key) by { assert fields[0].key == key; }
    assert CheckShape(shape[1..], fields) == Some([]);
    assert [Field(key, out)] + [] == [Field(key, out)];
  }

  lemma {:induction false} StringDefault(item: Item)
    requires item.itemType == StringType
    ensures InitialValues.InitialValueOf(item, []) == Ok(Str(""))
  {
    InitialValues.NoResponseLeaf(item);
  }

  /** A key whose value its rule rejects makes the questionnaire's schema reject. */
  lemma {:induction false} SchemaRejectsKey(items: seq<Item>, fields: seq<Field>, k: string, r: Rule)
    requires RuleAt(Shape(items), k) == Some(r) && Check(r, Get(fields, k)).None?
    ensures Check(FormSchema(items), Obj(fields)).None?
  {
    ShapeRejectsKey(Shape(items), fields, k, r);
    ObjectRejects(Shape(items), fields);
  }

  lemma {:induction false} ObjectRejects(shape: seq<RuleField>, fields: seq<Field>)
    requires CheckShape(shape, fields).None?
    ensures Check(Object(shape), Obj(fields)).None?
  {
  }

  /** A key whose value its rule rejects makes the whole shape reject. */
  lemma {:induction false} ShapeRejectsKey(shape: seq<RuleField>, fields: seq<Field>, k: string, r: Rule)
    requires RuleAt(shape, k) == Some(r) && Check(r, Get(fields, k)).None?
    ensures CheckShape(shape, fields).None?
  {
    RuleAtSomeIndex(shape, k);
    var j :| 0 <= j < |shape| && shape[j].key == k && shape[j].rule == r;
    CheckShapeFails(shape, fields, j);
  }
}
