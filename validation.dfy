/**
 * The rules of go-ozzo/ozzo-validation (v4) that the request validators are written with,
 * the way `validation.ValidateStruct` applies them, and the error values that come out.
 *
 * A struct is validated field by field. The rules of one field run in order and stop at the
 * first that fails; every failing field contributes one entry, keyed by the field's JSON name,
 * whose value is the message of the rule that failed.
 */
module Validation {
  import opened Wrappers
  import GoStrings

  /** Error values: what the services return and what the client's error helpers take apart. */
  datatype Error =
    | Plain(text: string)                          // an errors.New or fmt.Errorf value, by its text
    | Object(message: string)                      // validation.ErrorObject: one rule's failure
    | Fields(entries: map<string, Option<Error>>)  // validation.Errors: field name to error (None: a nil entry)

  /** `null.String`: a string that may be SQL NULL (`valid` false). */
  datatype NullString = NullString(s: string, valid: bool)

  /** A field's value, told apart only as far as the rules look at it. */
  datatype Value =
    | Str(s: string)
    | Nullable(n: NullString)
    | Int(i: int)
    | Bool(b: bool)
    | Slice(length: nat)   // nil and empty slices both have length 0
    | Pointer(isNil: bool) // a pointer to a struct
    | Struct               // a struct held by value, other than time.Time

  /**
   * The value counts as absent: `validation.Indirect` makes it nil (a nil pointer, a NULL
   * null.String, whose driver value is nil) or `validation.IsEmpty` holds of it. A struct held
   * by value is never empty.
   */
  predicate Blank(v: Value)
  {
    match v
    case Str(s) => s == ""
    case Nullable(n) => !n.valid || n.s == ""
    case Int(i) => i == 0
    case Bool(b) => !b
    case Slice(n) => n == 0
    case Pointer(isNil) => isNil
    case Struct => false
  }

  /** What a rule compares once `validation.Indirect` has looked through the value. */
  function Resolved(v: Value): Value
  {
    match v
    case Nullable(n) => Str(n.s)
    case Pointer(_) => Struct
    case _ => v
  }

  /**
   * The length that the Length rule bounds: the characters of a string, the elements of a
   * slice. (Other kinds have no length; the validators never bound one.)
   */
  function Measure(v: Value): Option<nat>
  {
    match Resolved(v)
    case Str(s) => Some(|s|)
    case Slice(n) => Some(n)
    case _ => None
  }

  /** The bound test of the Length rule: a zero bound is no bound, and Length(0, 0) asks for emptiness. */
  predicate OutOfBounds(min: nat, max: nat, l: nat)
  {
    (min > 0 && l < min) || (max > 0 && l > max) || (min == 0 && max == 0 && l > 0)
  }

  datatype Rule =
    | Required(msg: string)                      // validation.Required
    | Length(min: nat, max: nat, msg: string)    // validation.Length; skips blank values
    | In(elements: seq<Value>, msg: string)      // validation.In; skips blank values
    | Date(parses: string -> bool, msg: string)  // validation.Date(layout); `parses` is the layout's parser
    | When(condition: bool, rules: seq<Rule>)    // validation.When: the rules apply only if the condition holds
    | LengthInBytes(min: nat, max: nat, msg: string) // validation.Length as the library measures text, in bytes

  /** `validation.Validate(value, rules...)`: the message of the first rule that fails, if any. */
  function Check(v: Value, rules: seq<Rule>): Option<string>
    decreases rules
  {
    if rules == [] then None
    else
      var outcome :=
        match rules[0]
        case Required(msg) => if Blank(v) then Some(msg) else None
        case Length(min, max, msg) =>
          if !Blank(v) && Measure(v).Some? && OutOfBounds(min, max, Measure(v).value) then Some(msg) else None
        case In(elements, msg) => if Blank(v) || Resolved(v) in elements then None else Some(msg)
        case Date(parses, msg) =>
          if !Blank(v) && Resolved(v).Str? && !parses(Resolved(v).s) then Some(msg) else None
        case When(condition, rules') => if condition then Check(v, rules') else None
        case LengthInBytes(min, max, msg) => LengthAsWritten(v, min, max, msg);
      if outcome.Some? then outcome else Check(v, rules[1..])
  }

  /** `validation.Field(&m.X, rules...)`, with the field's JSON name. */
  datatype Field = Field(tag: string, value: Value, rules: seq<Rule>)

  /** The field checked alone: the message of its first failing rule, if any. */
  function Outcome(f: Field): Option<string>
  {
    Check(f.value, f.rules)
  }

  /** The field's rules all pass. */
  predicate Passes(f: Field)
  {
    Outcome(f).None?
  }

  predicate DistinctTags(fs: seq<Field>)
  {
    forall i, j :: 0 <= i < j < |fs| ==> fs[i].tag != fs[j].tag
  }

  /** The field-name-to-message map that `validation.ValidateStruct` collects. */
  function Violations(fs: seq<Field>): map<string, string>
  {
    if fs == [] then map[]
    else
      var earlier := Violations(fs[..|fs| - 1]);
      var f := fs[|fs| - 1];
      match Check(f.value, f.rules)
      case None => earlier
      case Some(msg) => earlier[f.tag := msg]
  }

  /** `validation.ValidateStruct`: nil when every field passes, otherwise the Errors map. */
  function ValidateStruct(fs: seq<Field>): (r: Option<Error>)
    ensures r.None? <==> Violations(fs) == map[]
    ensures r.Some? ==> r.value.Fields? && |r.value.entries| > 0
    ensures r.Some? ==> r.value.entries.Keys == Violations(fs).Keys
    ensures r.Some? ==> forall k :: k in Violations(fs) ==> r.value.entries[k] == Some(Object(Violations(fs)[k]))
  {
    var v := Violations(fs);
    if v == map[] then None
    else
      var entries := map k | k in v :: Some(Object(v[k]));
      var k :| k in v;
      assert k in entries;
      Some(Fields(entries))
  }

  /** A field has an entry exactly when its rules fail, and the entry is their first failure. */
  lemma {:induction false} ViolationsAt(fs: seq<Field>, i: nat)
    requires DistinctTags(fs) && i < |fs|
    ensures fs[i].tag in Violations(fs) <==> Check(fs[i].value, fs[i].rules).Some?
    ensures fs[i].tag in Violations(fs) ==> Violations(fs)[fs[i].tag] == Check(fs[i].value, fs[i].rules).value
  {
    var n := |fs| - 1;
    var init := fs[..n];
    assert DistinctTags(init);
    if i < n {
      ViolationsAt(init, i);
      assert init[i] == fs[i];
    } else {
      NotTagged(init, fs[n].tag);
    }
  }

  /** The message a map reports for `tag`, if any. */
  function Reported(m: map<string, string>, tag: string): Option<string>
  {
    if tag in m then Some(m[tag]) else None
  }

  /** ViolationsAt, read through Reported: a field reports exactly the first failure of its rules. */
  lemma ReportedAt(fs: seq<Field>, i: nat)
    requires DistinctTags(fs) && i < |fs|
    ensures Reported(Violations(fs), fs[i].tag) == Outcome(fs[i])
  {
    ViolationsAt(fs, i);
  }

  /** When no field's name is reported, nothing is. */
  lemma {:induction false} Unreported(fs: seq<Field>)
    requires forall i :: 0 <= i < |fs| ==> Reported(Violations(fs), fs[i].tag).None?
    ensures Violations(fs) == map[]
  {
    if fs != [] {
      var n := |fs| - 1;
      assert Reported(Violations(fs), fs[n].tag).None?;
      forall i | 0 <= i < n
        ensures Reported(Violations(fs[..n]), fs[..n][i].tag).None?
      {
        assert Reported(Violations(fs), fs[i].tag).None?;
      }
      Unreported(fs[..n]);
    }
  }

  /** A name no field carries gets no entry. */
  lemma {:induction false} NotTagged(fs: seq<Field>, tag: string)
    requires forall i :: 0 <= i < |fs| ==> fs[i].tag != tag
    ensures tag !in Violations(fs)
  {
    if fs != [] {
      NotTagged(fs[..|fs| - 1], tag);
    }
  }

  /** No entries at all exactly when every field passes. */
  lemma {:induction false} ViolationsEmpty(fs: seq<Field>)
    ensures Violations(fs) == map[] <==> forall i :: 0 <= i < |fs| ==> Passes(fs[i])
  {
    if fs != [] {
      var n := |fs| - 1;
      ViolationsEmpty(fs[..n]);
      if Check(fs[n].value, fs[n].rules).Some? {
        assert fs[n].tag in Violations(fs);
      }
      forall i | 0 <= i < n
        ensures fs[..n][i] == fs[i]
      {
      }
    }
  }

  // ---------------------------------------------------------------------------------------
  // The rule shapes the validators use, evaluated once and for all
  // ---------------------------------------------------------------------------------------

  /** Required followed by Length(min, max): the first message if empty, the second if out of bounds. */
  lemma RequiredThenLength(s: string, min: nat, max: nat, required: string, tooLong: string)
    requires 0 < min <= max
    ensures Check(Str(s), [Required(required), Length(min, max, tooLong)])
         == if s == "" then Some(required) else if |s| < min || |s| > max then Some(tooLong) else None
  {
    assert [Required(required), Length(min, max, tooLong)][1..] == [Length(min, max, tooLong)];
    assert [Length(min, max, tooLong)][1..] == [];
    assert Check(Str(s), [Length(min, max, tooLong)])
        == if s != "" && (|s| < min || |s| > max) then Some(tooLong) else None;
  }

  /** A bare Required rule. */
  lemma RequiredOnly(v: Value, msg: string)
    ensures Check(v, [Required(msg)]) == if Blank(v) then Some(msg) else None
  {
  }

  /** A Length rule on a string guarded by a condition, as the optional fields have it. */
  lemma GuardedLength(v: Value, condition: bool, max: nat, msg: string)
    requires 0 < max && (v.Str? || v.Nullable?)
    ensures Check(v, [When(condition, [Length(1, max, msg)])])
         == if condition && !Blank(v) && Measure(v).value > max then Some(msg) else None
  {
    assert [When(condition, [Length(1, max, msg)])][1..] == [];
    assert [Length(1, max, msg)][1..] == [];
    assert Check(v, [Length(1, max, msg)]) == if !Blank(v) && Measure(v).value > max then Some(msg) else None;
  }

  /** A Required rule guarded by a condition. */
  lemma GuardedRequired(v: Value, condition: bool, msg: string)
    ensures Check(v, [When(condition, [Required(msg)])]) == if condition && Blank(v) then Some(msg) else None
  {
    assert [When(condition, [Required(msg)])][1..] == [];
    assert [Required(msg)][1..] == [];
    assert Check(v, [Required(msg)]) == if Blank(v) then Some(msg) else None;
  }

  /** An In rule, possibly guarded. */
  lemma GuardedIn(v: Value, condition: bool, elements: seq<Value>, msg: string)
    ensures Check(v, [When(condition, [In(elements, msg)])])
         == if condition && !Blank(v) && Resolved(v) !in elements then Some(msg) else None
    ensures Check(v, [In(elements, msg)]) == if !Blank(v) && Resolved(v) !in elements then Some(msg) else None
  {
    assert [When(condition, [In(elements, msg)])][1..] == [];
    assert [In(elements, msg)][1..] == [];
    assert Check(v, [In(elements, msg)]) == if !Blank(v) && Resolved(v) !in elements then Some(msg) else None;
  }

  /** A Date rule on a string, guarded by a condition. */
  lemma GuardedDate(s: string, condition: bool, parses: string -> bool, msg: string)
    ensures Check(Str(s), [When(condition, [Date(parses, msg)])])
         == if condition && s != "" && !parses(s) then Some(msg) else None
  {
    assert [When(condition, [Date(parses, msg)])][1..] == [];
    assert [Date(parses, msg)][1..] == [];
    assert Check(Str(s), [Date(parses, msg)]) == if s != "" && !parses(s) then Some(msg) else None;
  }

  /**
   * Two fields of which one must be given: each is Required only when the other is blank,
   * each with its own message.
   */
  function EitherOf(aTag: string, a: Value, aMsg: string, bTag: string, b: Value, bMsg: string): seq<Field>
  {
    [ Field(aTag, a, [When(Blank(b), [Required(aMsg)])]),
      Field(bTag, b, [When(Blank(a), [Required(bMsg)])]) ]
  }

  /** A pair of either-or fields passes exactly when one of the two is given (both may be). */
  lemma EitherOfValidIff(aTag: string, a: Value, aMsg: string, bTag: string, b: Value, bMsg: string)
    ensures Violations(EitherOf(aTag, a, aMsg, bTag, b, bMsg)) == map[] <==> !Blank(a) || !Blank(b)
  {
    var fs := EitherOf(aTag, a, aMsg, bTag, b, bMsg);
    GuardedRequired(a, Blank(b), aMsg);
    GuardedRequired(b, Blank(a), bMsg);
    ViolationsEmpty(fs);
  }

  /** When neither is given, each field reports its own message. */
  lemma EitherOfBothMissing(aTag: string, a: Value, aMsg: string, bTag: string, b: Value, bMsg: string)
    requires Blank(a) && Blank(b)
    ensures Violations(EitherOf(aTag, a, aMsg, bTag, b, bMsg)) == map[aTag := aMsg, bTag := bMsg]
  {
    var fs := EitherOf(aTag, a, aMsg, bTag, b, bMsg);
    GuardedRequired(a, Blank(b), aMsg);
    GuardedRequired(b, Blank(a), bMsg);
    assert fs[..1] == [fs[0]] && [fs[0]][..0] == [];
    assert Violations(fs[..1]) == map[aTag := aMsg];
    assert Violations(fs) == Violations(fs[..1])[bTag := bMsg];
  }

  // ---------------------------------------------------------------------------------------
  // The Length rule as the library actually measures strings
  // ---------------------------------------------------------------------------------------

  /**
   * ozzo-validation's Length rule measures a string with Go's `len`, which counts UTF-8
   * bytes (its RuneLength rule is the one that counts characters).
   */
  function MeasureAsWritten(v: Value): Option<nat>
  {
    match Resolved(v)
    case Str(s) => Some(GoStrings.ByteLength(s))
    case Slice(n) => Some(n)
    case _ => None
  }

  /** The Length(min, max) rule as the library runs it. */
  function LengthAsWritten(v: Value, min: nat, max: nat, msg: string): Option<string>
  {
    if !Blank(v) && MeasureAsWritten(v).Some? && OutOfBounds(min, max, MeasureAsWritten(v).value) then Some(msg)
    else None
  }

  /** The rules as the library runs them: every Length rule, guarded ones included, counts bytes. */
  function RulesAsWritten(rules: seq<Rule>): seq<Rule>
    decreases rules
  {
    if rules == [] then []
    else
      var head :=
        match rules[0]
        case Length(min, max, msg) => LengthInBytes(min, max, msg)
        case When(condition, rules') => When(condition, RulesAsWritten(rules'))
        case other => other;
      [head] + RulesAsWritten(rules[1..])
  }

  /** A struct's fields with their rules as the library runs them. */
  function FieldsAsWritten(fs: seq<Field>): (r: seq<Field>)
    ensures |r| == |fs|
    ensures forall i :: 0 <= i < |fs| ==> r[i] == Field(fs[i].tag, fs[i].value, RulesAsWritten(fs[i].rules))
  {
    seq(|fs|, i requires 0 <= i < |fs| => Field(fs[i].tag, fs[i].value, RulesAsWritten(fs[i].rules)))
  }

  /** Running the rules as written leaves the field names, and so their distinctness, as they are. */
  lemma FieldsAsWrittenTags(fs: seq<Field>)
    requires DistinctTags(fs)
    ensures DistinctTags(FieldsAsWritten(fs))
  {
  }

  /** On text made only of ASCII characters, measuring bytes and measuring characters agree. */
  lemma LengthAsWrittenOnAscii(s: string, min: nat, max: nat, msg: string)
    requires forall k :: 0 <= k < |s| ==> s[k] as int < 0x80
    ensures LengthAsWritten(Str(s), min, max, msg) == Check(Str(s), [Length(min, max, msg)])
  {
  }
}
