/** pkg/validator/validator.go: the tag-to-message table and `ValidateStruct`, which
    reports one entry per failing field, in field order, or nothing at all. */
module Validator {
  import opened Wrappers
  import opened Tags
  import opened Response
  import Strconv

  /** The message for a failed tag, given the tag's name and parameter. */
  function ErrorMessage(tag: string, param: string): (m: string)
    ensures tag == "required" ==> m == "This field is required"
    ensures tag == "email" ==> m == "Invalid email format"
    ensures tag == "min" ==> m == "Minimum length is " + param
    ensures tag == "max" ==> m == "Maximum length is " + param
    ensures tag == "oneof" ==> m == "Must be one of: " + param
    ensures tag !in {"required", "email", "min", "max", "oneof"} ==> m == "Invalid value"
  {
    match tag
    case "required" => "This field is required"
    case "email" => "Invalid email format"
    case "min" => "Minimum length is " + param
    case "max" => "Maximum length is " + param
    case "oneof" => "Must be one of: " + param
    case _ => "Invalid value"
  }

  function MessageFor(r: Rule): string {
    ErrorMessage(TagName(r), Param(r))
  }

  /** The text preceding the parameter in a rule's message. */
  function Lead(r: Rule): string {
    match r
    case Required => "This field is required"
    case Email => "Invalid email format"
    case Min(_) => "Minimum length is "
    case Max(_) => "Maximum length is "
    case OneOf(_) => "Must be one of: "
    case OmitEmpty => "Invalid value"
  }

  lemma MessageShape(r: Rule)
    ensures MessageFor(r) == Lead(r) + Param(r)
  {
  }

  /** The first two characters of a lead tell the five failing rules apart. */
  lemma LeadsDiffer(r1: Rule, r2: Rule)
    requires r1 != OmitEmpty && r2 != OmitEmpty
    ensures |Lead(r1)| >= 2 && |Lead(r2)| >= 2
    ensures Lead(r1)[0] == Lead(r2)[0] && Lead(r1)[1] == Lead(r2)[1] ==> Lead(r1) == Lead(r2) && TagName(r1) == TagName(r2)
  {
  }

  /** A reported message identifies the failed tag and its parameter, and for a
      length bound the bound itself: no two distinct length rules share a message. */
  lemma MessageDeterminesRule(r1: Rule, r2: Rule)
    requires r1 != OmitEmpty && r2 != OmitEmpty
    requires MessageFor(r1) == MessageFor(r2)
    ensures TagName(r1) == TagName(r2) && Param(r1) == Param(r2)
    ensures (r1.Min? || r1.Max?) ==> r1 == r2
  {
    MessageShape(r1);
    MessageShape(r2);
    var m := MessageFor(r1);
    LeadsDiffer(r1, r2);
    assert m[0] == Lead(r1)[0] == Lead(r2)[0] && m[1] == Lead(r1)[1] == Lead(r2)[1];
    assert Param(r1) == m[|Lead(r1)|..] == Param(r2);
    if r1.Min? || r1.Max? {
      Strconv.NatDigitsRoundTrip(r1.n);
      Strconv.NatDigitsRoundTrip(r2.n);
    }
  }

  /** The entry reported for a field that fails: its name, the first failing tag's
      message, and an empty value. */
  function ErrorFor(f: Field, isEmail: string -> bool): ValidationError
    requires !FieldPasses(f, isEmail)
  {
    ValidationError(f.name, MessageFor(FirstFailure(f.value, f.rules, isEmail).value), "")
  }

  /** How many of `fields` fail their tags. */
  function CountFailing(fields: seq<Field>, isEmail: string -> bool): (n: nat)
    ensures n <= |fields|
    ensures n == 0 <==> AllPass(fields, isEmail)
  {
    if |fields| == 0 then 0
    else
      var init := fields[..|fields| - 1];
      assert AllPass(fields, isEmail) <==> AllPass(init, isEmail) && FieldPasses(fields[|fields| - 1], isEmail) by {
        assert forall j :: 0 <= j < |init| ==> init[j] == fields[j];
      }
      CountFailing(init, isEmail) + (if FieldPasses(fields[|fields| - 1], isEmail) then 0 else 1)
  }

  /** The entries for `fields`, built field by field from the last one backwards:
      one entry per failing field (`ValidateStructCount`; `ReportedField` says which
      field each entry reports, and `ReportedFieldsInOrder` gives their order). */
  function ValidateStruct(fields: seq<Field>, isEmail: string -> bool): (errs: seq<ValidationError>)
    ensures |errs| <= |fields|
    ensures errs == [] <==> AllPass(fields, isEmail)
  {
    if |fields| == 0 then []
    else
      var init := fields[..|fields| - 1];
      var last := fields[|fields| - 1];
      var prior := ValidateStruct(init, isEmail);
      assert AllPass(fields, isEmail) <==> AllPass(init, isEmail) && FieldPasses(last, isEmail) by {
        assert forall j :: 0 <= j < |init| ==> init[j] == fields[j];
      }
      if FieldPasses(last, isEmail) then prior else prior + [ErrorFor(last, isEmail)]
  }

  /** Each entry is the report of a failing field, so no entry carries a value. */
  lemma {:induction false} ReportedFieldsFail(fields: seq<Field>, isEmail: string -> bool, k: nat)
    requires k < |ValidateStruct(fields, isEmail)|
    ensures ValidateStruct(fields, isEmail)[k].value == ""
    ensures exists j :: 0 <= j < |fields| && !FieldPasses(fields[j], isEmail) && ValidateStruct(fields, isEmail)[k] == ErrorFor(fields[j], isEmail)
  {
    var init := fields[..|fields| - 1];
    var last := |fields| - 1;
    var prior := ValidateStruct(init, isEmail);
    var errs := ValidateStruct(fields, isEmail);
    assert errs == if FieldPasses(fields[last], isEmail) then prior else prior + [ErrorFor(fields[last], isEmail)];
    if k < |prior| {
      assert errs[k] == prior[k];
      ReportedFieldsFail(init, isEmail, k);
      var j :| 0 <= j < |init| && !FieldPasses(init[j], isEmail) && prior[k] == ErrorFor(init[j], isEmail);
      assert init[j] == fields[j];
      assert 0 <= j < |fields| && !FieldPasses(fields[j], isEmail) && errs[k] == ErrorFor(fields[j], isEmail);
    } else {
      assert !FieldPasses(fields[last], isEmail) && errs[k] == ErrorFor(fields[last], isEmail);
    }
  }

  /** There are exactly as many entries as failing fields. */
  lemma {:induction false} ValidateStructCount(fields: seq<Field>, isEmail: string -> bool)
    ensures |ValidateStruct(fields, isEmail)| == CountFailing(fields, isEmail)
  {
    if |fields| > 0 {
      ValidateStructCount(fields[..|fields| - 1], isEmail);
    }
  }

  /** The field that entry `k` reports: it fails, and the entry is its report. */
  function ReportedField(fields: seq<Field>, isEmail: string -> bool, k: nat): (j: nat)
    requires k < |ValidateStruct(fields, isEmail)|
    ensures j < |fields| && !FieldPasses(fields[j], isEmail)
    ensures ValidateStruct(fields, isEmail)[k] == ErrorFor(fields[j], isEmail)
    decreases |fields|
  {
    var init := fields[..|fields| - 1];
    var prior := ValidateStruct(init, isEmail);
    if k < |prior| then
      var j := ReportedField(init, isEmail, k);
      assert init[j] == fields[j];
      j
    else
      |fields| - 1
  }

  /** Entries appear in field order: a later entry reports a later field. With
      `ValidateStructCount`, every failing field is
      reported exactly once, in declaration order. */
  lemma {:induction false} ReportedFieldsInOrder(fields: seq<Field>, isEmail: string -> bool, k1: nat, k2: nat)
    requires k1 < k2 < |ValidateStruct(fields, isEmail)|
    ensures ReportedField(fields, isEmail, k1) < ReportedField(fields, isEmail, k2)
    decreases |fields|
  {
    var init := fields[..|fields| - 1];
    var prior := ValidateStruct(init, isEmail);
    if k2 < |prior| {
      ReportedFieldsInOrder(init, isEmail, k1, k2);
    }
  }

  /** Validating one more field appends its entry, if it fails, to the others'. */
  lemma ValidateStructStep(fields: seq<Field>, i: nat, isEmail: string -> bool)
    requires i < |fields|
    ensures ValidateStruct(fields[..i + 1], isEmail) ==
      if FieldPasses(fields[i], isEmail) then ValidateStruct(fields[..i], isEmail)
      else ValidateStruct(fields[..i], isEmail) + [ErrorFor(fields[i], isEmail)]
  {
    assert fields[..i + 1][..i] == fields[..i];
  }

  /** An entry reported for a prefix of the fields is still reported for all of them. */
  lemma {:induction false} ReportKept(fields: seq<Field>, i: nat, x: ValidationError, isEmail: string -> bool)
    requires i <= |fields| && x in ValidateStruct(fields[..i], isEmail)
    ensures x in ValidateStruct(fields, isEmail)
    decreases |fields| - i
  {
    if i == |fields| {
      assert fields[..i] == fields;
    } else {
      ValidateStructStep(fields, i, isEmail);
      ReportKept(fields, i + 1, x, isEmail);
    }
  }

  /** Every failing field is reported. */
  lemma FailingFieldsReported(fields: seq<Field>, isEmail: string -> bool, j: nat)
    requires j < |fields| && !FieldPasses(fields[j], isEmail)
    ensures ErrorFor(fields[j], isEmail) in ValidateStruct(fields, isEmail)
  {
    ValidateStructStep(fields, j, isEmail);
    ReportKept(fields, j + 1, ErrorFor(fields[j], isEmail), isEmail);
  }

  /** The Go loop: append an entry for each failing field, in order. */
  method ValidateStructLoop(fields: seq<Field>, isEmail: string -> bool) returns (errs: seq<ValidationError>)
    ensures errs == ValidateStruct(fields, isEmail)
  {
    errs := [];
    var i := 0;
    while i < |fields|
      invariant 0 <= i <= |fields|
      invariant errs == ValidateStruct(fields[..i], isEmail)
    {
      ValidateStructStep(fields, i, isEmail);
      if !FieldPasses(fields[i], isEmail) {
        errs := errs + [ErrorFor(fields[i], isEmail)];
      }
      i := i + 1;
    }
    assert fields[..i] == fields;
  }
}
