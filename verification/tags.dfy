/** The subset of go-playground/validator struct-tag semantics that the request
    schemas use: which tag of a field fails first, if any. The email-syntax check is
    a caller-supplied predicate `isEmail`. */
module Tags {
  import opened Wrappers
  import Strconv

  /** One entry of a `validate:"..."` tag. `min`/`max` count characters. */
  datatype Rule = Required | Email | Min(n: nat) | Max(n: nat) | OneOf(words: seq<string>) | OmitEmpty

  /** A struct field under validation: its Go field name, its value, its tag. */
  datatype Field = Field(name: string, value: string, rules: seq<Rule>)

  /** The tag name as `FieldError.Tag()` reports it. */
  function TagName(r: Rule): string {
    match r
    case Required => "required"
    case Email => "email"
    case Min(_) => "min"
    case Max(_) => "max"
    case OneOf(_) => "oneof"
    case OmitEmpty => "omitempty"
  }

  /** Space-separated list, as written after `oneof=`. */
  function JoinWords(ws: seq<string>): string {
    if |ws| == 0 then ""
    else if |ws| == 1 then ws[0]
    else ws[0] + " " + JoinWords(ws[1..])
  }

  /** The tag parameter as `FieldError.Param()` reports it. */
  function Param(r: Rule): string {
    match r
    case Min(n) => Strconv.Itoa(n)
    case Max(n) => Strconv.Itoa(n)
    case OneOf(ws) => JoinWords(ws)
    case _ => ""
  }

  /** Whether one rule rejects a value (omitempty never does). */
  predicate Fails(r: Rule, v: string, isEmail: string -> bool) {
    match r
    case Required => v == ""
    case Email => !isEmail(v)
    case Min(n) => |v| < n
    case Max(n) => |v| > n
    case OneOf(ws) => v !in ws
    case OmitEmpty => false
  }

  /** Rules are checked left to right; the first failing one is reported, and an
      `omitempty` meeting an empty value skips every rule after it. */
  function FirstFailure(v: string, rules: seq<Rule>, isEmail: string -> bool): (r: Option<Rule>)
    ensures r.Some? ==> r.value in rules && r.value != OmitEmpty && Fails(r.value, v, isEmail)
    ensures OmitEmpty !in rules ==> (r.None? <==> forall i :: 0 <= i < |rules| ==> !Fails(rules[i], v, isEmail))
    ensures |rules| > 0 && rules[0] == OmitEmpty && v == "" ==> r.None?
  {
    if |rules| == 0 then None
    else if rules[0] == OmitEmpty && v == "" then None
    else if Fails(rules[0], v, isEmail) then Some(rules[0])
    else
      var rest := FirstFailure(v, rules[1..], isEmail);
      assert forall i :: 1 <= i < |rules| ==> rules[i] == rules[1..][i - 1];
      rest
  }

  /** The reported rule is the first failing one: every rule before it is checked
      and passes. Nothing is reported only when each failing rule comes after an
      `omitempty` that stopped the check on the empty value. */
  lemma {:induction false} FirstFailureIsFirst(v: string, rules: seq<Rule>, isEmail: string -> bool)
    ensures var r := FirstFailure(v, rules, isEmail);
      r.Some? ==> exists k :: 0 <= k < |rules| && rules[k] == r.value && Clears(rules[..k], v, isEmail)
    ensures var r := FirstFailure(v, rules, isEmail);
      r.None? ==> forall k :: 0 <= k < |rules| && Fails(rules[k], v, isEmail) ==> Skipped(rules[..k], v)
  {
    if |rules| == 0 {
    } else if rules[0] == OmitEmpty && v == "" {
      assert forall k :: 0 < k <= |rules| ==> rules[..k][0] == OmitEmpty;
    } else if Fails(rules[0], v, isEmail) {
      assert Clears(rules[..0], v, isEmail);
    } else {
      FirstFailureIsFirst(v, rules[1..], isEmail);
      assert forall k :: 1 <= k <= |rules| ==> rules[..k] == [rules[0]] + rules[1..][..k - 1];
      var r := FirstFailure(v, rules[1..], isEmail);
      if r.Some? {
        var k :| 0 <= k < |rules[1..]| && rules[1..][k] == r.value && Clears(rules[1..][..k], v, isEmail);
        assert rules[k + 1] == r.value && Clears(rules[..k + 1], v, isEmail);
      }
    }
  }

  /** Every rule in `prefix` is checked and passes: none fails and none is an
      `omitempty` that stops the check. */
  predicate Clears(prefix: seq<Rule>, v: string, isEmail: string -> bool) {
    forall i :: 0 <= i < |prefix| ==> !Fails(prefix[i], v, isEmail) && !(prefix[i] == OmitEmpty && v == "")
  }

  /** `prefix` holds an `omitempty` that stops the check on the empty value. */
  predicate Skipped(prefix: seq<Rule>, v: string) {
    v == "" && OmitEmpty in prefix
  }

  /** A field tagged `omitempty,<rest>` passes iff it is empty or passes `<rest>`. */
  lemma OmitEmptyPrefix(v: string, rest: seq<Rule>, isEmail: string -> bool)
    requires OmitEmpty !in rest
    ensures FirstFailure(v, [OmitEmpty] + rest, isEmail).None?
        <==> v == "" || forall i :: 0 <= i < |rest| ==> !Fails(rest[i], v, isEmail)
  {
    assert ([OmitEmpty] + rest)[1..] == rest;
  }

  predicate FieldPasses(f: Field, isEmail: string -> bool) {
    FirstFailure(f.value, f.rules, isEmail).None?
  }

  predicate AllPass(fields: seq<Field>, isEmail: string -> bool) {
    forall i :: 0 <= i < |fields| ==> FieldPasses(fields[i], isEmail)
  }
}
