/**
 * The salary "+1" mutation of job_apply.py and update_salary.py: reading the three salary
 * fields, the two-branch bump, writing the fields back and saving; and the integer reading of
 * configuration values done by `_get_int_env`.
 */
module Salary {
  import opened Wrappers
  import opened Text

  // ---------------------------------------------------------------------------------------
  // parse_salary
  // ---------------------------------------------------------------------------------------

  /** The digit characters of `s`, in order (`"".join(ch for ch in s if ch.isdigit())`). */
  function Digits(s: string): (r: string)
    ensures AllDigits(r) && |r| <= |s|
  {
    if s == [] then []
    else Digits(s[..|s| - 1]) + (if IsDigit(s[|s| - 1]) then [s[|s| - 1]] else [])
  }

  /** `parse_salary`: the digits of the field value read as one integer; no value, or no digit in
      it, reads as 0. */
  function ParseSalary(text: Option<string>): (r: nat)
    ensures (forall i :: 0 <= i < |text.GetOr("")| ==> !IsDigit(text.GetOr("")[i])) ==> r == 0
  {
    var ds := Digits(text.GetOr(""));
    DigitsNone(text.GetOr(""));
    DecimalValue(ds)
  }

  lemma {:induction false} DigitsNone(s: string)
    ensures (forall i :: 0 <= i < |s| ==> !IsDigit(s[i])) ==> Digits(s) == []
  {
    if s != [] {
      DigitsNone(s[..|s| - 1]);
    }
  }

  lemma {:induction false} DigitsAppend(a: string, b: string)
    ensures Digits(a + b) == Digits(a) + Digits(b)
    decreases |b|
  {
    if b == [] {
      assert a + b == a;
    } else {
      assert (a + b)[..|a + b| - 1] == a + b[..|b| - 1];
      DigitsAppend(a, b[..|b| - 1]);
    }
  }

  lemma {:induction false} DigitsOfDigits(s: string)
    requires AllDigits(s)
    ensures Digits(s) == s
  {
    if s != [] {
      DigitsOfDigits(s[..|s| - 1]);
    }
  }

  lemma DigitsSkip(a: string, c: char, b: string)
    requires !IsDigit(c)
    ensures Digits(a + [c] + b) == Digits(a + b)
  {
    DigitsAppend(a + [c], b);
    DigitsAppend(a, [c]);
    DigitsAppend(a, b);
    assert [c][..0] == [];
  }

  /** Non-digit characters, such as the grouping commas of "29,00,001", do not affect the value. */
  lemma ParseSalaryIgnoresNonDigit(a: string, c: char, b: string)
    requires !IsDigit(c)
    ensures ParseSalary(Some(a + [c] + b)) == ParseSalary(Some(a + b))
  {
    DigitsSkip(a, c, b);
  }

  /** What the flow writes into a salary field (`str(value)`) reads back as the same number. */
  lemma ParseSalaryOfWritten(n: nat)
    ensures ParseSalary(Some(NatToString(n))) == n
  {
    DigitsOfDigits(NatToString(n));
    DecimalValueOfNatToString(n);
  }

  /** The example of the docstring: "29,00,001" reads as 2900001. */
  lemma ParseSalaryExample()
    ensures ParseSalary(Some("29,00,001")) == 2900001
  {
    assert "29,00,001" == "29" + [','] + "00,001";
    DigitsSkip("29", ',', "00,001");
    assert "29" + "00,001" == "2900" + [','] + "001";
    DigitsSkip("2900", ',', "001");
    assert "2900" + "001" == "2900001";
    DigitsOfDigits("2900001");
    assert Digits("29,00,001") == "2900001";
    DecimalExample();
  }

  lemma DecimalExample()
    ensures DecimalValue("2900001") == 2900001
  {
    var d := "2900001";
    assert DecimalValue(d[..1]) == 2;
    assert d[..2][..1] == d[..1];
    assert DecimalValue(d[..2]) == 29;
    assert d[..3][..2] == d[..2];
    assert DecimalValue(d[..3]) == 290;
    assert d[..4][..3] == d[..3];
    assert DecimalValue(d[..4]) == 2900;
    assert d[..5][..4] == d[..4];
    assert DecimalValue(d[..5]) == 29000;
    assert d[..6][..5] == d[..5];
    assert DecimalValue(d[..6]) == 290000;
    assert d[..7][..6] == d[..6];
    assert d[..7] == d;
  }

  // ---------------------------------------------------------------------------------------
  // The +1 bump
  // ---------------------------------------------------------------------------------------

  /** The three salary fields, as integers. */
  datatype SalaryState = SalaryState(current: nat, fixed: nat, variable: nat)

  /** The invariant the bump establishes: the current salary is fixed plus variable. */
  predicate Consistent(s: SalaryState) {
    s.current == s.fixed + s.variable
  }

  /** Only the aggregate "current" figure was ever entered. */
  predicate AggregateOnly(s: SalaryState) {
    s.fixed == 0 && s.current > 0 && s.variable == 0
  }

  /** The bump: an aggregate-only entry is taken as the fixed part and both rise by one;
      otherwise fixed rises by one and current is recomputed from fixed and variable. */
  function Bump(s: SalaryState): (r: SalaryState)
    ensures Consistent(r)
    ensures r.variable == s.variable
    ensures r.fixed > s.fixed
    ensures AggregateOnly(s) ==> r.current == s.current + 1 && r.fixed == r.current
    ensures !AggregateOnly(s) ==> r.fixed == s.fixed + 1
    ensures Consistent(s) || AggregateOnly(s) ==> r.current == s.current + 1
  {
    if AggregateOnly(s) then
      var current := s.current + 1;
      SalaryState(current, current, s.variable)
    else
      var fixed := s.fixed + 1;
      SalaryState(fixed + s.variable, fixed, s.variable)
  }

  /** Every bump after the first adds exactly one to the current salary. */
  lemma BumpAgain(s: SalaryState)
    ensures Bump(Bump(s)).current == Bump(s).current + 1
    ensures Bump(Bump(s)).fixed == Bump(s).fixed + 1
  {
  }

  /** The current salary can go down when the page held an inconsistent triple:
      (1000, 10, 0) becomes (11, 11, 0). */
  lemma BumpCanLowerCurrent()
    ensures Bump(SalaryState(1000, 10, 0)) == SalaryState(11, 11, 0)
  {
  }

  // ---------------------------------------------------------------------------------------
  // _get_int_env
  // ---------------------------------------------------------------------------------------

  /** `s.strip()`. */
  function Strip(s: string): string {
    RStrip(s[SpaceRunEnd(s, 0)..])
  }

  /** The digit part accepted by Python's `int`: digits, with single underscores between them. */
  predicate IsIntBody(b: string) {
    && |b| > 0
    && IsDigit(b[0]) && IsDigit(b[|b| - 1])
    && (forall i :: 0 <= i < |b| ==> IsDigit(b[i]) || b[i] == '_')
    && (forall i :: 0 <= i < |b| - 1 ==> !(b[i] == '_' && b[i + 1] == '_'))
  }

  function RemoveUnderscores(b: string): (r: string)
    requires forall i :: 0 <= i < |b| ==> IsDigit(b[i]) || b[i] == '_'
    ensures AllDigits(r)
  {
    if b == [] then []
    else RemoveUnderscores(b[..|b| - 1]) + (if b[|b| - 1] == '_' then [] else [b[|b| - 1]])
  }

  /** Python's `int(s)` on a string: surrounding whitespace, an optional sign, then the digits;
      None where `int` raises ValueError. */
  function ParseInt(s: string): Option<int> {
    var t := Strip(s);
    if |t| > 0 && (t[0] == '+' || t[0] == '-') then
      if IsIntBody(t[1..]) then
        var n: int := DecimalValue(RemoveUnderscores(t[1..]));
        Some(if t[0] == '-' then -n else n)
      else None
    else if IsIntBody(t) then Some(DecimalValue(RemoveUnderscores(t)))
    else None
  }

  /** `str(n)` for any integer. */
  function IntToString(n: int): string {
    if n < 0 then "-" + NatToString(-n) else NatToString(n)
  }

  /** `_get_int_env`: the configured value read as an integer; the default when the variable is
      unset or is not an integer literal. */
  function GetIntEnv(val: Option<string>, default: int): (r: int)
    ensures val.None? ==> r == default
    ensures val.Some? && ParseInt(val.value).None? ==> r == default
    ensures val.Some? && ParseInt(val.value).Some? ==> r == ParseInt(val.value).value
  {
    match val
    case None => default
    case Some(v) =>
      match ParseInt(v)
      case Some(n) => n
      case None => default
  }

  lemma {:induction false} RemoveUnderscoresOfDigits(s: string)
    requires AllDigits(s)
    ensures RemoveUnderscores(s) == s
  {
    if s != [] {
      RemoveUnderscoresOfDigits(s[..|s| - 1]);
    }
  }

  lemma StripNoSpace(s: string)
    requires |s| > 0 && !IsSpace(s[0]) && !IsSpace(s[|s| - 1])
    ensures Strip(s) == s
  {
    SpaceRunStartIs(s, |s|, |s|);
  }

  /** The digits `str` writes for a natural number form an integer body whose value is it. */
  lemma NatStringIsIntBody(n: nat)
    ensures IsIntBody(NatToString(n))
    ensures DecimalValue(RemoveUnderscores(NatToString(n))) == n
  {
    RemoveUnderscoresOfDigits(NatToString(n));
    DecimalValueOfNatToString(n);
  }

  lemma ParseIntOfNatString(n: nat)
    ensures ParseInt(NatToString(n)) == Some(n)
  {
    var t := NatToString(n);
    StripNoSpace(t);
    NatStringIsIntBody(n);
  }

  lemma ParseIntOfNegativeString(n: nat)
    requires n > 0
    ensures ParseInt("-" + NatToString(n)) == Some(-(n as int))
  {
    var t := "-" + NatToString(n);
    assert t[1..] == NatToString(n);
    StripNoSpace(t);
    NatStringIsIntBody(n);
  }

  /** A variable set to the decimal text of any integer yields that integer. */
  lemma GetIntEnvRoundTrip(n: int, default: int)
    ensures GetIntEnv(Some(IntToString(n)), default) == n
  {
    if n < 0 {
      ParseIntOfNegativeString(-n);
    } else {
      ParseIntOfNatString(n);
    }
  }

  /** A value with no digit at all, such as "five" or "", falls back to the default. */
  lemma GetIntEnvNoDigit(v: string, default: int)
    requires forall i :: 0 <= i < |v| ==> !IsDigit(v[i])
    ensures GetIntEnv(Some(v), default) == default
  {
    var k := SpaceRunEnd(v, 0);
    var t := Strip(v);
    assert t == v[k..][..|t|];
    assert forall i :: 0 <= i < |t| ==> t[i] == v[k + i];
  }

  // ---------------------------------------------------------------------------------------
  // update_salary_plus_one
  // ---------------------------------------------------------------------------------------

  /** A salary input as found on the form: missing, or located with its `value` attribute. */
  datatype Input = Missing | Located(value: Option<string>)

  datatype SalaryField = CurrentField | FixedField | VariableField

  /** What the Employment section of the profile page offers to the flow. */
  datatype SalaryForm = SalaryForm(
    employmentOpens: bool,               // the Employment quick-link row and its link were clicked
    formAppears: bool,                   // the "Current salary" label appeared within the wait
    current: Input,
    fixed: Input,
    variable: Input,
    failingWrite: Option<SalaryField>,   // the first field whose click/clear/send_keys raises
    saveButton: bool)                    // the Save button was found and clicked

  /** Effects on the page, in the order they happen. */
  datatype SalaryEvent =
    | ValuesRead(before: SalaryState)
    | FieldWritten(field: SalaryField, text: string)
    | SaveClicked

  datatype SalaryOutcome =
    | EmploymentNotOpened
    | FormNotShown
    | InputsNotLocated
    | WriteFailed
    | SaveNotFound
    | Saved

  function ValueOf(i: Input): Option<string> {
    if i.Located? then i.value else None
  }

  /** The triple read from the form. */
  function Before(form: SalaryForm): SalaryState {
    SalaryState(ParseSalary(ValueOf(form.current)), ParseSalary(ValueOf(form.fixed)),
                ParseSalary(ValueOf(form.variable)))
  }

  /** Everything a fully successful run does, in order; every run does a prefix of it. */
  function Steps(form: SalaryForm): seq<SalaryEvent> {
    var after := Bump(Before(form));
    [ValuesRead(Before(form)),
     FieldWritten(CurrentField, NatToString(after.current)),
     FieldWritten(FixedField, NatToString(after.fixed)),
     FieldWritten(VariableField, NatToString(after.variable)),
     SaveClicked]
  }

  /** How many of the three writes succeed before `failing` raises. */
  function WritesBefore(failing: Option<SalaryField>): nat {
    match failing
    case None => 3
    case Some(CurrentField) => 0
    case Some(FixedField) => 1
    case Some(VariableField) => 2
  }

  predicate AllLocated(form: SalaryForm) {
    form.current.Located? && form.fixed.Located? && form.variable.Located?
  }

  /**
   * `update_salary_plus_one`. `abortWithoutEmployment` is true for update_salary.py, which
   * returns when the Employment section cannot be opened, and false for job_apply.py, which
   * only warns and goes on to wait for the salary form.
   */
  method UpdateSalaryPlusOne(form: SalaryForm, abortWithoutEmployment: bool)
    returns (outcome: SalaryOutcome, events: seq<SalaryEvent>)
    ensures events <= Steps(form)
    ensures outcome == EmploymentNotOpened <==> abortWithoutEmployment && !form.employmentOpens
    ensures outcome in {EmploymentNotOpened, FormNotShown, InputsNotLocated} <==> events == []
    ensures outcome == FormNotShown ==> !form.formAppears
    ensures outcome == InputsNotLocated ==> !AllLocated(form)
    ensures outcome == WriteFailed ==>
              form.failingWrite.Some? && |events| == 1 + WritesBefore(form.failingWrite)
    ensures outcome == SaveNotFound ==> !form.saveButton && events == Steps(form)[..4]
    ensures outcome == Saved <==> SaveClicked in events
    ensures outcome == FormNotShown <==>
              (form.employmentOpens || !abortWithoutEmployment) && !form.formAppears
    ensures outcome == InputsNotLocated <==>
              && (form.employmentOpens || !abortWithoutEmployment)
              && form.formAppears && !AllLocated(form)
    ensures outcome == WriteFailed <==>
              && (form.employmentOpens || !abortWithoutEmployment)
              && form.formAppears && AllLocated(form) && form.failingWrite.Some?
    ensures outcome == WriteFailed ==> events == Steps(form)[..1 + WritesBefore(form.failingWrite)]
    ensures outcome == SaveNotFound <==>
              && (form.employmentOpens || !abortWithoutEmployment)
              && form.formAppears && AllLocated(form)
              && form.failingWrite.None? && !form.saveButton
    ensures outcome == Saved <==>
              && (form.employmentOpens || !abortWithoutEmployment)
              && form.formAppears && AllLocated(form)
              && form.failingWrite.None? && form.saveButton
    ensures outcome == Saved ==> events == Steps(form)
  {
    events := [];
    if !form.employmentOpens && abortWithoutEmployment {
      return EmploymentNotOpened, events;
    }
    if !form.formAppears {
      return FormNotShown, events;
    }
    if !AllLocated(form) {
      return InputsNotLocated, events;
    }
    var before := Before(form);
    events := events + [ValuesRead(before)];
    var after := Bump(before);
    var fields := [CurrentField, FixedField, VariableField];
    var values := [after.current, after.fixed, after.variable];
    for i := 0 to 3
      invariant events == Steps(form)[..1 + i]
      invariant form.failingWrite.Some? ==> i <= WritesBefore(form.failingWrite)
    {
      if form.failingWrite == Some(fields[i]) {
        return WriteFailed, events;
      }
      events := events + [FieldWritten(fields[i], NatToString(values[i]))];
    }
    if !form.saveButton {
      return SaveNotFound, events;
    }
    events := events + [SaveClicked];
    return Saved, events;
  }

  /** After a saved run the form holds a consistent triple: the written texts read back as
      current == fixed + variable, and the variable part is what was there before. */
  lemma SavedFormIsConsistent(form: SalaryForm)
    ensures var s := Steps(form);
            && ParseSalary(Some(s[1].text)) == ParseSalary(Some(s[2].text)) + ParseSalary(Some(s[3].text))
            && ParseSalary(Some(s[3].text)) == Before(form).variable
  {
    var after := Bump(Before(form));
    ParseSalaryOfWritten(after.current);
    ParseSalaryOfWritten(after.fixed);
    ParseSalaryOfWritten(after.variable);
  }
}
