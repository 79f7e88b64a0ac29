/** The request validators (validators.js): chains of sanitizers and checks
    over request fields, and `validate`, which turns the failed checks into a
    400 answer. Every validator of a chain runs (no chain stops at its first
    failure), and an absent field reaches the validators as the empty string. */
module Validators {
  import opened Common
  import opened Text
  import Pagination
  import Students
  import Fees
  import Absences

  /** A request field: absent, or its text. */
  datatype Field = Undefined | Value(text: string)

  /** `.optional()` skips the chain for an absent field;
      `.optional({ checkFalsy: true })` also for an empty one. */
  datatype Optionality = Required | Optional | OptionalFalsy

  /** A link of a chain: the `trim` sanitizer, or a check with its message. */
  datatype Step = TrimStep | Rule(test: string -> bool, message: string)

  datatype Chain = Chain(optionality: Optionality, steps: seq<Step>)

  predicate Skips(opt: Optionality, f: Field) {
    (opt == Optional && f.Undefined?) || (opt == OptionalFalsy && (f.Undefined? || f.text == []))
  }

  /** The messages of the failing checks, in chain order, each check reading
      the value as sanitized by the steps before it. */
  function RunSteps(steps: seq<Step>, v: string): (r: seq<string>)
    ensures |r| <= |steps|
  {
    if steps == [] then []
    else if steps[0].TrimStep? then RunSteps(steps[1..], Trim(v))
    else (if steps[0].test(v) then [] else [steps[0].message]) + RunSteps(steps[1..], v)
  }

  function RunChain(c: Chain, f: Field): seq<string> {
    if Skips(c.optionality, f) then [] else RunSteps(c.steps, if f.Undefined? then [] else f.text)
  }

  /** The messages of all chains of a route, chain after chain. */
  function Errors(checks: seq<(Chain, Field)>): (r: seq<string>)
    ensures r == [] <==> forall i :: 0 <= i < |checks| ==> RunChain(checks[i].0, checks[i].1) == []
  {
    if checks == [] then []
    else RunChain(checks[0].0, checks[0].1) + Errors(checks[1..])
  }

  /** The messages of two groups of chains come in the groups' order. */
  lemma {:induction false} ErrorsAppend(a: seq<(Chain, Field)>, b: seq<(Chain, Field)>)
    ensures Errors(a + b) == Errors(a) + Errors(b)
  {
    if a == [] {
      assert a + b == b;
    } else {
      assert (a + b)[0] == a[0];
      assert (a + b)[1..] == a[1..] + b;
      ErrorsAppend(a[1..], b);
    }
  }

  /** A chain of one check reports its message exactly when the check fails. */
  lemma OneRule(t: string -> bool, m: string, v: string)
    ensures RunSteps([Rule(t, m)], v) == if t(v) then [] else [m]
  {
    assert [Rule(t, m)][1..] == [];
  }

  /** An optional chain of one check passes an absent field, and a present one
      exactly when the check holds. */
  lemma OptionalCheck(t: string -> bool, m: string, f: Field)
    ensures RunChain(Chain(Optional, [Rule(t, m)]), f) == [] <==> f.Undefined? || t(f.text)
  {
    if f.Value? {
      OneRule(t, m, f.text);
    }
  }

  /** A required chain of `notEmpty` and one further check passes exactly a
      present, non-empty field that meets the check. */
  lemma RequiredCheck(m1: string, t: string -> bool, m2: string, f: Field)
    ensures RunChain(Chain(Required, [Rule(NotEmpty, m1), Rule(t, m2)]), f) == [] <==> f.Value? && f.text != [] && t(f.text)
  {
    TwoRules(NotEmpty, m1, t, m2, if f.Undefined? then [] else f.text);
  }

  /** A chain of two checks reports the failing ones' messages in order. */
  lemma TwoRules(t1: string -> bool, m1: string, t2: string -> bool, m2: string, v: string)
    ensures RunSteps([Rule(t1, m1), Rule(t2, m2)], v) == (if t1(v) then [] else [m1]) + (if t2(v) then [] else [m2])
  {
    assert [Rule(t1, m1), Rule(t2, m2)][1..] == [Rule(t2, m2)];
    OneRule(t2, m2, v);
  }

  datatype Verdict = Next | Rejected(status: nat, errors: seq<string>)

  /** `validate`: when any check failed, 400 with every message in order;
      otherwise on to the handler. */
  function Validate(checks: seq<(Chain, Field)>): (r: Verdict)
    ensures r.Next? <==> forall i :: 0 <= i < |checks| ==> RunChain(checks[i].0, checks[i].1) == []
    ensures r.Rejected? ==> r.status == BadRequest && r.errors == Errors(checks) && r.errors != []
  {
    var errors := Errors(checks);
    if errors == [] then Next else Rejected(BadRequest, errors)
  }

  // ---------------------------------------------------------------------------
  // The checks

  /** `notEmpty()`. */
  predicate NotEmpty(s: string) {
    s != []
  }

  /** The length of an optional leading sign. */
  function SignLength(s: string): (n: nat)
    ensures n <= |s|
  {
    if |s| > 0 && (s[0] == '+' || s[0] == '-') then 1 else 0
  }

  /** The integer syntax `isInt` accepts: an optional sign and one or more
      digits (leading zeros allowed). */
  predicate IsIntText(s: string) {
    SignLength(s) < |s| && forall i :: SignLength(s) <= i < |s| ==> IsDigit(s[i])
  }

  /** The value `parseInt` (or `Number`) reads from such a text. */
  function IntValue(s: string): int
    requires IsIntText(s)
  {
    var m: int := DecimalValue(s[SignLength(s)..]);
    if s[0] == '-' then -m else m
  }

  /** `isInt({ min: lo, max: hi })`. */
  predicate IntIn(s: string, lo: int, hi: int) {
    IsIntText(s) && lo <= IntValue(s) <= hi
  }

  /** `isInt({ min: lo })`. */
  predicate IntAtLeast(s: string, lo: int) {
    IsIntText(s) && lo <= IntValue(s)
  }

  predicate HourDigits(a: char, b: char) {
    ((a == '0' || a == '1') && IsDigit(b)) || (a == '2' && '0' <= b <= '3')
  }

  predicate MinuteDigits(a: char, b: char) {
    '0' <= a <= '5' && IsDigit(b)
  }

  /** `matches(/^([01]\d|2[0-3]):?([0-5]\d)$/)`. */
  predicate TimeText(s: string) {
    (|s| == 5 && HourDigits(s[0], s[1]) && s[2] == ':' && MinuteDigits(s[3], s[4]))
    || (|s| == 4 && HourDigits(s[0], s[1]) && MinuteDigits(s[2], s[3]))
  }

  /** A number below 100 written with two digits. */
  function TwoDigits(n: nat): (r: string)
    requires n < 100
    ensures |r| == 2 && IsDigit(r[0]) && IsDigit(r[1])
  {
    [DigitChar(n / 10), DigitChar(n % 10)]
  }

  /** A clock time written HH:MM, or HHMM without the colon. */
  function ClockText(h: nat, m: nat, colon: bool): string
    requires h < 24 && m < 60
  {
    TwoDigits(h) + (if colon then ":" else "") + TwoDigits(m)
  }

  /** The time format accepts exactly the times of day from 00:00 to 23:59,
      written with two-digit hours and minutes, with or without the colon. */
  lemma TimeTextMeaning(s: string)
    ensures TimeText(s) <==> exists h: nat, m: nat, colon: bool :: h < 24 && m < 60 && s == ClockText(h, m, colon)
  {
    if TimeText(s) {
      var colon := |s| == 5;
      var k := if colon then 3 else 2;
      var h := DigitValue(s[0]) * 10 + DigitValue(s[1]);
      var m := DigitValue(s[k]) * 10 + DigitValue(s[k + 1]);
      assert h / 10 == DigitValue(s[0]) && h % 10 == DigitValue(s[1]);
      assert m / 10 == DigitValue(s[k]) && m % 10 == DigitValue(s[k + 1]);
      assert TwoDigits(h) == s[..2];
      assert TwoDigits(m) == s[k..];
      assert s == ClockText(h, m, colon);
    }
    if exists h: nat, m: nat, colon: bool :: h < 24 && m < 60 && s == ClockText(h, m, colon) {
      var h: nat, m: nat, colon: bool :| h < 24 && m < 60 && s == ClockText(h, m, colon);
      ClockDigits(h, m, colon);
    }
  }

  lemma ClockDigits(h: nat, m: nat, colon: bool)
    requires h < 24 && m < 60
    ensures TimeText(ClockText(h, m, colon))
  {
    var s := ClockText(h, m, colon);
    var k := if colon then 3 else 2;
    assert s[0] == DigitChar(h / 10) && s[1] == DigitChar(h % 10);
    assert s[k] == DigitChar(m / 10) && s[k + 1] == DigitChar(m % 10);
    assert h / 10 <= 2 && (h / 10 == 2 ==> h % 10 <= 3);
    assert m / 10 <= 5;
  }

  // ---------------------------------------------------------------------------
  // The chains

  /** `grade` of a class: required, an integer from 1 to 12. */
  const GradeChain := Chain(Required, [Rule(NotEmpty, "Grade is required"),
    Rule((s: string) => IntIn(s, 1, 12), "Grade must be between 1 and 12")])

  /** `capacity` of a class: optional, an integer of at least 1. */
  const CapacityChain := Chain(Optional, [Rule((s: string) => IntAtLeast(s, 1), "Capacity must be at least 1")])

  /** `page` and `limit` of a listing. */
  const PageChain := Chain(Optional, [Rule((s: string) => IntAtLeast(s, 1), "Page must be a positive integer")])
  const LimitChain := Chain(Optional, [Rule((s: string) => IntIn(s, 1, 1000), "Limit must be between 1 and 1000")])

  /** `start_time` and `end_time` of a schedule entry. */
  const StartTimeChain := Chain(Required, [Rule(NotEmpty, "Start time is required"),
    Rule(TimeText, "Start time must be in HH:MM format")])
  const EndTimeChain := Chain(Required, [Rule(NotEmpty, "End time is required"),
    Rule(TimeText, "End time must be in HH:MM format")])

  /** `username` at registration: trimmed, then non-empty and at least three
      characters long. */
  const UsernameChain := Chain(Required, [TrimStep, Rule(NotEmpty, "Username is required"),
    Rule((s: string) => |s| >= 3, "Username must be at least 3 characters")])

  /** The username checks see the trimmed text: a name passes exactly when
      it keeps at least three characters once its surrounding whitespace is
      removed, so a padded two-letter name is refused. */
  lemma UsernameRule(f: Field)
    ensures RunChain(UsernameChain, f) == [] <==> f.Value? && |Trim(f.text)| >= 3
  {
    var v := if f.Undefined? then [] else f.text;
    assert UsernameChain.steps[1..] == [Rule(NotEmpty, "Username is required"),
      Rule((s: string) => |s| >= 3, "Username must be at least 3 characters")];
    TwoRules(NotEmpty, "Username is required", (s: string) => |s| >= 3, "Username must be at least 3 characters", Trim(v));
    if f.Undefined? {
      assert Trim(v) == [];
    }
  }

  /** A grade passes exactly when it is an integer from 1 to 12; a missing
      grade reports both of its messages. */
  lemma GradeChainRule(f: Field)
    ensures RunChain(GradeChain, f) == [] <==> f.Value? && IntIn(f.text, 1, 12)
    ensures f.Undefined? ==> RunChain(GradeChain, f) == ["Grade is required", "Grade must be between 1 and 12"]
  {
    var v := if f.Undefined? then [] else f.text;
    TwoRules(NotEmpty, "Grade is required", (s: string) => IntIn(s, 1, 12), "Grade must be between 1 and 12", v);
  }

  /** A capacity passes when it is absent or an integer of at least 1. */
  lemma CapacityRule(f: Field)
    ensures RunChain(CapacityChain, f) == [] <==> f.Undefined? || IntAtLeast(f.text, 1)
  {
    if f.Value? {
      OneRule((s: string) => IntAtLeast(s, 1), "Capacity must be at least 1", f.text);
    }
  }

  /** A schedule time passes exactly when it is a time of day in HH:MM or
      HHMM form. */
  lemma TimeRule(f: Field)
    ensures RunChain(StartTimeChain, f) == [] <==> f.Value? && TimeText(f.text)
    ensures RunChain(EndTimeChain, f) == [] <==> f.Value? && TimeText(f.text)
  {
    var v := if f.Undefined? then [] else f.text;
    TwoRules(NotEmpty, "Start time is required", TimeText, "Start time must be in HH:MM format", v);
    TwoRules(NotEmpty, "End time is required", TimeText, "End time must be in HH:MM format", v);
  }

  /** The pagination validator lets a request through exactly when `page`
      is absent or at least 1 and `limit` is absent or from 1 to 1000; the
      listing handlers then use the values as sent: the limit is never capped
      and the number of skipped documents is never negative. */
  lemma PaginationRule(page: Field, limit: Field)
    ensures Validate([(PageChain, page), (LimitChain, limit)]).Next?
      <==> (page.Undefined? || IntAtLeast(page.text, 1)) && (limit.Undefined? || IntIn(limit.text, 1, 1000))
    ensures Validate([(PageChain, page), (LimitChain, limit)]).Next? && limit.Value? ==>
      Pagination.Limit(Some(IntValue(limit.text))) == IntValue(limit.text)
    ensures Validate([(PageChain, page), (LimitChain, limit)]).Next? && page.Value? && limit.Value? ==>
      Pagination.Skip(Pagination.Page(Some(IntValue(page.text))), Pagination.Limit(Some(IntValue(limit.text)))) >= 0
  {
    var checks := [(PageChain, page), (LimitChain, limit)];
    if page.Value? {
      OneRule((s: string) => IntAtLeast(s, 1), "Page must be a positive integer", page.text);
    }
    if limit.Value? {
      OneRule((s: string) => IntIn(s, 1, 1000), "Limit must be between 1 and 1000", limit.text);
    }
    assert checks[0] == (PageChain, page) && checks[1] == (LimitChain, limit);
  }

  // ---------------------------------------------------------------------------
  // Value lists

  function AcademicStatusName(s: Students.AcademicStatus): string {
    if s == Students.Active then "active"
    else if s == Students.Transferred then "transferred"
    else if s == Students.Graduated then "graduated"
    else "suspended"
  }

  function FeeStatusName(s: Students.StudentFeeStatus): string {
    if s == Students.FeePaid then "paid"
    else if s == Students.FeePending then "pending"
    else if s == Students.FeeOverdue then "overdue"
    else "partial"
  }

  function PayMethodName(p: Fees.PayMethod): string {
    if p == Fees.Cash then "cash"
    else if p == Fees.BankTransfer then "bank_transfer"
    else if p == Fees.CreditCard then "credit_card"
    else if p == Fees.Check then "check"
    else "online"
  }

  function PeriodName(p: Absences.Period): string {
    if p == Absences.FullDay then "full_day"
    else if p == Absences.FirstPeriod then "first_period"
    else if p == Absences.SecondPeriod then "second_period"
    else if p == Absences.ThirdPeriod then "third_period"
    else if p == Absences.FourthPeriod then "fourth_period"
    else "fifth_period"
  }

  const AcademicStatuses: set<string> := {"active", "transferred", "graduated", "suspended"}
  const StudentFeeStatuses: set<string> := {"paid", "pending", "overdue", "partial"}
  const Terms: set<string> := {"first", "second", "third"}
  const FeeTypes: set<string> := {"tuition", "transportation", "books", "uniform", "activities", "other"}
  const PayMethods: set<string> := {"cash", "bank_transfer", "credit_card", "check", "online"}
  /** The validator's `period` list. */
  const ValidatorPeriods: set<string> :=
    {"full_day", "first_period", "second_period", "third_period", "fourth_period", "fifth_period"}
  /** The Absence schema's `period` enum. */
  const SchemaPeriods: set<string> := {"full_day", "first_period", "second_period", "third_period", "fourth_period"}

  const AcademicStatusChain := Chain(Optional, [Rule((s: string) => s in AcademicStatuses, "Invalid academic status")])
  const FeeStatusChain := Chain(Optional, [Rule((s: string) => s in StudentFeeStatuses, "Invalid fee status")])
  const TermChain := Chain(Required, [Rule(NotEmpty, "Term is required"),
    Rule((s: string) => s in Terms, "Invalid term")])
  const FeeTypeChain := Chain(Required, [Rule(NotEmpty, "Fee type is required"),
    Rule((s: string) => s in FeeTypes, "Invalid fee type")])
  const PayMethodChain := Chain(Required, [Rule(NotEmpty, "Payment method is required"),
    Rule((s: string) => s in PayMethods, "Invalid payment method")])
  const PeriodChain := Chain(Optional, [Rule((s: string) => s in ValidatorPeriods, "Invalid period")])

  /** Each list holds exactly the names of its schema enum: a name passes
      exactly when some value of the enum has it. */
  lemma EnumListsMatchSchemas(n: string)
    ensures n in AcademicStatuses <==> exists s: Students.AcademicStatus :: AcademicStatusName(s) == n
    ensures n in StudentFeeStatuses <==> exists s: Students.StudentFeeStatus :: FeeStatusName(s) == n
    ensures n in PayMethods <==> exists p: Fees.PayMethod :: PayMethodName(p) == n
  {
    if n in AcademicStatuses {
      var s := if n == "active" then Students.Active else if n == "transferred" then Students.Transferred
               else if n == "graduated" then Students.Graduated else Students.Suspended;
      assert AcademicStatusName(s) == n;
    }
    if n in StudentFeeStatuses {
      var s := if n == "paid" then Students.FeePaid else if n == "pending" then Students.FeePending
               else if n == "overdue" then Students.FeeOverdue else Students.FeePartial;
      assert FeeStatusName(s) == n;
    }
    if n in PayMethods {
      var p := if n == "cash" then Fees.Cash else if n == "bank_transfer" then Fees.BankTransfer
               else if n == "credit_card" then Fees.CreditCard else if n == "check" then Fees.Check else Fees.Online;
      assert PayMethodName(p) == n;
    }
  }

  /** A value-list chain passes exactly when the field is absent (for an
      optional one) or names a member of the list. */
  lemma ListRules(f: Field)
    ensures RunChain(AcademicStatusChain, f) == [] <==> f.Undefined? || f.text in AcademicStatuses
    ensures RunChain(FeeStatusChain, f) == [] <==> f.Undefined? || f.text in StudentFeeStatuses
    ensures RunChain(TermChain, f) == [] <==> f.Value? && f.text in Terms
    ensures RunChain(FeeTypeChain, f) == [] <==> f.Value? && f.text in FeeTypes
    ensures RunChain(PayMethodChain, f) == [] <==> f.Value? && f.text in PayMethods
    ensures RunChain(PeriodChain, f) == [] <==> f.Undefined? || f.text in ValidatorPeriods
  {
    OptionalCheck((s: string) => s in AcademicStatuses, "Invalid academic status", f);
    OptionalCheck((s: string) => s in StudentFeeStatuses, "Invalid fee status", f);
    OptionalCheck((s: string) => s in ValidatorPeriods, "Invalid period", f);
    assert "" !in Terms && "" !in FeeTypes && "" !in PayMethods;
    RequiredCheck("Term is required", (s: string) => s in Terms, "Invalid term", f);
    RequiredCheck("Fee type is required", (s: string) => s in FeeTypes, "Invalid fee type", f);
    RequiredCheck("Payment method is required", (s: string) => s in PayMethods, "Invalid payment method", f);
  }

  /** The validator's period list names every period, the schema's names
      exactly those the Absence model stores, and the first is strictly larger:
      `fifth_period` passes the validator and is refused when the absence is
      created. */
  lemma PeriodListsDiffer()
    ensures forall p: Absences.Period :: PeriodName(p) in ValidatorPeriods
    ensures forall p: Absences.Period :: Absences.SchemaPeriod(p) <==> PeriodName(p) in SchemaPeriods
    ensures SchemaPeriods < ValidatorPeriods
    ensures RunChain(PeriodChain, Value("fifth_period")) == [] && !Absences.SchemaPeriod(Absences.FifthPeriod)
  {
    OneRule((s: string) => s in ValidatorPeriods, "Invalid period", "fifth_period");
    assert "fifth_period" in ValidatorPeriods - SchemaPeriods;
  }
}
