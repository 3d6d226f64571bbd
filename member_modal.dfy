/**
 * The member form (src/components/MemberModal.tsx): the subscription end-date
 * calculator and the form state it keeps consistent.
 */
module MemberModal {
  import opened Wrappers
  import opened Calendar
  import opened IsoDate
  import opened Types

  /** `toISOString` throws a RangeError on a date that did not parse. */
  datatype DateError = InvalidDate

  /** The months a plan adds; a plan outside the three adds nothing. */
  function PlanMonths(plan: string): (n: nat)
    ensures n == 0 <==> plan != "monthly" && plan != "quarterly" && plan != "yearly"
  {
    if plan == "monthly" then 1
    else if plan == "quarterly" then 3
    else if plan == "yearly" then 12
    else 0
  }

  /** The `switch` of `calculateEndDate` on a parsed start date. */
  function EndDate(start: Date, plan: string): (r: Date)
    requires ValidDate(start)
    ensures ValidDate(r)
  {
    if plan == "monthly" then AddMonths(start, 1)
    else if plan == "quarterly" then AddMonths(start, 3)
    else if plan == "yearly" then AddYears(start, 1)
    else start
  }

  /**
   * `calculateEndDate(startDate, subscriptionType)`: empty text for an empty
   * start date, the formatted end date for a parsable one, and the RangeError
   * of `toISOString` for any other text.
   */
  function CalculateEndDate(startDate: string, plan: string): (r: Result<string, DateError>)
    ensures r.Err? <==> startDate != "" && Parse(startDate).None?
    ensures r.Ok? && startDate != "" ==> |r.value| >= 10
  {
    if startDate == "" then Ok("")
    else match Parse(startDate)
      case None => Err(InvalidDate)
      case Some(d) => Ok(Format(EndDate(d, plan)))
  }

  /** An empty start date yields an empty end date, for every plan. */
  lemma EmptyStartGivesEmptyEnd(plan: string)
    ensures CalculateEndDate("", plan) == Ok("")
  {
  }

  /** A non-empty start date is accepted exactly when it parses; then the end date parses back. */
  lemma CalculateEndDateOutcome(startDate: string, plan: string)
    requires startDate != ""
    ensures CalculateEndDate(startDate, plan).Ok? <==> Parse(startDate).Some?
    ensures CalculateEndDate(startDate, plan).Ok? && EndDate(Parse(startDate).value, plan).year <= 9999 ==>
              Parse(CalculateEndDate(startDate, plan).value) == Some(EndDate(Parse(startDate).value, plan))
  {
    if Parse(startDate).Some? {
      var e := EndDate(Parse(startDate).value, plan);
      EndDateLater(Parse(startDate).value, plan);
      if e.year <= 9999 {
        FormatThenParse(e);
      }
    }
  }

  /**
   * Each of the three plans gives a strictly later end date; any other plan
   * string gives the start date itself (the `switch` has no default).
   */
  lemma EndDateLater(start: Date, plan: string)
    requires ValidDate(start)
    ensures PlanMonths(plan) > 0 ==> Before(start, EndDate(start, plan))
    ensures PlanMonths(plan) == 0 ==> EndDate(start, plan) == start
    ensures !Before(EndDate(start, plan), start)
  {
    if plan == "monthly" {
      AddMonthsLater(start, 1);
    } else if plan == "quarterly" {
      AddMonthsLater(start, 3);
    } else if plan == "yearly" {
      AddYearsLater(start, 1);
    }
  }

  /**
   * The plan alone decides the offset: for a day of month up to 28 the end
   * date keeps the day and lies exactly `PlanMonths(plan)` months later.
   */
  lemma EndDateKeepsShortDay(start: Date, plan: string)
    requires ValidDate(start) && start.day <= 28
    ensures EndDate(start, plan).day == start.day
    ensures MonthIndex(EndDate(start, plan).year, EndDate(start, plan).month)
         == MonthIndex(start.year, start.month) + PlanMonths(plan)
  {
    if plan == "monthly" {
      MakeDayMonth(start.year, start.month - 1 + 1, start.day);
    } else if plan == "quarterly" {
      MakeDayMonth(start.year, start.month - 1 + 3, start.day);
    } else if plan == "yearly" {
      MakeDayMonth(start.year + 1, start.month - 1, start.day);
    }
  }

  /**
   * The day-level meaning of the plans: the end date lies `start.day - 1` days
   * after the first of the target month (1 or 3 months on, or the same month a
   * year on), so a day of month the target month lacks spills into the next.
   */
  lemma EndDateDayNumber(start: Date, plan: string)
    requires ValidDate(start)
    ensures plan == "monthly" || plan == "quarterly" ==>
              DayNumber(EndDate(start, plan)) == DayNumber(FirstOfMonth(start.year, start.month - 1 + PlanMonths(plan))) + start.day - 1
    ensures plan == "yearly" ==>
              DayNumber(EndDate(start, plan)) == DayNumber(Date(start.year + 1, start.month, 1)) + start.day - 1
  {
    if plan == "monthly" {
      AddMonthsDayNumber(start, 1);
    } else if plan == "quarterly" {
      AddMonthsDayNumber(start, 3);
    } else if plan == "yearly" {
      AddYearsDayNumber(start, 1);
    }
  }

  /** On the text level: a valid start date moves strictly forward under the three plans, and stays under any other. */
  lemma CalculatedEndIsLater(startDate: string, plan: string)
    requires Parse(startDate).Some?
    ensures CalculateEndDate(startDate, plan).Ok?
    ensures PlanMonths(plan) == 0 ==> CalculateEndDate(startDate, plan) == Ok(startDate)
    ensures PlanMonths(plan) > 0 ==>
              var e := EndDate(Parse(startDate).value, plan);
              Before(Parse(startDate).value, e) && CalculateEndDate(startDate, plan) == Ok(Format(e))
  {
    var d := Parse(startDate).value;
    EndDateLater(d, plan);
    if PlanMonths(plan) == 0 {
      ParseThenFormat(startDate);
    }
  }

  // ---------------------------------------------------------------------------
  // The form state

  /** The form's contents when it opens without a member. */
  const EmptyForm: MemberFormData := MemberFormData("", "", "monthly", "", "", 0.0)

  /** The form's end date is the one computed from its start date and plan. */
  predicate EndDateDerived(f: MemberFormData)
  {
    CalculateEndDate(f.startDate, f.subscriptionType) == Ok(f.endDate)
  }

  /** The six form fields of a member, copied verbatim. */
  function FormOf(m: Member): (f: MemberFormData)
    ensures f.name == m.name && f.phone == m.phone && f.subscriptionType == m.subscriptionType
    ensures f.startDate == m.startDate && f.endDate == m.endDate && f.amountPaid == m.amountPaid
  {
    MemberFormData(m.name, m.phone, m.subscriptionType, m.startDate, m.endDate, m.amountPaid)
  }

  /** The empty form is consistent: no start date, no end date. */
  lemma EmptyFormDerived()
    ensures EndDateDerived(EmptyForm)
  {
  }

  /** The `formData` state of the member dialog. */
  class MemberForm {
    var formData: MemberFormData

    constructor ()
      ensures formData == EmptyForm
    {
      formData := EmptyForm;
    }

    /** The effect run when the dialog opens: copy the member being edited, or reset to the defaults. */
    method Open(member: Option<Member>)
      modifies this
      ensures member.None? ==> formData == EmptyForm && EndDateDerived(formData)
      ensures member.Some? ==> formData == FormOf(member.value)
    {
      if member.Some? {
        formData := FormOf(member.value);
      } else {
        formData := EmptyForm;
      }
    }

    /** `handleStartDateChange`: store the date and recompute the end date under the current plan. */
    method ChangeStartDate(date: string) returns (ok: bool)
      modifies this
      ensures ok <==> CalculateEndDate(date, old(formData).subscriptionType).Ok?
      ensures ok ==> formData == old(formData).(startDate := date,
                                               endDate := CalculateEndDate(date, old(formData).subscriptionType).value)
      ensures ok ==> EndDateDerived(formData)
      ensures !ok ==> formData == old(formData)
    {
      var r := CalculateEndDate(date, formData.subscriptionType);
      ok := r.Ok?;
      if ok {
        formData := formData.(startDate := date, endDate := r.value);
      }
    }

    /** `handleSubscriptionTypeChange`: store the plan and recompute the end date from the current start date. */
    method ChangeSubscriptionType(plan: string) returns (ok: bool)
      modifies this
      ensures ok <==> CalculateEndDate(old(formData).startDate, plan).Ok?
      ensures ok ==> formData == old(formData).(subscriptionType := plan,
                                               endDate := CalculateEndDate(old(formData).startDate, plan).value)
      ensures ok ==> EndDateDerived(formData)
      ensures !ok ==> formData == old(formData)
    {
      var r := CalculateEndDate(formData.startDate, plan);
      ok := r.Ok?;
      if ok {
        formData := formData.(subscriptionType := plan, endDate := r.value);
      }
    }

    /** The name input's change handler. */
    method ChangeName(name: string)
      modifies this
      ensures formData == old(formData).(name := name)
    {
      formData := formData.(name := name);
    }

    /** The phone input's change handler. */
    method ChangePhone(phone: string)
      modifies this
      ensures formData == old(formData).(phone := phone)
    {
      formData := formData.(phone := phone);
    }

    /** The amount input's change handler, with the number already converted. */
    method ChangeAmountPaid(amount: real)
      modifies this
      ensures formData == old(formData).(amountPaid := amount)
    {
      formData := formData.(amountPaid := amount);
    }
  }

  /** The form keeps its end date derived through any sequence of successful handler calls. */
  method FormScenario(date: string, plan: string)
    requires Parse(date).Some?
  {
    var form := new MemberForm();
    var ok := form.ChangeStartDate(date);
    CalculatedEndIsLater(date, "monthly");
    assert ok;
    form.ChangeName("Ahmed");
    assert form.formData.startDate == date;
    CalculatedEndIsLater(date, plan);
    ok := form.ChangeSubscriptionType(plan);
    assert ok && EndDateDerived(form.formData) && form.formData.name == "Ahmed";
  }

  // Worked cases of the overflow rule (not clamping) and of the year carry.

  /** A worked case, reduced to calendar arithmetic: `s` is the text of `start` and `e` the text of `end`. */
  lemma WorkedCase(s: string, start: Date, plan: string, e: string, end: Date)
    requires ValidDate(start) && 0 <= start.year <= 9999
    requires Format(start) == s && EndDate(start, plan) == end && Format(end) == e
    ensures CalculateEndDate(s, plan) == Ok(e)
  {
    FormatThenParse(start);
  }

  /** The four digits of a year 2000..2099. */
  lemma YearDigits(y: int)
    requires 2000 <= y <= 2099
    ensures PadDigits(y, 4) == ['2', '0', DigitChar((y - 2000) / 10), DigitChar(y % 10)]
  {
    assert PadDigits(y / 1000, 1) == ['2'];
    assert PadDigits(y / 100, 2) == ['2', '0'];
  }

  lemma MonthlyOverflowsIntoMarch()
    ensures CalculateEndDate("2024-01-31", "monthly") == Ok("2024-03-02")
  {
    YearDigits(2024);
    assert EndDate(Date(2024, 1, 31), "monthly") == Date(2024, 3, 2);
    WorkedCase("2024-01-31", Date(2024, 1, 31), "monthly", "2024-03-02", Date(2024, 3, 2));
  }

  lemma QuarterlyCarriesYear()
    ensures CalculateEndDate("2024-11-15", "quarterly") == Ok("2025-02-15")
  {
    YearDigits(2024);
    YearDigits(2025);
    assert EndDate(Date(2024, 11, 15), "quarterly") == Date(2025, 2, 15);
    WorkedCase("2024-11-15", Date(2024, 11, 15), "quarterly", "2025-02-15", Date(2025, 2, 15));
  }

  lemma YearlyFromLeapDay()
    ensures CalculateEndDate("2024-02-29", "yearly") == Ok("2025-03-01")
  {
    assert Format(Date(2024, 2, 29)) == "2024-02-29" by { YearDigits(2024); }
    assert Format(Date(2025, 3, 1)) == "2025-03-01" by { YearDigits(2025); }
    LeapDayPlusYear();
    WorkedCase("2024-02-29", Date(2024, 2, 29), "yearly", "2025-03-01", Date(2025, 3, 1));
  }

  /** February 29 plus one year has no February 29 to land on, and spills into March. */
  lemma LeapDayPlusYear()
    ensures EndDate(Date(2024, 2, 29), "yearly") == Date(2025, 3, 1)
  {
    assert AddYears(Date(2024, 2, 29), 1) == Overflow(2025, 2, 29);
    assert DaysInMonth(2025, 2) == 28;
    assert Overflow(2025, 2, 29) == Overflow(2025, 3, 1);
  }

  /** The end dates of the two sample members of the member page. */
  lemma SampleMonthlyMember()
    ensures CalculateEndDate("2024-01-01", "monthly") == Ok("2024-02-01")
  {
    assert Format(Date(2024, 1, 1)) == "2024-01-01" by { YearDigits(2024); }
    assert Format(Date(2024, 2, 1)) == "2024-02-01" by { YearDigits(2024); }
    assert EndDate(Date(2024, 1, 1), "monthly") == Date(2024, 2, 1);
    WorkedCase("2024-01-01", Date(2024, 1, 1), "monthly", "2024-02-01", Date(2024, 2, 1));
  }

  lemma SampleQuarterlyMember()
    ensures CalculateEndDate("2024-01-15", "quarterly") == Ok("2024-04-15")
  {
    assert Format(Date(2024, 1, 15)) == "2024-01-15" by { YearDigits(2024); }
    assert Format(Date(2024, 4, 15)) == "2024-04-15" by { YearDigits(2024); }
    assert EndDate(Date(2024, 1, 15), "quarterly") == Date(2024, 4, 15);
    WorkedCase("2024-01-15", Date(2024, 1, 15), "quarterly", "2024-04-15", Date(2024, 4, 15));
  }
}
