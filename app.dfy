/**
 * The form handlers that tie the engine to the ledger: the validation
 * cascade of `/submit`, the check-evaluate-save sequence that follows it, and
 * the contact-preference update of `/contact`.
 *
 * Form fields arrive already sanitized; the numeric ones arrive already
 * parsed, `None` standing for a value that `float()` or `int()` rejects. The
 * email-format test is a parameter.
 */
module App {
  import opened Wrappers
  import opened DecisionEngine
  import opened Submissions

  /** The fields of the submitted form. */
  datatype Form = Form(
    name: string,
    email: string,
    loanAmount: Option<real>,
    creditScore: Option<int>,
    annualIncome: Option<real>,
    hasBankruptcy: string)

  /** Why a submission stays on the form page. */
  datatype FormError =
    | MissingFields
    | InvalidEmail
    | AlreadySubmitted(daysRemaining: int)
    | SystemError
    | InvalidCreditScore
    | InvalidLoanAmount
    | InvalidIncome

  /** The successive checks of `/submit`, in the order they run. */
  datatype Stage = Presence | EmailFormat | Cooldown | Parsing | CreditRange | LoanPositive | IncomePositive
  {
    function Rank(): nat
    {
      match this
      case Presence => 0
      case EmailFormat => 1
      case Cooldown => 2
      case Parsing => 3
      case CreditRange => 4
      case LoanPositive => 5
      case IncomePositive => 6
    }
  }

  function StageOf(e: FormError): Stage
  {
    match e
    case MissingFields => Presence
    case InvalidEmail => EmailFormat
    case AlreadySubmitted(_) => Cooldown
    case SystemError => Parsing
    case InvalidCreditScore => CreditRange
    case InvalidLoanAmount => LoanPositive
    case InvalidIncome => IncomePositive
  }

  /** Each check on its own, as a reference for the cascade. */
  predicate Fails(s: Stage, form: Form, validEmail: string -> bool, blocked: bool)
  {
    match s
    case Presence => form.name == "" || form.email == ""
    case EmailFormat => !validEmail(form.email)
    case Cooldown => blocked
    case Parsing => form.loanAmount.None? || form.creditScore.None? || form.annualIncome.None?
    case CreditRange => form.creditScore.Some? && !(300 <= form.creditScore.value <= 850)
    case LoanPositive => form.loanAmount.Some? && form.loanAmount.value <= 0.0
    case IncomePositive => form.annualIncome.Some? && form.annualIncome.value <= 0.0
  }

  /** A form that passed every check, with its values converted. */
  datatype Accepted = Accepted(
    name: string,
    email: string,
    loanAmount: real,
    creditScore: int,
    annualIncome: real,
    hasBankruptcy: bool)

  /**
   * The validation order of `/submit`: the first failing check decides the
   * error; a form that passes them all is accepted.
   */
  function ValidateSubmission(form: Form, validEmail: string -> bool, subs: seq<Record>, now: int): (r: Result<Accepted, FormError>)
    ensures var blocked := CheckExistingSubmission(subs, form.email, now).blocked;
      r.Failure? ==> Fails(StageOf(r.error), form, validEmail, blocked)
    ensures var blocked := CheckExistingSubmission(subs, form.email, now).blocked;
      r.Failure? ==> forall s: Stage :: s.Rank() < StageOf(r.error).Rank() ==> !Fails(s, form, validEmail, blocked)
    ensures var blocked := CheckExistingSubmission(subs, form.email, now).blocked;
      r.Success? ==> forall s: Stage :: !Fails(s, form, validEmail, blocked)
    ensures r.Failure? && r.error.AlreadySubmitted? ==>
      r.error.daysRemaining == CheckExistingSubmission(subs, form.email, now).daysRemaining
    ensures r.Success? ==>
      && form.loanAmount.Some? && form.creditScore.Some? && form.annualIncome.Some?
      && r.value == Accepted(form.name, form.email, form.loanAmount.value, form.creditScore.value,
                          form.annualIncome.value, form.hasBankruptcy == "yes")
  {
    if form.name == "" || form.email == "" then
      Failure(MissingFields)
    else if !validEmail(form.email) then
      Failure(InvalidEmail)
    else
      var verdict := CheckExistingSubmission(subs, form.email, now);
      if verdict.blocked then Failure(AlreadySubmitted(verdict.daysRemaining))
      else if form.loanAmount.None? || form.creditScore.None? || form.annualIncome.None? then Failure(SystemError)
      else if !(300 <= form.creditScore.value <= 850) then Failure(InvalidCreditScore)
      else if form.loanAmount.value <= 0.0 then Failure(InvalidLoanAmount)
      else if form.annualIncome.value <= 0.0 then Failure(InvalidIncome)
      else Success(Accepted(form.name, form.email, form.loanAmount.value, form.creditScore.value,
                            form.annualIncome.value, form.hasBankruptcy == "yes"))
  }

  /** The application dictionary `/submit` hands to the engine. */
  function ApplicationOf(a: Accepted, now: int): Application
  {
    Application(Present(a.name), Present(a.email), Present(a.loanAmount), Present(a.creditScore),
                Present(a.annualIncome), Present(a.hasBankruptcy), Present(now))
  }

  /** The record `/submit` saves: the application, its decision, no contact preference yet. */
  function RecordOf(a: Accepted, now: int, decision: Decision): Record
  {
    Record(a.name, a.email, a.loanAmount, a.creditScore, a.annualIncome, a.hasBankruptcy,
           now, decision.Key(), None, None)
  }

  /**
   * The key of the error text `/submit` looks up for a rejection; the cooldown
   * message is composed from the days remaining instead.
   */
  function ErrorKey(e: FormError): Option<string>
  {
    match e
    case MissingFields => Some("missing_fields")
    case InvalidEmail => Some("invalid_email")
    case AlreadySubmitted(_) => None
    case SystemError => Some("system_error")
    case InvalidCreditScore => Some("invalid_credit_score")
    case InvalidLoanAmount => Some("invalid_loan_amount")
    case InvalidIncome => Some("invalid_income")
  }

  /** What `/submit` answers; a rejection carries the looked-up text, if any. */
  datatype Outcome =
    | Rejected(error: FormError, text: Option<string>)
    | Decided(evaluation: Evaluation)
    | Crashed(exception: Raised)

  /**
   * `/submit` after sanitizing: validate, evaluate, save. Only a decided
   * application changes the ledger, and the cooldown check before the save
   * keeps at most one record per email.
   */
  method SubmitApplication(engine: Engine, ledger: Ledger, form: Form, validEmail: string -> bool, now: int)
    returns (outcome: Outcome)
    modifies ledger
    ensures match ValidateSubmission(form, validEmail, old(ledger.submissions), now)
      case Failure(e) =>
        && ledger.submissions == old(ledger.submissions)
        && (match ErrorKey(e)
            case None => outcome == Rejected(e, None)
            case Some(key) =>
              match GetErrorMessage(engine.messages, key)
              case Failure(x) => outcome == Crashed(x)
              case Success(text) => outcome == Rejected(e, Some(text)))
      case Success(a) =>
        match EvaluateApplication(engine, ApplicationOf(a, now))
        case Failure(x) => outcome == Crashed(x) && ledger.submissions == old(ledger.submissions)
        case Success(ev) =>
          && outcome == Decided(ev)
          && ledger.submissions == Saved(old(ledger.submissions), RecordOf(a, now, ev.decision), now)
    ensures UniqueEmails(old(ledger.submissions)) ==> UniqueEmails(ledger.submissions)
  {
    var validated := ValidateSubmission(form, validEmail, ledger.submissions, now);
    if validated.Failure? {
      var key := ErrorKey(validated.error);
      if key.None? {
        return Rejected(validated.error, None);
      }
      var text := GetErrorMessage(engine.messages, key.value);
      if text.Failure? {
        return Crashed(text.error);
      }
      return Rejected(validated.error, Some(text.value));
    }
    var a := validated.value;
    var result := EvaluateApplication(engine, ApplicationOf(a, now));
    if result.Failure? {
      return Crashed(result.error);
    }
    var ev := result.value;
    var record := RecordOf(a, now, ev.decision);
    assert !CheckExistingSubmission(ledger.submissions, form.email, now).blocked by {
      assert !Fails(Cooldown, form, validEmail, CheckExistingSubmission(ledger.submissions, form.email, now).blocked);
    }
    if UniqueEmails(ledger.submissions) {
      GatedSaveKeepsEmailsUnique(ledger.submissions, record, now, now);
    }
    ledger.SaveSubmission(record, now);
    outcome := Decided(ev);
  }

  /** `/contact`: record the preference on the newest record, then pick the confirmation text. */
  method ContactPreference(engine: Engine, ledger: Ledger, email: string, preference: string, now: int)
    returns (message: Result<ContactMessage, Raised>)
    modifies ledger
    ensures ledger.submissions == ContactUpdated(old(ledger.submissions), email, preference, now)
    ensures message == GetContactMessage(engine.messages, preference, email)
    ensures UniqueEmails(old(ledger.submissions)) ==> UniqueEmails(ledger.submissions)
  {
    ledger.UpdateContact(email, preference, now);
    if UniqueEmails(old(ledger.submissions)) {
      ContactUpdateKeepsEmailsUnique(old(ledger.submissions), email, preference, now);
    }
    message := GetContactMessage(engine.messages, preference, email);
  }

  // ---------------------------------------------------------------------
  // Properties of the handlers
  // ---------------------------------------------------------------------

  /**
   * Without a `system_error` text every rejection except the cooldown one
   * raises `KeyError('system_error')` and leaves the ledger alone.
   */
  lemma RejectionNeedsSystemErrorText(e: FormError, messages: Messages)
    requires "system_error" !in messages.errors
    ensures ErrorKey(e).Some? <==> !e.AlreadySubmitted?
    ensures ErrorKey(e).Some? ==> GetErrorMessage(messages, ErrorKey(e).value) == Failure(KeyError("system_error"))
  {
  }

  /** A form is accepted exactly when no check fails on it. */
  lemma AcceptedIffNoCheckFails(form: Form, validEmail: string -> bool, subs: seq<Record>, now: int)
    ensures var blocked := CheckExistingSubmission(subs, form.email, now).blocked;
      ValidateSubmission(form, validEmail, subs, now).Success? <==> forall s: Stage :: !Fails(s, form, validEmail, blocked)
  {
  }

  /**
   * A form that passes validation reaches the engine with every field it
   * reads after the gate, and with credit, loan and income in range.
   */
  lemma AcceptedFormsAreComplete(form: Form, validEmail: string -> bool, subs: seq<Record>, now: int)
    requires ValidateSubmission(form, validEmail, subs, now).Success?
    ensures Complete(ApplicationOf(ValidateSubmission(form, validEmail, subs, now).value, now))
    ensures 300 <= ValidateSubmission(form, validEmail, subs, now).value.creditScore <= 850
    ensures ValidateSubmission(form, validEmail, subs, now).value.loanAmount > 0.0
    ensures ValidateSubmission(form, validEmail, subs, now).value.annualIncome > 0.0
  {
  }

  /**
   * The recorded contact flag and the confirmation text can disagree: a
   * preference of "YES" confirms contact but stores `contact_requested` as false.
   */
  lemma ContactFlagAndMessageDisagree(subs: seq<Record>, email: string, now: int, k: nat)
    requires IsLastMatch(subs, email, k)
    ensures ContactKey("YES") == "yes"
    ensures ContactUpdated(subs, email, "YES", now)[k].contactRequested == Some(false)
  {
  }
}
