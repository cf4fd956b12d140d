/**
 * The loan decision engine: a compliance gate, a loan-to-income ratio, a
 * five-rule first-match decision matrix and the selection of message
 * templates. Everything here is a pure function of the loaded rules and
 * messages (which never change after start-up) and of the application.
 *
 * An application is a dictionary: a field may be missing from it, present
 * with a null value, or present with a value. Where the source would raise a
 * Python exception, the model returns `Failure` with that exception.
 */
module DecisionEngine {
  import opened Wrappers
  import opened Strings

  /** One field of the application dictionary. */
  datatype Slot<T> = Absent | Null | Present(value: T)
  {
    /** `app.get(key, default)` for a field that is not null. */
    function GetOr(default: T): T
    {
      if Present? then value else default
    }

    /** `field not in app or app[field] is None`. */
    predicate Missing()
    {
      Absent? || Null?
    }
  }

  /** The keys an application carries. */
  datatype FieldName =
    | NameField
    | EmailField
    | LoanAmountField
    | CreditScoreField
    | AnnualIncomeField
    | HasBankruptcyField
    | TimestampField
  {
    function Key(): string
    {
      match this
      case NameField => "name"
      case EmailField => "email"
      case LoanAmountField => "loan_amount"
      case CreditScoreField => "credit_score"
      case AnnualIncomeField => "annual_income"
      case HasBankruptcyField => "has_bankruptcy"
      case TimestampField => "timestamp"
    }
  }

  datatype Application = Application(
    name: Slot<string>,
    email: Slot<string>,
    loanAmount: Slot<real>,
    creditScore: Slot<int>,
    annualIncome: Slot<real>,
    hasBankruptcy: Slot<bool>,
    timestamp: Slot<int>)
  {
    /** The required-field test of the compliance gate for one field name. */
    predicate Missing(f: FieldName)
    {
      match f
      case NameField => name.Missing()
      case EmailField => email.Missing()
      case LoanAmountField => loanAmount.Missing()
      case CreditScoreField => creditScore.Missing()
      case AnnualIncomeField => annualIncome.Missing()
      case HasBankruptcyField => hasBankruptcy.Missing()
      case TimestampField => timestamp.Missing()
    }

    /** Python truthiness of `has_bankruptcy`: a null value is false. */
    predicate Bankrupt()
    {
      hasBankruptcy.Present? && hasBankruptcy.value
    }
  }

  /** The loaded rules file. */
  datatype Rules = Rules(
    requiredFields: seq<FieldName>,
    minimumCreditScore: int,
    maximumLoanAmount: real,
    preApprovedMin: int,
    conditionalMin: int,
    maxRatio: real)

  datatype Template = Template(title: string, message: string, nextSteps: string)
  datatype ContactTemplate = ContactTemplate(title: string, message: string)

  /** The loaded messages file: decision templates, error texts, contact texts. */
  datatype Messages = Messages(
    decisions: map<string, Template>,
    errors: map<string, string>,
    contactPreference: map<string, ContactTemplate>)

  /** The engine's state, fixed at construction. */
  datatype Engine = Engine(rules: Rules, messages: Messages)

  datatype Decision = PreApproved | Conditional | Denied | DeniedCompliance
  {
    function Key(): string
    {
      match this
      case PreApproved => "pre_approved"
      case Conditional => "conditional"
      case Denied => "denied"
      case DeniedCompliance => "denied_compliance"
    }
  }

  /** The Python exceptions the engine can raise. */
  datatype Raised = KeyError(key: string) | TypeError

  /** The loan-to-income ratio; `Infinite` is `float('inf')`. */
  datatype Ratio = Finite(value: real) | Infinite

  /** `ratio <= bound` on Python floats, where infinity exceeds every bound. */
  predicate AtMost(ratio: Ratio, bound: real)
  {
    ratio.Finite? && ratio.value <= bound
  }

  /** The hard-coded ratio limit of the moderate-credit bracket. */
  const ModerateRatioLimit: real := 0.5

  datatype Reason = MissingField(field: FieldName) | CreditBelowMinimum | LoanAboveMaximum
  datatype Compliance = Compliant | NonCompliant(reason: Reason)

  /**
   * The message text with every `${loan_amount}` replaced by the loan amount
   * written as currency; the currency rendering itself is not modelled.
   */
  datatype Body = Filled(template: string, loanAmount: real)

  /** The dictionary `_format_message` builds, plus the ratio attached later. */
  datatype MessageData = MessageData(
    decision: string,
    title: string,
    message: Body,
    nextSteps: string,
    loanToIncome: Option<Ratio>)

  datatype Evaluation = Evaluation(decision: Decision, message: MessageData)

  datatype ContactMessage = ContactMessage(title: string, message: string)

  /** The index of the first required field that is missing, in list order. */
  function FirstMissing(required: seq<FieldName>, app: Application): (r: Option<nat>)
    ensures r.Some? ==> r.value < |required| && app.Missing(required[r.value])
    ensures r.Some? ==> forall j :: 0 <= j < r.value ==> !app.Missing(required[j])
    ensures r.None? <==> forall j :: 0 <= j < |required| ==> !app.Missing(required[j])
  {
    if |required| == 0 then None
    else if app.Missing(required[0]) then Some(0)
    else match FirstMissing(required[1..], app)
      case None => None
      case Some(k) => Some(k + 1)
  }

  /** `_check_compliance`. */
  function CheckCompliance(rules: Rules, app: Application): (r: Result<Compliance, Raised>)
    ensures r == Success(Compliant) <==>
      && (forall f :: f in rules.requiredFields ==> !app.Missing(f))
      && !app.creditScore.Null? && app.creditScore.GetOr(0) >= rules.minimumCreditScore
      && !app.loanAmount.Null? && app.loanAmount.GetOr(0.0) <= rules.maximumLoanAmount
    ensures r == Failure(TypeError) <==>
      && (forall f :: f in rules.requiredFields ==> !app.Missing(f))
      && (app.creditScore.Null? ||
          (app.creditScore.GetOr(0) >= rules.minimumCreditScore && app.loanAmount.Null?))
    ensures r.Success? && r.value.NonCompliant? && r.value.reason.MissingField? ==>
      r.value.reason.field in rules.requiredFields && app.Missing(r.value.reason.field)
  {
    match FirstMissing(rules.requiredFields, app)
    case Some(k) => Success(NonCompliant(MissingField(rules.requiredFields[k])))
    case None =>
      if app.creditScore.Null? then Failure(TypeError)
      else if app.creditScore.GetOr(0) < rules.minimumCreditScore then
        Success(NonCompliant(CreditBelowMinimum))
      else if app.loanAmount.Null? then Failure(TypeError)
      else if app.loanAmount.GetOr(0.0) > rules.maximumLoanAmount then
        Success(NonCompliant(LoanAboveMaximum))
      else Success(Compliant)
  }

  /** `loan_amount / annual_income if annual_income > 0 else float('inf')`. */
  function RatioOf(loanAmount: real, annualIncome: real): (r: Ratio)
    ensures r.Finite? <==> annualIncome > 0.0
    ensures r.Finite? ==> r.value * annualIncome == loanAmount
  {
    if annualIncome > 0.0 then Finite(loanAmount / annualIncome) else Infinite
  }

  /** `_make_decision`: the five rules, first match wins. */
  function MakeDecision(rules: Rules, creditScore: int, ratio: Ratio, hasBankruptcy: bool): (d: Decision)
    ensures d != DeniedCompliance
    ensures d == PreApproved <==>
      creditScore >= rules.preApprovedMin && !hasBankruptcy && AtMost(ratio, rules.maxRatio)
    ensures d == Conditional <==>
      || (creditScore >= rules.preApprovedMin && (hasBankruptcy || !AtMost(ratio, rules.maxRatio)))
      || (rules.conditionalMin <= creditScore < rules.preApprovedMin && AtMost(ratio, ModerateRatioLimit))
    ensures d == Denied <==>
      creditScore < rules.preApprovedMin &&
      !(rules.conditionalMin <= creditScore && AtMost(ratio, ModerateRatioLimit))
  {
    if creditScore >= rules.preApprovedMin && !hasBankruptcy && AtMost(ratio, rules.maxRatio) then
      PreApproved
    else if creditScore >= rules.preApprovedMin && hasBankruptcy then
      Conditional
    else if creditScore >= rules.preApprovedMin && !AtMost(ratio, rules.maxRatio) then
      Conditional
    else if rules.conditionalMin <= creditScore < rules.preApprovedMin &&
            AtMost(ratio, ModerateRatioLimit) then
      Conditional
    else
      Denied
  }

  /**
   * `_format_message`. The fallback template `decisions['denied']` is looked
   * up eagerly, so a messages file without it fails for every key; a null
   * loan amount cannot be written as currency and raises.
   */
  function FormatMessage(messages: Messages, key: string, app: Application): (r: Result<MessageData, Raised>)
    ensures r.Success? <==> "denied" in messages.decisions && !app.loanAmount.Null?
    ensures r.Success? ==>
      var t := if key in messages.decisions then messages.decisions[key] else messages.decisions["denied"];
      r.value == MessageData(key, t.title, Filled(t.message, app.loanAmount.GetOr(0.0)), t.nextSteps, None)
    ensures "denied" !in messages.decisions ==> r == Failure(KeyError("denied"))
    ensures "denied" in messages.decisions && app.loanAmount.Null? ==> r == Failure(TypeError)
  {
    if "denied" !in messages.decisions then Failure(KeyError("denied"))
    else
      var t := if key in messages.decisions then messages.decisions[key] else messages.decisions["denied"];
      if app.loanAmount.Null? then Failure(TypeError)
      else Success(MessageData(key, t.title, Filled(t.message, app.loanAmount.GetOr(0.0)), t.nextSteps, None))
  }

  /** `evaluate_application`. */
  function EvaluateApplication(engine: Engine, app: Application): (r: Result<Evaluation, Raised>)
    ensures r.Success? ==> r.value.message.decision == r.value.decision.Key()
    ensures r.Success? ==> (r.value.decision == DeniedCompliance <==> r.value.message.loanToIncome.None?)
    ensures r.Success? && r.value.decision == DeniedCompliance ==>
      CheckCompliance(engine.rules, app).Success? && CheckCompliance(engine.rules, app).value.NonCompliant?
    ensures r.Success? && r.value.decision != DeniedCompliance ==>
      CheckCompliance(engine.rules, app) == Success(Compliant)
    ensures r.Success? ==>
      && FormatMessage(engine.messages, r.value.decision.Key(), app).Success?
      && r.value.message.(loanToIncome := None) == FormatMessage(engine.messages, r.value.decision.Key(), app).value
  {
    var gate := CheckCompliance(engine.rules, app);
    if gate.Failure? then Failure(gate.error)
    else if gate.value.NonCompliant? then
      match FormatMessage(engine.messages, DeniedCompliance.Key(), app)
      case Failure(x) => Failure(x)
      case Success(m) => Success(Evaluation(DeniedCompliance, m))
    else
      if app.creditScore.Absent? then Failure(KeyError("credit_score"))
      else if app.loanAmount.Absent? then Failure(KeyError("loan_amount"))
      else if app.annualIncome.Absent? then Failure(KeyError("annual_income"))
      else if app.hasBankruptcy.Absent? then Failure(KeyError("has_bankruptcy"))
      else if app.creditScore.Null? || app.loanAmount.Null? || app.annualIncome.Null? then Failure(TypeError)
      else
        var ratio := RatioOf(app.loanAmount.value, app.annualIncome.value);
        var decision := MakeDecision(engine.rules, app.creditScore.value, ratio, app.Bankrupt());
        match FormatMessage(engine.messages, decision.Key(), app)
        case Failure(x) => Failure(x)
        case Success(m) => Success(Evaluation(decision, m.(loanToIncome := Some(ratio))))
  }

  /** `get_error_message`: unknown keys fall back to `system_error`, which is looked up eagerly. */
  function GetErrorMessage(messages: Messages, key: string): (r: Result<string, Raised>)
    ensures "system_error" !in messages.errors ==> r == Failure(KeyError("system_error"))
    ensures "system_error" in messages.errors && key in messages.errors ==> r == Success(messages.errors[key])
    ensures "system_error" in messages.errors && key !in messages.errors ==>
      r == Success(messages.errors["system_error"])
  {
    if "system_error" !in messages.errors then Failure(KeyError("system_error"))
    else Success(if key in messages.errors then messages.errors[key] else messages.errors["system_error"])
  }

  /** The key `get_contact_message` selects: case-insensitive comparison with "yes". */
  function ContactKey(preference: string): string
  {
    if Lower(preference) == "yes" then "yes" else "no"
  }

  /** `get_contact_message`: the selected template with `{email}` replaced. */
  function GetContactMessage(messages: Messages, preference: string, email: string): (r: Result<ContactMessage, Raised>)
    ensures ContactKey(preference) !in messages.contactPreference ==> r == Failure(KeyError(ContactKey(preference)))
    ensures r.Success? <==> ContactKey(preference) in messages.contactPreference
    ensures r.Success? ==>
      && r.value.title == messages.contactPreference[ContactKey(preference)].title
      && r.value.message == ReplaceAll(messages.contactPreference[ContactKey(preference)].message, "{email}", email)
    ensures r.Success? && !Contains(messages.contactPreference[ContactKey(preference)].message, "{email}") ==>
      r.value.message == messages.contactPreference[ContactKey(preference)].message
  {
    var key := ContactKey(preference);
    if key !in messages.contactPreference then Failure(KeyError(key))
    else
      var t := messages.contactPreference[key];
      Success(ContactMessage(t.title, ReplaceAll(t.message, "{email}", email)))
  }

  // ---------------------------------------------------------------------
  // Properties of the engine
  // ---------------------------------------------------------------------

  /**
   * An application whose four fields read after the gate can be used: the
   * three numbers are present, and `has_bankruptcy` is present or null (a
   * null flag counts as false).
   */
  predicate Complete(app: Application)
  {
    app.creditScore.Present? && app.loanAmount.Present? &&
    app.annualIncome.Present? && !app.hasBankruptcy.Absent?
  }

  /**
   * A failed compliance gate ends evaluation with `denied_compliance` and no
   * ratio, whatever the other fields hold, as long as the fallback template
   * exists and the loan amount is not null.
   */
  lemma ComplianceFailureShortCircuits(engine: Engine, app: Application)
    requires CheckCompliance(engine.rules, app).Success?
    requires CheckCompliance(engine.rules, app).value.NonCompliant?
    requires "denied" in engine.messages.decisions && !app.loanAmount.Null?
    ensures EvaluateApplication(engine, app).Success?
    ensures EvaluateApplication(engine, app).value.decision == DeniedCompliance
    ensures EvaluateApplication(engine, app).value.message.loanToIncome == None
  {
  }

  /** A missing or null required field makes the gate fail, whatever else holds. */
  lemma MissingRequiredFieldFailsGate(rules: Rules, app: Application, f: FieldName)
    requires f in rules.requiredFields && app.Missing(f)
    ensures CheckCompliance(rules, app).Success?
    ensures CheckCompliance(rules, app).value.NonCompliant?
    ensures CheckCompliance(rules, app).value.reason.MissingField?
  {
  }

  /** A credit score below the minimum makes the gate fail, whatever reason it reports. */
  lemma LowCreditFailsGate(rules: Rules, app: Application)
    requires !app.creditScore.Null? && app.creditScore.GetOr(0) < rules.minimumCreditScore
    ensures CheckCompliance(rules, app).Success?
    ensures CheckCompliance(rules, app).value.NonCompliant?
  {
  }

  /** A loan above the maximum makes the gate fail, given a non-null credit score. */
  lemma HighLoanFailsGate(rules: Rules, app: Application)
    requires !app.creditScore.Null?
    requires !app.loanAmount.Null? && app.loanAmount.GetOr(0.0) > rules.maximumLoanAmount
    ensures CheckCompliance(rules, app).Success?
    ensures CheckCompliance(rules, app).value.NonCompliant?
  {
  }

  /**
   * A required loan amount that is null fails the gate, yet evaluation then
   * raises instead of answering `denied_compliance`: the message cannot
   * format the amount.
   */
  lemma NullRequiredLoanRaises(engine: Engine, app: Application)
    requires LoanAmountField in engine.rules.requiredFields && app.loanAmount.Null?
    ensures EvaluateApplication(engine, app).Failure?
    ensures "denied" in engine.messages.decisions ==> EvaluateApplication(engine, app) == Failure(TypeError)
  {
  }

  /** Once the gate passes on a complete application, the verdict is the matrix's. */
  lemma EvaluationFollowsMatrix(engine: Engine, app: Application)
    requires Complete(app) && CheckCompliance(engine.rules, app) == Success(Compliant)
    requires "denied" in engine.messages.decisions
    ensures EvaluateApplication(engine, app).Success?
    ensures EvaluateApplication(engine, app).value.decision ==
      MakeDecision(engine.rules, app.creditScore.value,
                   RatioOf(app.loanAmount.value, app.annualIncome.value), app.Bankrupt())
    ensures EvaluateApplication(engine, app).value.message.loanToIncome ==
      Some(RatioOf(app.loanAmount.value, app.annualIncome.value))
  {
  }

  /** Credit at or above the pre-approval bracket is never denied: it is pre-approved or conditional. */
  lemma HighCreditNeverDenied(rules: Rules, creditScore: int, ratio: Ratio, hasBankruptcy: bool)
    requires creditScore >= rules.preApprovedMin
    ensures MakeDecision(rules, creditScore, ratio, hasBankruptcy) != Denied
    ensures MakeDecision(rules, creditScore, ratio, hasBankruptcy) != PreApproved ==>
      MakeDecision(rules, creditScore, ratio, hasBankruptcy) == Conditional
  {
  }

  /**
   * In the moderate bracket the verdict depends on the fixed 0.5 limit only:
   * changing `max_ratio` or the bankruptcy flag never changes it.
   */
  lemma ModerateBracketIgnoresMaxRatio(rules: Rules, maxRatio: real, creditScore: int, ratio: Ratio, b1: bool, b2: bool)
    requires rules.conditionalMin <= creditScore < rules.preApprovedMin
    ensures MakeDecision(rules, creditScore, ratio, b1) ==
            MakeDecision(rules.(maxRatio := maxRatio), creditScore, ratio, b2)
    ensures MakeDecision(rules, creditScore, ratio, b1) == Conditional <==> AtMost(ratio, ModerateRatioLimit)
  {
  }

  /** No income means an infinite ratio: never pre-approved, conditional exactly for high credit. */
  lemma NoIncomeNeverPreApproved(engine: Engine, app: Application)
    requires Complete(app) && CheckCompliance(engine.rules, app) == Success(Compliant)
    requires "denied" in engine.messages.decisions
    requires app.annualIncome.value <= 0.0
    ensures EvaluateApplication(engine, app).Success?
    ensures EvaluateApplication(engine, app).value.decision ==
      if app.creditScore.value >= engine.rules.preApprovedMin then Conditional else Denied
  {
  }

  /** The worked examples: 10000 of 50000 is pre-approved, 40000 of 50000 conditional, 600 denied. */
  lemma WorkedExamples(rules: Rules)
    requires rules.maxRatio == 0.4 && 600 < rules.preApprovedMin <= 780 && rules.conditionalMin == 620
    ensures MakeDecision(rules, 780, RatioOf(10000.0, 50000.0), false) == PreApproved
    ensures MakeDecision(rules, 780, RatioOf(40000.0, 50000.0), false) == Conditional
    ensures MakeDecision(rules, 600, RatioOf(10000.0, 50000.0), false) == Denied
  {
  }

  /**
   * An unknown decision key is rendered with the `denied` template, while the
   * output keeps the key it was given.
   */
  lemma UnknownKeyUsesDeniedTemplate(messages: Messages, key: string, app: Application)
    requires key !in messages.decisions && "denied" in messages.decisions && !app.loanAmount.Null?
    ensures FormatMessage(messages, key, app).Success?
    ensures FormatMessage(messages, key, app).value.decision == key
    ensures FormatMessage(messages, key, app).value.title == messages.decisions["denied"].title
    ensures FormatMessage(messages, key, app).value.nextSteps == messages.decisions["denied"].nextSteps
  {
  }

  /** The contact key is "yes" exactly for the eight spellings of "yes" in any letter case. */
  lemma ContactKeyIsCaseInsensitive(preference: string)
    ensures ContactKey(preference) == "yes" <==>
      |preference| == 3 && preference[0] in "yY" && preference[1] in "eE" && preference[2] in "sS"
  {
  }

  /**
   * A contact template with one `{email}` placeholder yields the text around
   * it with the applicant's email in its place.
   */
  lemma ContactMessageFillsEmail(messages: Messages, preference: string, email: string, before: string, after: string)
    requires ContactKey(preference) in messages.contactPreference
    requires messages.contactPreference[ContactKey(preference)].message == before + "{email}" + after
    requires forall j: nat :: j < |before| ==> !OccursAt(before + "{email}" + after, "{email}", j)
    requires !Contains(after, "{email}")
    ensures GetContactMessage(messages, preference, email) ==
      Success(ContactMessage(messages.contactPreference[ContactKey(preference)].title, before + email + after))
  {
    var text := before + "{email}" + after;
    assert text[|before|..|before| + 7] == "{email}";
    assert text[..|before|] == before;
    assert text[|before| + 7..] == after;
    ReplaceAllAtLeftmost(text, "{email}", email, |before|);
  }
}
