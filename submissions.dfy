/**
 * The submission ledger: an ordered list of saved applications, matched by
 * lower-cased email. Reading it answers whether an applicant is still in the
 * seven-day resubmission cooldown; saving overwrites the oldest record of that
 * applicant whose cooldown is over, or appends; a contact preference is
 * attached to the newest record of the applicant.
 *
 * Times are whole seconds; `now` is a parameter of every operation. A ledger
 * file that does not exist yet reads as the empty sequence.
 */
module Submissions {
  import opened Wrappers
  import opened Strings

  /** Days before an applicant may submit again. */
  const ResubmissionDays: int := 7

  const SecondsPerDay: int := 86400

  /** One saved application with its decision and contact preference. */
  datatype Record = Record(
    name: string,
    email: string,
    loanAmount: real,
    creditScore: int,
    annualIncome: real,
    hasBankruptcy: bool,
    timestamp: int,
    decision: string,
    contactRequested: Option<bool>,
    contactTimestamp: Option<int>)

  /**
   * Whole days elapsed from `timestamp` to `now`: `timedelta.days`, which
   * rounds toward negative infinity (Dafny's `/` does the same for a
   * positive divisor).
   */
  function DaysSince(now: int, timestamp: int): int
  {
    (now - timestamp) / SecondsPerDay
  }

  /** `record.get('email', '').lower() == email.lower()`. */
  predicate SameEmail(record: Record, email: string)
  {
    Lower(record.email) == Lower(email)
  }

  /** The record's cooldown is over at `now`. */
  predicate Aged(record: Record, now: int)
  {
    DaysSince(now, record.timestamp) >= ResubmissionDays
  }

  /** `k` is the newest record of `email`. */
  predicate IsLastMatch(subs: seq<Record>, email: string, k: nat)
  {
    && k < |subs|
    && SameEmail(subs[k], email)
    && forall j :: k < j < |subs| ==> !SameEmail(subs[j], email)
  }

  /** At most one record per lower-cased email. */
  predicate UniqueEmails(subs: seq<Record>)
  {
    forall i, j :: 0 <= i < j < |subs| ==> Lower(subs[i].email) != Lower(subs[j].email)
  }

  /** The scan from newest to oldest: the index of the newest record of `email`. */
  function LastMatch(subs: seq<Record>, email: string): (r: Option<nat>)
    ensures r.Some? ==> IsLastMatch(subs, email, r.value)
    ensures r.None? <==> forall j :: 0 <= j < |subs| ==> !SameEmail(subs[j], email)
  {
    if |subs| == 0 then None
    else if SameEmail(subs[|subs| - 1], email) then Some(|subs| - 1)
    else LastMatch(subs[..|subs| - 1], email)
  }

  /** The scan from oldest to newest: the first record of `email` whose cooldown is over. */
  function FirstAgedMatch(subs: seq<Record>, email: string, now: int): (r: Option<nat>)
    ensures r.Some? ==> r.value < |subs| && SameEmail(subs[r.value], email) && Aged(subs[r.value], now)
    ensures r.Some? ==> forall j :: 0 <= j < r.value ==> !(SameEmail(subs[j], email) && Aged(subs[j], now))
    ensures r.None? <==> forall j :: 0 <= j < |subs| ==> !(SameEmail(subs[j], email) && Aged(subs[j], now))
  {
    if |subs| == 0 then None
    else if SameEmail(subs[0], email) && Aged(subs[0], now) then Some(0)
    else match FirstAgedMatch(subs[1..], email, now)
      case None => None
      case Some(k) => Some(k + 1)
  }

  /** The answer of `check_existing_submission`: (exists, days_remaining, old_submission). */
  datatype Verdict = Verdict(blocked: bool, daysRemaining: int, prior: Option<Record>)

  /** `check_existing_submission`: the cooldown verdict for the newest record of `email`. */
  function CheckExistingSubmission(subs: seq<Record>, email: string, now: int): (v: Verdict)
    ensures v.prior.None? <==> forall j :: 0 <= j < |subs| ==> !SameEmail(subs[j], email)
    ensures v.prior.None? ==> v == Verdict(false, 0, None)
    ensures v.prior.Some? ==> exists k: nat :: IsLastMatch(subs, email, k) && v.prior.value == subs[k]
    ensures v.blocked <==> v.prior.Some? && !Aged(v.prior.value, now)
    ensures v.blocked ==> v.daysRemaining == ResubmissionDays - DaysSince(now, v.prior.value.timestamp)
    ensures v.blocked ==> v.daysRemaining >= 1
    ensures v.blocked && now >= v.prior.value.timestamp ==> v.daysRemaining <= ResubmissionDays
    ensures !v.blocked ==> v.daysRemaining == 0
  {
    match LastMatch(subs, email)
    case None => Verdict(false, 0, None)
    case Some(k) =>
      var days := DaysSince(now, subs[k].timestamp);
      if days < ResubmissionDays then Verdict(true, ResubmissionDays - days, Some(subs[k]))
      else Verdict(false, 0, Some(subs[k]))
  }

  /** The ledger after `save_submission(data)`. */
  function Saved(subs: seq<Record>, data: Record, now: int): seq<Record>
  {
    match FirstAgedMatch(subs, data.email, now)
    case Some(i) => subs[i := data]
    case None => subs + [data]
  }

  /** The ledger after the contact update: the newest record of `email` gets the preference. */
  function ContactUpdated(subs: seq<Record>, email: string, preference: string, now: int): seq<Record>
  {
    match LastMatch(subs, email)
    case None => subs
    case Some(k) =>
      subs[k := subs[k].(contactRequested := Some(preference == "yes"), contactTimestamp := Some(now))]
  }

  /** The ledger file, read in full before and written in full after each operation. */
  class Ledger {
    var submissions: seq<Record>

    constructor (initial: seq<Record>)
      ensures submissions == initial
    {
      submissions := initial;
    }

    /** `save_submission`: overwrite the first aged record of the same email in place, or append. */
    method SaveSubmission(data: Record, now: int)
      modifies this
      ensures submissions == Saved(old(submissions), data, now)
    {
      var i := 0;
      var updated := false;
      while i < |submissions|
        invariant 0 <= i <= |submissions|
        invariant submissions == old(submissions) && !updated
        invariant forall j :: 0 <= j < i ==> !(SameEmail(submissions[j], data.email) && Aged(submissions[j], now))
      {
        if SameEmail(submissions[i], data.email) && Aged(submissions[i], now) {
          submissions := submissions[i := data];
          updated := true;
          break;
        }
        i := i + 1;
      }
      if !updated {
        submissions := submissions + [data];
      }
    }

    /** The contact update of `/contact`: mark the newest record of `email`. */
    method UpdateContact(email: string, preference: string, now: int)
      modifies this
      ensures submissions == ContactUpdated(old(submissions), email, preference, now)
    {
      var i := |submissions|;
      while i > 0
        invariant 0 <= i <= |submissions|
        invariant submissions == old(submissions)
        invariant forall j :: i <= j < |submissions| ==> !SameEmail(submissions[j], email)
      {
        i := i - 1;
        if SameEmail(submissions[i], email) {
          assert IsLastMatch(submissions, email, i);
          LastMatchIsUnique(submissions, email, i);
          var r := submissions[i];
          submissions := submissions[i := r.(contactRequested := Some(preference == "yes"),
                                             contactTimestamp := Some(now))];
          break;
        }
      }
    }
  }

  // ---------------------------------------------------------------------
  // Properties of the ledger
  // ---------------------------------------------------------------------

  /** The newest match is unique, so `LastMatch` finds exactly it. */
  lemma LastMatchIsUnique(subs: seq<Record>, email: string, k: nat)
    requires IsLastMatch(subs, email, k)
    ensures LastMatch(subs, email) == Some(k)
  {
  }

  /** In a ledger with unique emails, two records of the same applicant are one record. */
  lemma UniqueMatch(subs: seq<Record>, email: string, i: nat, j: nat)
    requires UniqueEmails(subs)
    requires i < |subs| && SameEmail(subs[i], email)
    requires j < |subs| && SameEmail(subs[j], email)
    ensures i == j
  {
  }

  /** Elapsed days never decrease as time moves on. */
  lemma DaysSinceMonotone(now1: int, now2: int, timestamp: int)
    requires now1 <= now2
    ensures DaysSince(now1, timestamp) <= DaysSince(now2, timestamp)
  {
  }

  /** Two ledgers whose newest records of `email` are equal give the same verdict. */
  lemma SameNewestSameVerdict(s1: seq<Record>, s2: seq<Record>, email: string, now: int, k1: nat, k2: nat)
    requires LastMatch(s1, email) == Some(k1) && LastMatch(s2, email) == Some(k2)
    requires k1 < |s1| && k2 < |s2| && s1[k1] == s2[k2]
    ensures CheckExistingSubmission(s1, email, now) == CheckExistingSubmission(s2, email, now)
  {
  }

  /**
   * Only the newest record of the applicant is consulted: appending records
   * that contain a match makes older records irrelevant.
   */
  lemma {:induction false} NewerRecordsDecide(older: seq<Record>, newer: seq<Record>, email: string, now: int)
    requires exists j :: 0 <= j < |newer| && SameEmail(newer[j], email)
    ensures CheckExistingSubmission(older + newer, email, now) == CheckExistingSubmission(newer, email, now)
  {
    var k := LastMatch(newer, email).value;
    var all := older + newer;
    assert IsLastMatch(all, email, |older| + k) by {
      forall j | |older| + k < j < |all| ensures !SameEmail(all[j], email) {
        assert all[j] == newer[j - |older|];
      }
    }
    LastMatchIsUnique(all, email, |older| + k);
    SameNewestSameVerdict(all, newer, email, now, |older| + k, k);
  }

  /**
   * The cooldown counts down: later, the same record decides; a blocked
   * applicant's remaining days strictly fall as whole days pass, and once
   * the cooldown is over it stays over.
   */
  lemma CooldownCountsDown(subs: seq<Record>, email: string, now1: int, now2: int)
    requires now1 <= now2
    ensures CheckExistingSubmission(subs, email, now2).prior == CheckExistingSubmission(subs, email, now1).prior
    ensures !CheckExistingSubmission(subs, email, now1).blocked ==> !CheckExistingSubmission(subs, email, now2).blocked
    ensures
      var v1, v2 := CheckExistingSubmission(subs, email, now1), CheckExistingSubmission(subs, email, now2);
      v1.blocked && v2.blocked && DaysSince(now1, v1.prior.value.timestamp) < DaysSince(now2, v1.prior.value.timestamp) ==>
        v2.daysRemaining < v1.daysRemaining
  {
  }

  /** `save_submission` overwrites in place only the first aged record of the applicant. */
  lemma SaveOverwritesFirstAged(subs: seq<Record>, data: Record, now: int, i: nat)
    requires i < |subs| && SameEmail(subs[i], data.email) && Aged(subs[i], now)
    requires forall j :: 0 <= j < i ==> !(SameEmail(subs[j], data.email) && Aged(subs[j], now))
    ensures |Saved(subs, data, now)| == |subs|
    ensures Saved(subs, data, now)[i] == data
    ensures forall j :: 0 <= j < |subs| && j != i ==> Saved(subs, data, now)[j] == subs[j]
  {
  }

  /** Without an aged record of the applicant, `save_submission` appends and keeps the old ledger as a prefix. */
  lemma SaveAppendsOtherwise(subs: seq<Record>, data: Record, now: int)
    requires forall j :: 0 <= j < |subs| ==> !(SameEmail(subs[j], data.email) && Aged(subs[j], now))
    ensures Saved(subs, data, now) == subs + [data]
  {
  }

  /** Either way the ledger grows by at most one and holds the new record. */
  lemma SaveShape(subs: seq<Record>, data: Record, now: int)
    ensures |Saved(subs, data, now)| == |subs| || |Saved(subs, data, now)| == |subs| + 1
    ensures data in Saved(subs, data, now)
    ensures |Saved(subs, data, now)| == |subs| + 1 ==> Saved(subs, data, now)[..|subs|] == subs
  {
    match FirstAgedMatch(subs, data.email, now)
    case Some(i) => assert Saved(subs, data, now)[i] == data;
    case None => assert Saved(subs, data, now)[|subs|] == data;
  }

  /**
   * The ledger does not block by itself: saving while the applicant's newest
   * record is still in its cooldown (and no older one has aged) adds a second
   * record for the same email.
   */
  lemma UngatedSaveDuplicates(subs: seq<Record>, data: Record, now: int)
    requires UniqueEmails(subs)
    requires CheckExistingSubmission(subs, data.email, now).blocked
    ensures !UniqueEmails(Saved(subs, data, now))
  {
    var k := LastMatch(subs, data.email).value;
    forall j | 0 <= j < |subs| && SameEmail(subs[j], data.email) ensures j == k {
      UniqueMatch(subs, data.email, j, k);
    }
    var r := Saved(subs, data, now);
    assert r == subs + [data];
    assert r[k] == subs[k] && r[|subs|] == data;
  }

  /**
   * The gated-save invariant: when the ledger holds at most one record per
   * email and the check did not block, the save that follows (at the same or
   * a later time) keeps at most one record per email.
   */
  lemma GatedSaveKeepsEmailsUnique(subs: seq<Record>, data: Record, checkNow: int, saveNow: int)
    requires UniqueEmails(subs)
    requires !CheckExistingSubmission(subs, data.email, checkNow).blocked
    requires checkNow <= saveNow
    ensures UniqueEmails(Saved(subs, data, saveNow))
  {
  }

  /** The contact update touches only the newest record of the applicant, and only its contact fields. */
  lemma ContactUpdateTouchesOnlyNewest(subs: seq<Record>, email: string, preference: string, now: int)
    ensures |ContactUpdated(subs, email, preference, now)| == |subs|
    ensures (forall j :: 0 <= j < |subs| ==> !SameEmail(subs[j], email)) ==>
      ContactUpdated(subs, email, preference, now) == subs
    ensures forall k: nat :: IsLastMatch(subs, email, k) ==>
      var r := ContactUpdated(subs, email, preference, now);
      && r[k] == subs[k].(contactRequested := Some(preference == "yes"), contactTimestamp := Some(now))
      && forall j :: 0 <= j < |subs| && j != k ==> r[j] == subs[j]
  {
  }

  /** The contact update keeps every email, so it keeps at most one record per email. */
  lemma ContactUpdateKeepsEmailsUnique(subs: seq<Record>, email: string, preference: string, now: int)
    requires UniqueEmails(subs)
    ensures UniqueEmails(ContactUpdated(subs, email, preference, now))
  {
  }

  /** The stored flag compares case-sensitively: "Yes" is recorded as no contact request. */
  lemma ContactFlagIsCaseSensitive(subs: seq<Record>, email: string, now: int, k: nat)
    requires IsLastMatch(subs, email, k)
    ensures ContactUpdated(subs, email, "Yes", now)[k].contactRequested == Some(false)
    ensures ContactUpdated(subs, email, "yes", now)[k].contactRequested == Some(true)
  {
  }
}
