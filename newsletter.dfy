/**
 * Newsletter signup: the email shape check, the case-insensitive duplicate
 * test and the append-only list of signups kept under one storage key.
 */
module Newsletter {
  import opened Wrappers
  import opened Text

  // ---------------------------------------------------------------------
  // The email shape /^\S+@\S+\.\S+$/

  /** The language of the regular expression: no whitespace anywhere, an '@'
      after at least one character, and a '.' at least two characters after
      that '@' and at least one character before the end. */
  ghost predicate MatchesEmailPattern(s: string) {
    && NoSpace(s)
    && exists i, j | 0 <= i < j < |s| ::
         s[i] == '@' && s[j] == '.' && 1 <= i && i + 2 <= j && j <= |s| - 2
  }

  /** First position at or after `from` that holds `c`. */
  function IndexFrom(s: string, c: char, from: nat): (r: Option<nat>)
    decreases |s| - from
    ensures r.Some? ==> from <= r.value < |s| && s[r.value] == c
    ensures r.Some? ==> forall m | from <= m < r.value :: s[m] != c
    ensures r.None? ==> forall m | from <= m < |s| :: s[m] != c
  {
    if from >= |s| then None
    else if s[from] == c then Some(from)
    else IndexFrom(s, c, from + 1)
  }

  /** Last position before `end` that holds `c`. */
  function LastIndexBefore(s: string, c: char, end: nat): (r: Option<nat>)
    requires end <= |s|
    ensures r.Some? ==> r.value < end && s[r.value] == c
    ensures r.Some? ==> forall m | r.value < m < end :: s[m] != c
    ensures r.None? ==> forall m | 0 <= m < end :: s[m] != c
  {
    if end == 0 then None
    else if s[end - 1] == c then Some(end - 1)
    else LastIndexBefore(s, c, end - 1)
  }

  /** Decides the pattern: the earliest admissible '@' (not in first
      position) and the latest admissible '.' (not in last position) must be
      at least two positions apart. */
  function IsEmailShape(s: string): bool {
    if s == [] then false
    else
      var at := IndexFrom(s, '@', 1);
      var dot := LastIndexBefore(s, '.', |s| - 1);
      NoSpace(s) && at.Some? && dot.Some? && at.value + 2 <= dot.value
  }

  /** The decision procedure accepts exactly the language of the pattern. */
  lemma EmailShapeMatchesPattern(s: string)
    ensures IsEmailShape(s) <==> MatchesEmailPattern(s)
  {
    if MatchesEmailPattern(s) {
      var i, j :| 0 <= i < j < |s| && s[i] == '@' && s[j] == '.' && 1 <= i && i + 2 <= j && j <= |s| - 2;
      var at := IndexFrom(s, '@', 1);
      var dot := LastIndexBefore(s, '.', |s| - 1);
      assert at.Some? && at.value <= i;
      assert dot.Some? && j <= dot.value;
    }
    if IsEmailShape(s) {
      var at := IndexFrom(s, '@', 1).value;
      var dot := LastIndexBefore(s, '.', |s| - 1).value;
      assert s[at] == '@' && s[dot] == '.' && 1 <= at && at + 2 <= dot && dot <= |s| - 2;
    }
  }

  /** `!email || !/^\S+@\S+\.\S+$/.test(email)` rejects; this accepts. */
  function ValidEmail(email: string): (ok: bool)
    ensures ok <==> email != [] && MatchesEmailPattern(email)
  {
    EmailShapeMatchesPattern(email);
    email != [] && IsEmailShape(email)
  }

  /** An accepted email splits as x@y.z with x, y and z non-empty. */
  lemma AcceptedEmailSplits(s: string)
    requires ValidEmail(s)
    ensures NoSpace(s)
    ensures exists i, j | 0 <= i < j < |s| ::
              && s[i] == '@' && s[j] == '.'
              && s[..i] != [] && s[i + 1..j] != [] && s[j + 1..] != []
  {
    EmailShapeMatchesPattern(s);
    var i, j :| 0 <= i < j < |s| && s[i] == '@' && s[j] == '.' && 1 <= i && i + 2 <= j && j <= |s| - 2;
    assert |s[..i]| == i && |s[i + 1..j]| == j - i - 1 && |s[j + 1..]| == |s| - j - 1;
  }

  /** A whitespace-free x@y.z with x, y and z non-empty is accepted. */
  lemma SplitEmailAccepted(s: string, i: nat, j: nat)
    requires NoSpace(s) && i < j < |s| && s[i] == '@' && s[j] == '.'
    requires s[..i] != [] && s[i + 1..j] != [] && s[j + 1..] != []
    ensures ValidEmail(s)
  {
    assert |s[..i]| == i && |s[i + 1..j]| == j - i - 1 && |s[j + 1..]| == |s| - j - 1;
    assert MatchesEmailPattern(s);
    EmailShapeMatchesPattern(s);
  }

  /** An email, once trimmed, is accepted exactly when it is non-empty, has
      no whitespace and splits as x@y.z with x, y and z all non-empty. */
  lemma ValidEmailSpec(s: string)
    ensures ValidEmail(s) <==>
      && s != []
      && NoSpace(s)
      && exists i, j | 0 <= i < j < |s| ::
           && s[i] == '@' && s[j] == '.'
           && s[..i] != [] && s[i + 1..j] != [] && s[j + 1..] != []
  {
    if ValidEmail(s) {
      AcceptedEmailSplits(s);
    }
    if NoSpace(s) && exists i, j | 0 <= i < j < |s| ::
         && s[i] == '@' && s[j] == '.'
         && s[..i] != [] && s[i + 1..j] != [] && s[j + 1..] != [] {
      var i, j :| 0 <= i < j < |s| && s[i] == '@' && s[j] == '.'
         && s[..i] != [] && s[i + 1..j] != [] && s[j + 1..] != [];
      SplitEmailAccepted(s, i, j);
    }
  }

  /** The check is loose: `\S` also matches '@' and '.', so a second '@'
      is accepted. */
  lemma SecondAtAccepted()
    ensures ValidEmail("a@b@c.d")
  {
    var s := "a@b@c.d";
    EmailShapeMatchesPattern(s);
    assert s[1] == '@' && s[5] == '.';
  }

  /** The sample address "ada@example.com" (signed up once by "Ada", then
      refused the second time) is accepted as it stands. */
  lemma SampleAddressAccepted()
    ensures ValidEmail("ada@example.com")
  {
    var s := "ada@example.com";
    EmailShapeMatchesPattern(s);
    assert s[3] == '@' && s[11] == '.';
  }

  /** A string without '@' is rejected. */
  lemma NotAnEmailRejected()
    ensures !ValidEmail("not-an-email")
  {
    var s := "not-an-email";
    EmailShapeMatchesPattern(s);
    forall i | 0 <= i < |s| ensures s[i] != '@' {
    }
  }

  /** Submitting "not-an-email" is rejected and leaves the stored list as it
      was. */
  lemma NotAnEmailStoresNothing(existing: seq<Signup>, name: string, date: string)
    ensures Submit(existing, name, "not-an-email", date) == Submission(InvalidEmail, existing)
  {
    TrimWithoutEdgeSpace("not-an-email");
    NotAnEmailRejected();
    EmailShapeMatchesPattern("not-an-email");
  }

  /** Each of the three runs around '@' and '.' must be non-empty. */
  lemma EmptyRunsRejected()
    ensures !ValidEmail("@b.c") && !ValidEmail("a@.c") && !ValidEmail("a@b.")
  {
    EmailShapeMatchesPattern("@b.c");
    EmailShapeMatchesPattern("a@.c");
    EmailShapeMatchesPattern("a@b.");
  }

  // ---------------------------------------------------------------------
  // Stored signups

  /** One stored signup; `date` is the ISO-8601 time of submission. */
  datatype Signup = Signup(name: string, email: string, date: string)

  /** `existing.some(s => s.email.toLowerCase() === email.toLowerCase())` */
  function EmailTaken(existing: seq<Signup>, email: string): (taken: bool)
    ensures taken <==> exists k | 0 <= k < |existing| :: SameIgnoringCase(existing[k].email, email)
  {
    if existing == [] then false
    else
      var rest := EmailTaken(existing[1..], email);
      assert rest ==> exists k | 1 <= k < |existing| :: SameIgnoringCase(existing[k].email, email);
      SameIgnoringCase(existing[0].email, email) || rest
  }

  /** The stored list's invariant: no two emails equal ignoring case. */
  ghost predicate DistinctEmails(list: seq<Signup>) {
    forall i, j | 0 <= i < j < |list| :: !SameIgnoringCase(list[i].email, list[j].email)
  }

  /** How a submission ends; each outcome has its acknowledgment text. */
  datatype Outcome = InvalidEmail | AlreadySignedUp | SignedUp

  function OutcomeText(o: Outcome): string {
    match o
    case InvalidEmail => "Please enter a valid email address."
    case AlreadySignedUp => "You are already signed up."
    case SignedUp => "Thanks \U{2014} you are signed up!"
  }

  /** The outcome and the stored list after it. */
  datatype Submission = Submission(outcome: Outcome, stored: seq<Signup>)

  /** `handleNewsletterSubmit` on the stored list `existing`, the raw form
      fields and the submission time `date`.  An invalid email and a
      case-insensitive duplicate leave the list as it was; otherwise exactly
      one record, holding the trimmed fields, is appended. */
  function Submit(existing: seq<Signup>, rawName: string, rawEmail: string, date: string): (r: Submission)
    ensures r.outcome == InvalidEmail <==> !MatchesEmailPattern(Trim(rawEmail))
    ensures r.outcome == AlreadySignedUp <==>
              && MatchesEmailPattern(Trim(rawEmail))
              && exists k | 0 <= k < |existing| :: SameIgnoringCase(existing[k].email, Trim(rawEmail))
    ensures r.outcome != SignedUp ==> r.stored == existing
    ensures r.outcome == SignedUp ==> r.stored == existing + [Signup(Trim(rawName), Trim(rawEmail), date)]
  {
    var name := Trim(rawName);
    var email := Trim(rawEmail);
    EmailShapeMatchesPattern(email);
    if !ValidEmail(email) then Submission(InvalidEmail, existing)
    else if EmailTaken(existing, email) then Submission(AlreadySignedUp, existing)
    else Submission(SignedUp, existing + [Signup(name, email, date)])
  }

  /** A submission keeps the stored emails pairwise distinct ignoring case. */
  lemma SubmitKeepsEmailsDistinct(existing: seq<Signup>, rawName: string, rawEmail: string, date: string)
    requires DistinctEmails(existing)
    ensures DistinctEmails(Submit(existing, rawName, rawEmail, date).stored)
  {
    var r := Submit(existing, rawName, rawEmail, date);
    if r.outcome == SignedUp {
      var email := Trim(rawEmail);
      var s := r.stored;
      assert s == existing + [Signup(Trim(rawName), email, date)];
      assert forall k | 0 <= k < |existing| :: !SameIgnoringCase(existing[k].email, email);
      forall i, j | 0 <= i < j < |s| ensures !SameIgnoringCase(s[i].email, s[j].email) {
        assert s[i] == existing[i];
        if j == |existing| {
          assert s[j].email == email;
        } else {
          assert s[j] == existing[j];
        }
      }
    }
  }

  /** Characters equal after lower-casing agree on '@', '.' and whitespace. */
  lemma SameLowerCharClass(c: char, d: char)
    requires LowerChar(c) == LowerChar(d)
    ensures c == '@' <==> d == '@'
    ensures c == '.' <==> d == '.'
    ensures IsSpace(c) <==> IsSpace(d)
  {
  }

  /** Letter case does not affect the email check: two addresses equal
      ignoring case are both accepted or both rejected. */
  lemma {:induction false} SameIgnoringCaseKeepsPattern(a: string, b: string)
    requires SameIgnoringCase(a, b)
    ensures MatchesEmailPattern(a) <==> MatchesEmailPattern(b)
  {
    assert |a| == |ToLower(a)| == |ToLower(b)| == |b|;
    forall k | 0 <= k < |a|
      ensures (a[k] == '@' <==> b[k] == '@') && (a[k] == '.' <==> b[k] == '.')
      ensures IsSpace(a[k]) <==> IsSpace(b[k])
    {
      assert ToLower(a)[k] == ToLower(b)[k];
      SameLowerCharClass(a[k], b[k]);
    }
  }

  /** Once an email is signed up, the next submission of the same address in
      different letter case is refused as a duplicate and stores nothing.
      With other signups in between the refusal still holds, because
      `Submit` only ever appends and `EmailTaken` looks at every record. */
  lemma CaseVariantRejected(existing: seq<Signup>, name1: string, email1: string, date1: string,
                            name2: string, email2: string, date2: string)
    requires ValidEmail(Trim(email1)) && !EmailTaken(existing, Trim(email1))
    requires SameIgnoringCase(Trim(email1), Trim(email2))
    ensures var after := Submit(existing, name1, email1, date1).stored;
      Submit(after, name2, email2, date2) == Submission(AlreadySignedUp, after)
  {
    var e1, e2 := Trim(email1), Trim(email2);
    EmailShapeMatchesPattern(e1);
    SameIgnoringCaseKeepsPattern(e1, e2);
    var first := Submit(existing, name1, email1, date1);
    assert first.outcome == SignedUp;
    var after := first.stored;
    assert after[|existing|].email == e1;
    assert SameIgnoringCase(after[|existing|].email, e2);
    var second := Submit(after, name2, email2, date2);
    assert second.outcome == AlreadySignedUp;
  }

  /** A valid address submitted to an empty store is stored, trimmed, as
      the only record. */
  lemma FirstSignupStored(name: string, email: string, date: string)
    requires ValidEmail(Trim(email))
    ensures Submit([], name, email, date) == Submission(SignedUp, [Signup(Trim(name), Trim(email), date)])
  {
    EmailShapeMatchesPattern(Trim(email));
  }

  /** A valid address signs up once into an empty store; submitting it
      again is refused and the store still holds exactly its one record. */
  lemma SignupOnce(name: string, email: string, date1: string, date2: string)
    requires ValidEmail(Trim(email))
    ensures var first := Submit([], name, email, date1);
      && first == Submission(SignedUp, [Signup(Trim(name), Trim(email), date1)])
      && Submit(first.stored, name, email, date2) == Submission(AlreadySignedUp, first.stored)
  {
    FirstSignupStored(name, email, date1);
    CaseVariantRejected([], name, email, date1, name, email, date2);
    EmailShapeMatchesPattern(Trim(email));
  }

  // ---------------------------------------------------------------------
  // The store

  /** The local-storage entry under the key "wc_newsletter_signups", held as
      the decoded list. */
  class SignupStore {
    var stored: seq<Signup>

    /** A storage without the entry reads as the empty list. */
    constructor ()
      ensures stored == []
    {
      stored := [];
    }

    /** `handleNewsletterSubmit`: trims both fields, rejects an invalid
        email, reads the stored list, rejects a case-insensitive duplicate,
        and otherwise appends the new record and writes the list back. */
    method HandleSubmit(rawName: string, rawEmail: string, date: string) returns (outcome: Outcome)
      modifies this
      ensures outcome == Submit(old(stored), rawName, rawEmail, date).outcome
      ensures stored == Submit(old(stored), rawName, rawEmail, date).stored
      ensures DistinctEmails(old(stored)) ==> DistinctEmails(stored)
    {
      ghost var r := Submit(stored, rawName, rawEmail, date);
      var name := Trim(rawName);
      var email := Trim(rawEmail);
      if !ValidEmail(email) {
        return InvalidEmail;
      }
      var signup := Signup(name, email, date);
      var existing := stored;
      if EmailTaken(existing, email) {
        return AlreadySignedUp;
      }
      existing := existing + [signup];
      assert r == Submission(SignedUp, existing);
      stored := existing;
      if DistinctEmails(old(stored)) {
        SubmitKeepsEmailsDistinct(old(stored), rawName, rawEmail, date);
      }
      return SignedUp;
    }
  }
}
