/** The signup forms' checks (accounts/forms.py): the phone-number pattern
    shared by both forms, and the ordered guards of the student and
    employer `clean` methods. */
module AccountForms {
  import opened Wrappers
  import opened Text

  // ---------------------------------------------------------------- phone numbers

  /** `s` read as the pattern `^\+?1?\d{9,15}$` with `p` characters taken
      by `\+?` and `o` by `1?`. */
  predicate ParsesAs(s: string, p: nat, o: nat) {
    && p <= 1 && o <= 1 && p + o <= |s|
    && (p == 1 ==> s[0] == '+')
    && (o == 1 ==> s[p] == '1')
    && AllDigits(s[p + o..])
    && 9 <= |s| - p - o <= 15
  }

  /** The anchored regular expression matches: some choice of the two
      optional parts leaves 9 to 15 digits. */
  predicate PhonePattern(s: string) {
    exists p: nat, o: nat | p <= 1 && o <= 1 :: ParsesAs(s, p, o)
  }

  /** The same language without backtracking: after an optional `+`, 9 to
      16 digits, where 16 digits must start with `1`. */
  predicate ValidPhone(s: string) {
    var rest := if |s| > 0 && s[0] == '+' then s[1..] else s;
    && AllDigits(rest)
    && 9 <= |rest| <= 16
    && (|rest| == 16 ==> rest[0] == '1')
  }

  /** The closed form is exactly the pattern, both ways. */
  lemma PhonePatternClosedForm(s: string)
    ensures PhonePattern(s) <==> ValidPhone(s)
  {
    var p: nat := if |s| > 0 && s[0] == '+' then 1 else 0;
    var rest := s[p..];
    if ValidPhone(s) {
      if |rest| == 16 {
        assert s[p + 1..] == rest[1..];
        assert ParsesAs(s, p, 1);
      } else {
        assert ParsesAs(s, p, 0);
      }
    }
    if PhonePattern(s) {
      var p': nat, o: nat :| p' <= 1 && o <= 1 && ParsesAs(s, p', o);
      assert p' == p;
      forall i | 0 <= i < |rest| ensures IsDigit(rest[i]) {
        if i >= o {
          assert rest[i] == s[p + o..][i - o];
        }
      }
    }
  }

  /** A valid number fits the field's `max_length` of 17. */
  lemma ValidPhoneFitsField(s: string)
    requires ValidPhone(s)
    ensures |s| <= 17
  {
  }

  /** Sample numbers: the form's own example, a leading `1` before fifteen
      digits, and numbers that are too short or carry a letter. */
  lemma PhoneExamples()
    ensures ValidPhone("+999999999")
    ensures ValidPhone("1234567890123456")
    ensures !ValidPhone("2234567890123456")
    ensures !ValidPhone("+12345678")
    ensures !ValidPhone("12345678x9")
  {
    assert !IsDigit("12345678x9"[8]);
  }

  // ---------------------------------------------------------------- signup guards

  datatype SignUpError =
    | PersonalEmailTaken
    | UniversityEmailTaken
    | UniversityEmailMissing
    | StudentIdMissing
    | UniversityEmailInvalid
    | EmailTaken

  /** The cleaned fields the student `clean` reads; an empty email is the
      blank (or missing) value Python reads as false. */
  datatype StudentSignUp = StudentSignUp(
    personalEmail: string,
    hasUniversityEmail: bool,
    universityEmail: string,
    hasStudentIdDocument: bool,
    phoneNumber: string)

  /** `university_email.endswith('.edu') or '@student.gla.ac.uk' in
      university_email` */
  predicate UniversityDomain(email: string) {
    EndsWith(email, ".edu") || Contains(email, "@student.gla.ac.uk")
  }

  /** `StudentSignUpForm.clean`, with the registered addresses as the set
      `registered`. */
  function CleanStudent(d: StudentSignUp, registered: set<string>): Result<StudentSignUp, SignUpError> {
    if d.personalEmail != "" && d.personalEmail in registered then Failure(PersonalEmailTaken)
    else if d.universityEmail != "" && d.universityEmail in registered then Failure(UniversityEmailTaken)
    else if d.hasUniversityEmail && d.universityEmail == "" then Failure(UniversityEmailMissing)
    else if !d.hasUniversityEmail && !d.hasStudentIdDocument then Failure(StudentIdMissing)
    else if d.universityEmail != "" && !UniversityDomain(d.universityEmail) then Failure(UniversityEmailInvalid)
    else Success(d)
  }

  /** Every guard the data fails, in the order the checks are written. */
  function StudentViolations(d: StudentSignUp, registered: set<string>): seq<SignUpError> {
    (if d.personalEmail != "" && d.personalEmail in registered then [PersonalEmailTaken] else [])
    + (if d.universityEmail != "" && d.universityEmail in registered then [UniversityEmailTaken] else [])
    + (if d.hasUniversityEmail && d.universityEmail == "" then [UniversityEmailMissing] else [])
    + (if !d.hasUniversityEmail && !d.hasStudentIdDocument then [StudentIdMissing] else [])
    + (if d.universityEmail != "" && !UniversityDomain(d.universityEmail) then [UniversityEmailInvalid] else [])
  }

  /** The first failing guard wins and is the error reported; when no
      guard fails the data comes back untouched. */
  lemma CleanStudentFirstFailure(d: StudentSignUp, registered: set<string>)
    ensures CleanStudent(d, registered).Success? <==> StudentViolations(d, registered) == []
    ensures CleanStudent(d, registered).Success? ==> CleanStudent(d, registered).value == d
    ensures CleanStudent(d, registered).Failure? ==>
              CleanStudent(d, registered).error == StudentViolations(d, registered)[0]
  {
  }

  /** What an accepted student signup guarantees: neither email is
      registered, the university-email answer is backed by an address or
      by a student ID, and a given university address has an accepted
      domain. */
  lemma CleanStudentAccepted(d: StudentSignUp, registered: set<string>)
    requires CleanStudent(d, registered).Success?
    ensures d.personalEmail == "" || d.personalEmail !in registered
    ensures d.universityEmail == "" || d.universityEmail !in registered
    ensures d.hasUniversityEmail ==> d.universityEmail != "" && UniversityDomain(d.universityEmail)
    ensures !d.hasUniversityEmail ==> d.hasStudentIdDocument
  {
  }

  /** Registering more addresses never lets a refused signup through. */
  lemma CleanStudentMonotone(d: StudentSignUp, registered: set<string>, more: set<string>)
    requires registered <= more
    ensures CleanStudent(d, more).Success? ==> CleanStudent(d, registered).Success?
  {
  }

  /** A taken personal email is reported before any other problem. */
  lemma PersonalEmailCheckedFirst(d: StudentSignUp, registered: set<string>)
    requires d.personalEmail != "" && d.personalEmail in registered
    ensures CleanStudent(d, registered) == Failure(PersonalEmailTaken)
  {
  }

  /** A `.edu` address and an address at the Glasgow student domain pass
      the domain check, and so does any address that merely contains the
      Glasgow domain, since the check is a substring test; a webmail
      address does not end in `.edu`. */
  lemma UniversityDomainExamples()
    ensures UniversityDomain("ab@uni.edu")
    ensures UniversityDomain("ab@student.gla.ac.uk")
    ensures UniversityDomain("ab@student.gla.ac.uk.example.com")
    ensures !EndsWith("ab@gmail.com", ".edu")
  {
    var glasgow := "ab@student.gla.ac.uk";
    assert StartsWith(glasgow[2..], "@student.gla.ac.uk");
    assert glasgow[1..][1..] == glasgow[2..];
    var longer := "ab@student.gla.ac.uk.example.com";
    assert StartsWith(longer[2..], "@student.gla.ac.uk");
    assert longer[1..][1..] == longer[2..];
  }

  /** The cleaned field `EmployerSignUpForm.clean` reads. */
  datatype EmployerSignUp = EmployerSignUp(email: string, companyName: string, phoneNumber: string)

  /** `EmployerSignUpForm.clean`: a registered email is refused, anything
      else comes back untouched. */
  function CleanEmployer(d: EmployerSignUp, registered: set<string>): (r: Result<EmployerSignUp, SignUpError>)
    ensures r.Failure? <==> (d.email != "" && d.email in registered)
    ensures r.Failure? ==> r.error == EmailTaken
    ensures r.Success? ==> r.value == d
  {
    if d.email != "" && d.email in registered then Failure(EmailTaken) else Success(d)
  }
}
