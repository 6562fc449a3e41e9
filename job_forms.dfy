/** The posting form's checks (jobs/forms.py): a positive cap, a deadline
    not in the past, and an interview address that matches the interview
    type. */
module JobForms {
  import opened Wrappers
  import opened JobModels

  datatype JobFormError =
    | CapNotPositive        // "Maximum applications must be a positive number."
    | DeadlineInPast        // "Application deadline must be in the future."
    | AddressRequired       // "Location address is required for Face-to-Face interviews."

  /** `clean_max_applications`: no cap is fine, a cap must be positive. */
  function CleanMaxApplications(maxApplications: Option<int>): (r: Result<Option<int>, JobFormError>)
    ensures r.Success? <==> (maxApplications.None? || maxApplications.value > 0)
    ensures r.Success? ==> r.value == maxApplications
    ensures r.Failure? ==> r.error == CapNotPositive
  {
    if maxApplications.Some? && maxApplications.value <= 0 then Failure(CapNotPositive) else Success(maxApplications)
  }

  /** `clean_application_deadline`: no deadline is fine, a deadline must
      not be earlier than the clock reading `now`. */
  function CleanApplicationDeadline(deadline: Option<int>, now: int): (r: Result<Option<int>, JobFormError>)
    ensures r.Success? <==> (deadline.None? || deadline.value >= now)
    ensures r.Success? ==> r.value == deadline
    ensures r.Failure? ==> r.error == DeadlineInPast
  {
    if deadline.Some? && deadline.value < now then Failure(DeadlineInPast) else Success(deadline)
  }

  /** A deadline accepted now stays acceptable for any earlier clock
      reading, and one refused now is refused later too. */
  lemma DeadlineCheckMonotone(deadline: Option<int>, now: int, later: int)
    requires now <= later
    ensures CleanApplicationDeadline(deadline, later).Success? ==> CleanApplicationDeadline(deadline, now).Success?
  {
  }

  /** The two fields `clean` reads; a missing choice is `None`, and the
      address is falsy when it is `None` or empty. */
  datatype InterviewFields = InterviewFields(interviewType: Option<InterviewType>, locationAddress: Option<string>)

  predicate HasAddress(f: InterviewFields) {
    f.locationAddress.Some? && f.locationAddress.value != ""
  }

  /** What `clean` promises of the data it returns: a face-to-face
      interview has an address, a digital one has none. */
  predicate Consistent(f: InterviewFields) {
    && (f.interviewType == Some(FaceToFace) ==> HasAddress(f))
    && (f.interviewType == Some(Digital) ==> !HasAddress(f))
  }

  /** `JobForm.clean` on the interview fields. */
  function CleanInterview(f: InterviewFields): (r: Result<InterviewFields, JobFormError>)
  {
    if f.interviewType == Some(FaceToFace) && !HasAddress(f) then Failure(AddressRequired)
    else if f.interviewType == Some(Digital) && HasAddress(f) then Success(f.(locationAddress := None))
    else Success(f)
  }

  /** Face-to-face without an address is the only refusal; a digital
      interview loses its address; every other combination comes back
      unchanged; the interview type is never changed; and what comes back
      is consistent. */
  lemma CleanInterviewMeaning(f: InterviewFields)
    ensures CleanInterview(f).Failure? <==> (f.interviewType == Some(FaceToFace) && !HasAddress(f))
    ensures CleanInterview(f).Failure? ==> CleanInterview(f).error == AddressRequired
    ensures CleanInterview(f).Success? ==> CleanInterview(f).value.interviewType == f.interviewType
    ensures CleanInterview(f).Success? ==> Consistent(CleanInterview(f).value)
    ensures f.interviewType == Some(Digital) && HasAddress(f) ==> CleanInterview(f) == Success(f.(locationAddress := None))
    ensures !(f.interviewType == Some(Digital) && HasAddress(f)) && CleanInterview(f).Success? ==> CleanInterview(f).value == f
    ensures Consistent(f) ==> CleanInterview(f) == Success(f)
  {
  }

  /** Cleaning cleaned data changes nothing. */
  lemma CleanInterviewIdempotent(f: InterviewFields)
    requires CleanInterview(f).Success?
    ensures CleanInterview(CleanInterview(f).value) == CleanInterview(f)
  {
    CleanInterviewMeaning(f);
    CleanInterviewMeaning(CleanInterview(f).value);
  }

  /** The bound form: `clean` rewrites `cleaned_data` in place. */
  class JobForm {
    var cleanedData: InterviewFields

    constructor (data: InterviewFields)
      ensures cleanedData == data
    {
      cleanedData := data;
    }

    /** `clean`: raises before touching `cleaned_data`, or clears the
        address of a digital interview and returns the data. */
    method Clean() returns (r: Result<InterviewFields, JobFormError>)
      modifies this
      ensures r == CleanInterview(old(cleanedData))
      ensures r.Success? ==> cleanedData == r.value
      ensures r.Failure? ==> cleanedData == old(cleanedData)
    {
      var interviewType := cleanedData.interviewType;
      var locationAddress := cleanedData.locationAddress;
      var hasAddress := locationAddress.Some? && locationAddress.value != "";
      if interviewType == Some(FaceToFace) && !hasAddress {
        return Failure(AddressRequired);
      }
      if interviewType == Some(Digital) && hasAddress {
        cleanedData := cleanedData.(locationAddress := None);
      }
      return Success(cleanedData);
    }
  }
}
