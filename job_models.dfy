/** Job postings and applications (jobs/models.py): the rule that decides
    whether a job still takes applications, which switches the job off as a
    side effect, and the Application table's status set and uniqueness. */
module JobModels {
  import opened Wrappers

  // ---------------------------------------------------------------- the closing rule

  /** `self.application_deadline and self.application_deadline < now`;
      times are instants on one clock. */
  predicate DeadlinePassed(deadline: Option<int>, now: int) {
    deadline.Some? && deadline.value < now
  }

  /** `self.max_applications` is truthy and the count has reached it; a cap
      of 0, like no cap at all, imposes nothing. */
  predicate AtCap(maxApplications: Option<nat>, count: nat) {
    maxApplications.Some? && maxApplications.value != 0 && count >= maxApplications.value
  }

  /** The answer `is_accepting_applications` gives for a job in this state. */
  predicate Accepts(isActive: bool, deadline: Option<int>, maxApplications: Option<nat>, now: int, count: nat) {
    isActive && !DeadlinePassed(deadline, now) && !AtCap(maxApplications, count)
  }

  /** An inactive job never accepts; a passed deadline or a reached cap
      refuses; a job that is active, before its deadline and under its cap
      accepts. */
  lemma AcceptsCases(isActive: bool, deadline: Option<int>, maxApplications: Option<nat>, now: int, count: nat)
    ensures !isActive ==> !Accepts(isActive, deadline, maxApplications, now, count)
    ensures deadline.Some? && deadline.value < now ==> !Accepts(isActive, deadline, maxApplications, now, count)
    ensures maxApplications.Some? && 0 < maxApplications.value <= count ==>
              !Accepts(isActive, deadline, maxApplications, now, count)
    ensures (maxApplications.None? || maxApplications == Some(0)) ==>
              Accepts(isActive, deadline, maxApplications, now, count) == (isActive && !DeadlinePassed(deadline, now))
    ensures Accepts(isActive, deadline, maxApplications, now, count) <==>
              && isActive
              && (deadline.None? || now <= deadline.value)
              && (maxApplications.None? || maxApplications.value == 0 || count < maxApplications.value)
  {
  }

  /** Later and with more applications, a job accepts only if it accepted
      before. */
  lemma AcceptsAntitone(isActive: bool, deadline: Option<int>, maxApplications: Option<nat>,
                        now: int, count: nat, later: int, more: nat)
    requires now <= later && count <= more
    ensures Accepts(isActive, deadline, maxApplications, later, more) ==>
              Accepts(isActive, deadline, maxApplications, now, count)
  {
  }

  /** A call of `is_accepting_applications` at `now` with `count`
      applications. */
  datatype Call = Call(now: int, count: nat)

  /** `is_active` after a sequence of calls: each call that refuses
      switches the job off. */
  function ActiveAfter(isActive: bool, deadline: Option<int>, maxApplications: Option<nat>, calls: seq<Call>): bool
    decreases |calls|
  {
    if calls == [] then isActive
    else
      var prev := ActiveAfter(isActive, deadline, maxApplications, calls[..|calls| - 1]);
      Accepts(prev, deadline, maxApplications, calls[|calls| - 1].now, calls[|calls| - 1].count)
  }

  /** The answers of a sequence of calls, each seeing the state the
      previous ones left. */
  function Answers(isActive: bool, deadline: Option<int>, maxApplications: Option<nat>, calls: seq<Call>): (r: seq<bool>)
    ensures |r| == |calls|
    decreases |calls|
  {
    if calls == [] then []
    else
      var front := calls[..|calls| - 1];
      Answers(isActive, deadline, maxApplications, front)
        + [Accepts(ActiveAfter(isActive, deadline, maxApplications, front), deadline, maxApplications,
                   calls[|calls| - 1].now, calls[|calls| - 1].count)]
  }

  /** After a run the job is active exactly when every call accepted. */
  lemma {:induction false} ActiveAfterAll(isActive: bool, deadline: Option<int>, maxApplications: Option<nat>, calls: seq<Call>)
    ensures ActiveAfter(isActive, deadline, maxApplications, calls) ==>
              isActive && forall i :: 0 <= i < |calls| ==> Answers(isActive, deadline, maxApplications, calls)[i]
    ensures (isActive && forall i :: 0 <= i < |calls| ==> Answers(isActive, deadline, maxApplications, calls)[i]) ==>
              ActiveAfter(isActive, deadline, maxApplications, calls)
    decreases |calls|
  {
    if calls != [] {
      var front := calls[..|calls| - 1];
      ActiveAfterAll(isActive, deadline, maxApplications, front);
      var n := |front|;
      var prefix := Answers(isActive, deadline, maxApplications, front);
      var all := Answers(isActive, deadline, maxApplications, calls);
      assert all[..n] == prefix;
      assert all[n] == ActiveAfter(isActive, deadline, maxApplications, calls);
      if ActiveAfter(isActive, deadline, maxApplications, calls) {
        assert ActiveAfter(isActive, deadline, maxApplications, front);
        forall i | 0 <= i < |calls| ensures all[i] {
          if i < n {
            assert all[i] == prefix[i];
          }
        }
      } else if !ActiveAfter(isActive, deadline, maxApplications, front) {
        if isActive {
          var k :| 0 <= k < n && !prefix[k];
          assert all[k] == prefix[k];
        }
      } else {
        assert !all[n];
      }
    }
  }

  /** Closing is monotonic: once a call refuses, every later call
      refuses too. */
  lemma {:induction false} ClosedStaysClosed(isActive: bool, deadline: Option<int>, maxApplications: Option<nat>,
                                             calls: seq<Call>, i: nat, j: nat)
    requires i < j < |calls|
    requires !Answers(isActive, deadline, maxApplications, calls)[i]
    ensures !Answers(isActive, deadline, maxApplications, calls)[j]
    decreases |calls|
  {
    var n := |calls| - 1;
    var front := calls[..n];
    var all := Answers(isActive, deadline, maxApplications, calls);
    var prefix := Answers(isActive, deadline, maxApplications, front);
    assert all[..n] == prefix;
    if j < n {
      assert prefix[i] == all[i] && prefix[j] == all[j];
      ClosedStaysClosed(isActive, deadline, maxApplications, front, i, j);
    } else {
      ActiveAfterAll(isActive, deadline, maxApplications, front);
      assert !prefix[i];
    }
  }

  // ---------------------------------------------------------------- the Job row

  datatype InterviewType = Digital | FaceToFace

  /** The fields of a Job that the closing rule and the form read. */
  class Job {
    var isActive: bool
    var applicationDeadline: Option<int>
    var maxApplications: Option<nat>

    /** A new posting is active. */
    constructor (deadline: Option<int>, maxApplications: Option<nat>)
      ensures isActive && applicationDeadline == deadline && this.maxApplications == maxApplications
    {
      isActive := true;
      applicationDeadline := deadline;
      this.maxApplications := maxApplications;
    }

    /** `is_accepting_applications`, with the clock reading and
        `self.applications.count()` as inputs. A refusal caused by the
        deadline or the cap saves `is_active = False`, so afterwards the
        job is active exactly when it accepted. */
    method IsAcceptingApplications(now: int, count: nat) returns (accepting: bool)
      modifies this
      ensures accepting == old(Accepts(isActive, applicationDeadline, maxApplications, now, count))
      ensures isActive == accepting
      ensures applicationDeadline == old(applicationDeadline) && maxApplications == old(maxApplications)
    {
      if !isActive {
        return false;
      }
      if applicationDeadline.Some? && applicationDeadline.value < now {
        isActive := false;
        return false;
      }
      if maxApplications.Some? && maxApplications.value != 0 {
        if count >= maxApplications.value {
          isActive := false;
          return false;
        }
      }
      return true;
    }
  }

  // ---------------------------------------------------------------- applications

  datatype AppStatus = Pending | InterviewScheduled | Accepted | Rejected

  datatype Application = Application(student: nat, job: nat, status: AppStatus, coverLetter: string)

  /** `unique_together = ('student', 'job')` */
  predicate UniquePairs(apps: seq<Application>) {
    forall i, j :: 0 <= i < j < |apps| ==> (apps[i].student, apps[i].job) != (apps[j].student, apps[j].job)
  }

  predicate HasApplied(apps: seq<Application>, student: nat, job: nat) {
    exists i :: 0 <= i < |apps| && apps[i].student == student && apps[i].job == job
  }

  datatype ApplyError = AlreadyApplied

  /** Inserting an Application: the status defaults to PENDING and the
      uniqueness constraint refuses a second row for the same pair. */
  function Apply(apps: seq<Application>, student: nat, job: nat, coverLetter: string): (r: Result<seq<Application>, ApplyError>)
    ensures r.Success? <==> !HasApplied(apps, student, job)
    ensures r.Success? ==> r.value == apps + [Application(student, job, Pending, coverLetter)]
    ensures r.Failure? ==> r.error == AlreadyApplied
  {
    if HasApplied(apps, student, job) then Failure(AlreadyApplied)
    else Success(apps + [Application(student, job, Pending, coverLetter)])
  }

  /** `job.applications.count()` */
  function ApplicationCount(apps: seq<Application>, job: nat): nat
    decreases |apps|
  {
    if apps == [] then 0
    else ApplicationCount(apps[..|apps| - 1], job) + (if apps[|apps| - 1].job == job then 1 else 0)
  }

  /** Applying keeps the table free of duplicate pairs, adds one to the
      job's count and leaves every other job's count alone. */
  lemma ApplyKeepsUnique(apps: seq<Application>, student: nat, job: nat, coverLetter: string, other: nat, again: string)
    requires UniquePairs(apps)
    requires Apply(apps, student, job, coverLetter).Success?
    ensures UniquePairs(Apply(apps, student, job, coverLetter).value)
    ensures ApplicationCount(Apply(apps, student, job, coverLetter).value, job) == ApplicationCount(apps, job) + 1
    ensures other != job ==>
              ApplicationCount(Apply(apps, student, job, coverLetter).value, other) == ApplicationCount(apps, other)
    ensures Apply(Apply(apps, student, job, coverLetter).value, student, job, again) == Failure(AlreadyApplied)
  {
    var next := Apply(apps, student, job, coverLetter).value;
    assert next[..|next| - 1] == apps;
    assert next[|apps|].student == student && next[|apps|].job == job;
    forall i, j | 0 <= i < j < |next|
      ensures (next[i].student, next[i].job) != (next[j].student, next[j].job)
    {
      if j == |apps| {
        assert apps[i] == next[i];
      }
    }
  }
}
