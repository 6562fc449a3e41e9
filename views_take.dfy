/** The candidate-facing session (assessments/views_take.py): taking an
    assessment moves it from invited to started, answers posted for its
    frozen items are upserted into the Response table, and submitting moves
    it to submitted and scores it. */
module ViewsTake {
  import opened Wrappers
  import opened Text
  import opened AssessmentModels
  import opened Scoring

  // ---------------------------------------------------------------- status

  /** What take does to the status: an invited session starts and is
      stamped, any other is left alone. */
  function Begin(a: Assessment, now: int): Assessment {
    if a.status == Invited then a.(status := Started, startedAt := Some(now)) else a
  }

  /** What a successful submit guard does to the status. */
  function Finish(a: Assessment, now: int): Assessment {
    a.(status := Submitted, submittedAt := Some(now))
  }

  /** The moves the two views make: invited to started, invited or started
      to submitted, or no change. */
  predicate StatusStep(before: Status, after: Status) {
    || before == after
    || (before == Invited && after == Started)
    || (before != Submitted && after == Submitted)
  }

  /** Take starts an invited session with the current time, never restamps a
      started one, keeps the stamping invariant and changes nothing but the
      status and the start time. */
  lemma BeginTransition(a: Assessment, now: int, later: int)
    ensures a.status == Invited ==> Begin(a, now).status == Started && Begin(a, now).startedAt == Some(now)
    ensures a.status != Invited ==> Begin(a, now) == a
    ensures Begin(Begin(a, now), later) == Begin(a, now)
    ensures StatusStep(a.status, Begin(a, now).status)
    ensures Stamped(a) ==> Stamped(Begin(a, now))
    ensures Begin(a, now) == a.(status := Begin(a, now).status, startedAt := Begin(a, now).startedAt)
  {
  }

  /** Submit ends any session that is not yet submitted and keeps the
      stamping invariant; a submitted session is final for both views. */
  lemma FinishTransition(a: Assessment, now: int, later: int)
    ensures a.status != Submitted ==> StatusStep(a.status, Finish(a, now).status)
    ensures Stamped(a) ==> Stamped(Finish(a, now))
    ensures !StatusStep(Submitted, Started) && !StatusStep(Submitted, Invited)
    ensures Begin(Finish(a, now), later) == Finish(a, now)
  {
  }

  // ---------------------------------------------------------------- requests and items

  /** The parts of a request the views read: `GET["check_responses"]`, the
      method, and the POST fields. */
  datatype Request = Request(checkResponses: Option<string>, isPost: bool, post: map<string, string>)

  /** `request.GET.get('check_responses')` is truthy. */
  predicate Polling(req: Request) {
    req.checkResponses.Some? && req.checkResponses.value != ""
  }

  function QuestionKeys(qs: seq<FrozenQuestion>): (ks: seq<ItemKey>)
    ensures |ks| == |qs|
  {
    seq(|qs|, i requires 0 <= i < |qs| => ItemKey(QuestionRef, qs[i].id))
  }

  /** `assessment.tasks or []` */
  function TaskList(a: Assessment): seq<FrozenTask> {
    a.tasks.GetOr([])
  }

  function TaskKeys(ts: seq<FrozenTask>): (ks: seq<ItemKey>)
    ensures |ks| == |ts|
  {
    seq(|ts|, i requires 0 <= i < |ts| => ItemKey(TaskRef, ts[i].id))
  }

  /** The frozen items of a session, questions first. */
  function Items(a: Assessment): seq<ItemKey> {
    QuestionKeys(a.questions) + TaskKeys(TaskList(a))
  }

  /** `f"q_{id}"` or `f"t_{id}"` */
  function FieldName(k: ItemKey): string {
    (if k.refType == QuestionRef then "q_" else "t_") + Decimal(k.refId)
  }

  /** Distinct items post under distinct field names, so no posted answer
      can land on two items. */
  lemma FieldNameInjective(k1: ItemKey, k2: ItemKey)
    ensures FieldName(k1) == FieldName(k2) ==> k1 == k2
  {
    if FieldName(k1) == FieldName(k2) {
      assert FieldName(k1)[0] == FieldName(k2)[0];
      assert FieldName(k1)[2..] == Decimal(k1.refId) && FieldName(k2)[2..] == Decimal(k2.refId);
      DecimalInjective(k1.refId, k2.refId);
    }
  }

  /** The stripped answer posted for an item, when the field is present and
      not blank. */
  function AnswerFor(post: map<string, string>, k: ItemKey): Option<string> {
    if FieldName(k) in post && Strip(post[FieldName(k)]) != "" then Some(Strip(post[FieldName(k)])) else None
  }

  /** One iteration of a save loop: upsert the item's answer, if any. */
  function SaveOne(rows: seq<Response>, aid: nat, k: ItemKey, post: map<string, string>): seq<Response> {
    match AnswerFor(post, k)
    case None => rows
    case Some(ans) => Upsert(rows, aid, k, ans)
  }

  /** The response table after the save loops have gone over `items`. */
  function SaveAnswers(rows: seq<Response>, aid: nat, items: seq<ItemKey>, post: map<string, string>): seq<Response>
    decreases |items|
  {
    if items == [] then rows
    else SaveOne(SaveAnswers(rows, aid, items[..|items| - 1], post), aid, items[|items| - 1], post)
  }

  /** `response_count` after the save loops have gone over `items`. */
  function SavedCount(items: seq<ItemKey>, post: map<string, string>): nat
    decreases |items|
  {
    if items == [] then 0
    else SavedCount(items[..|items| - 1], post) + (if AnswerFor(post, items[|items| - 1]).Some? then 1 else 0)
  }

  // ---------------------------------------------------------------- what a POST stores

  /** The count never exceeds the number of items. */
  lemma {:induction false} SavedCountBound(items: seq<ItemKey>, post: map<string, string>)
    ensures SavedCount(items, post) <= |items|
    decreases |items|
  {
    if items != [] {
      SavedCountBound(items[..|items| - 1], post);
    }
  }

  /** Saving keeps one response per key. */
  lemma {:induction false} SaveKeepsOnePerItem(rows: seq<Response>, aid: nat, items: seq<ItemKey>, post: map<string, string>)
    requires OneResponsePerItem(rows)
    ensures OneResponsePerItem(SaveAnswers(rows, aid, items, post))
    decreases |items|
  {
    if items != [] {
      var front := items[..|items| - 1];
      SaveKeepsOnePerItem(rows, aid, front, post);
      match AnswerFor(post, items[|items| - 1])
      case None =>
      case Some(ans) => UpsertKeepsOnePerItem(SaveAnswers(rows, aid, front, post), aid, items[|items| - 1], ans);
    }
  }

  /** Every item answered in the request has a response afterwards, holding
      the stripped answer. */
  lemma {:induction false} SaveStoresAnswer(rows: seq<Response>, aid: nat, items: seq<ItemKey>, post: map<string, string>, k: ItemKey)
    requires k in items && AnswerFor(post, k).Some?
    ensures Lookup(SaveAnswers(rows, aid, items, post), aid, k).Some?
    ensures Lookup(SaveAnswers(rows, aid, items, post), aid, k).value.answer == AnswerFor(post, k).value
    decreases |items|
  {
    var n := |items| - 1;
    var front := items[..n];
    var prev := SaveAnswers(rows, aid, front, post);
    if items[n] == k {
      UpsertLookupSame(prev, aid, k, AnswerFor(post, k).value);
    } else {
      assert k in front by {
        var i :| 0 <= i < |items| && items[i] == k;
        assert i < n && front[i] == k;
      }
      SaveStoresAnswer(rows, aid, front, post, k);
      match AnswerFor(post, items[n])
      case None =>
      case Some(ans) => UpsertLookupOther(prev, aid, items[n], ans, aid, k);
    }
  }

  /** A key that is not an answered item of this request (a blank answer,
      a missing field, another assessment's row) is left exactly as it
      was: blank answers neither create nor delete responses. */
  lemma {:induction false} SaveLeavesOthers(rows: seq<Response>, aid: nat, items: seq<ItemKey>, post: map<string, string>, b: nat, k: ItemKey)
    requires b != aid || k !in items || AnswerFor(post, k).None?
    ensures Lookup(SaveAnswers(rows, aid, items, post), b, k) == Lookup(rows, b, k)
    decreases |items|
  {
    if items != [] {
      var n := |items| - 1;
      var front := items[..n];
      assert items == front + [items[n]];
      SaveLeavesOthers(rows, aid, front, post, b, k);
      SaveOneLeaves(SaveAnswers(rows, aid, front, post), aid, items[n], post, b, k);
    }
  }

  /** One iteration leaves alone every key but the one it answers. */
  lemma SaveOneLeaves(rows: seq<Response>, aid: nat, key: ItemKey, post: map<string, string>, b: nat, k: ItemKey)
    requires b != aid || key != k || AnswerFor(post, key).None?
    ensures Lookup(SaveOne(rows, aid, key, post), b, k) == Lookup(rows, b, k)
  {
    match AnswerFor(post, key)
    case None =>
    case Some(ans) => UpsertLookupOther(rows, aid, key, ans, b, k);
  }

  /** Posted fields that name no frozen item are ignored. */
  lemma {:induction false} SaveIgnoresOtherFields(rows: seq<Response>, aid: nat, items: seq<ItemKey>,
                                                  post: map<string, string>, field: string, value: string)
    requires forall i :: 0 <= i < |items| ==> FieldName(items[i]) != field
    ensures SaveAnswers(rows, aid, items, post[field := value]) == SaveAnswers(rows, aid, items, post)
    ensures SavedCount(items, post[field := value]) == SavedCount(items, post)
    decreases |items|
  {
    if items != [] {
      var n := |items| - 1;
      assert AnswerFor(post[field := value], items[n]) == AnswerFor(post, items[n]);
      SaveIgnoresOtherFields(rows, aid, items[..n], post, field, value);
    }
  }

  // ---------------------------------------------------------------- the views

  datatype TakeOutcome =
    | TakeNotFound
    | TakeAlreadySubmitted      // redirect to "my applications"
    | ResponseCount(n: nat)     // the JSON answer to the poll
    | Saved(count: nat, expected: nat)   // redirect back to take
    | Rendered                  // the take page

  /** Extending the items by one runs one more loop iteration. */
  lemma SaveSnoc(rows: seq<Response>, aid: nat, items: seq<ItemKey>, k: ItemKey, post: map<string, string>)
    ensures SaveAnswers(rows, aid, items + [k], post) == SaveOne(SaveAnswers(rows, aid, items, post), aid, k, post)
    ensures SavedCount(items + [k], post) == SavedCount(items, post) + (if AnswerFor(post, k).Some? then 1 else 0)
  {
    assert (items + [k])[..|items|] == items;
  }

  /** The body of both save loops. */
  method SaveItem(db: Store, aid: nat, key: ItemKey, post: map<string, string>) returns (saved: bool)
    requires db.Valid()
    modifies db
    ensures db.Valid()
    ensures db.responses == SaveOne(old(db.responses), aid, key, post)
    ensures db.assessments == old(db.assessments) && db.reports == old(db.reports)
    ensures saved == AnswerFor(post, key).Some?
  {
    saved := false;
    var field := FieldName(key);
    if field in post {
      var ans := Strip(post[field]);
      if ans != "" {
        db.UpdateOrCreate(aid, key, ans);
        saved := true;
      }
    }
  }

  /** Going over `keys[i]` after `done + keys[..i]`. */
  lemma SaveStep(rows: seq<Response>, aid: nat, done: seq<ItemKey>, keys: seq<ItemKey>, i: nat, post: map<string, string>)
    requires i < |keys|
    ensures SaveAnswers(rows, aid, done + keys[..i + 1], post) ==
              SaveOne(SaveAnswers(rows, aid, done + keys[..i], post), aid, keys[i], post)
    ensures SavedCount(done + keys[..i + 1], post) ==
              SavedCount(done + keys[..i], post) + (if AnswerFor(post, keys[i]).Some? then 1 else 0)
  {
    assert done + keys[..i + 1] == (done + keys[..i]) + [keys[i]];
    SaveSnoc(rows, aid, done + keys[..i], keys[i], post);
  }

  /** The first save loop, over `assessment.questions or []`. */
  method SaveQuestions(db: Store, a: Assessment, post: map<string, string>) returns (count: nat)
    requires db.Valid()
    modifies db
    ensures db.Valid()
    ensures db.responses == SaveAnswers(old(db.responses), a.id, QuestionKeys(a.questions), post)
    ensures db.assessments == old(db.assessments) && db.reports == old(db.reports)
    ensures count == SavedCount(QuestionKeys(a.questions), post)
  {
    ghost var rows := db.responses;
    ghost var keys := QuestionKeys(a.questions);
    count := 0;
    var qs := a.questions;
    assert [] + keys[..0] == [];
    for i := 0 to |qs|
      invariant db.Valid()
      invariant db.assessments == old(db.assessments) && db.reports == old(db.reports)
      invariant db.responses == SaveAnswers(rows, a.id, [] + keys[..i], post)
      invariant count == SavedCount([] + keys[..i], post)
    {
      var key := ItemKey(QuestionRef, qs[i].id);
      assert key == keys[i];
      SaveStep(rows, a.id, [], keys, i, post);
      var saved := SaveItem(db, a.id, key, post);
      if saved {
        count := count + 1;
      }
    }
    assert [] + keys[..|qs|] == keys;
  }

  /** The second save loop, over `assessment.tasks or []`, after `done`. */
  method SaveTasks(db: Store, a: Assessment, post: map<string, string>, ghost rows: seq<Response>, ghost done: seq<ItemKey>, count0: nat)
    returns (count: nat)
    requires db.Valid()
    requires db.responses == SaveAnswers(rows, a.id, done, post)
    modifies db
    ensures db.Valid()
    ensures db.responses == SaveAnswers(rows, a.id, done + TaskKeys(TaskList(a)), post)
    ensures db.assessments == old(db.assessments) && db.reports == old(db.reports)
    ensures count == count0 + SavedCount(done + TaskKeys(TaskList(a)), post) - SavedCount(done, post)
  {
    ghost var keys := TaskKeys(TaskList(a));
    count := count0;
    var ts := TaskList(a);
    assert done + keys[..0] == done;
    for i := 0 to |ts|
      invariant db.Valid()
      invariant db.assessments == old(db.assessments) && db.reports == old(db.reports)
      invariant db.responses == SaveAnswers(rows, a.id, done + keys[..i], post)
      invariant count == count0 + SavedCount(done + keys[..i], post) - SavedCount(done, post)
    {
      var key := ItemKey(TaskRef, ts[i].id);
      assert key == keys[i];
      SaveStep(rows, a.id, done, keys, i, post);
      var saved := SaveItem(db, a.id, key, post);
      if saved {
        count := count + 1;
      }
    }
    assert done + keys[..|ts|] == done + keys;
  }

  /** The POST branch of `assessment_take`: the two save loops. */
  method SavePosted(db: Store, a: Assessment, post: map<string, string>) returns (count: nat)
    requires db.Valid()
    modifies db
    ensures db.Valid()
    ensures db.responses == SaveAnswers(old(db.responses), a.id, Items(a), post)
    ensures db.assessments == old(db.assessments) && db.reports == old(db.reports)
    ensures count == SavedCount(Items(a), post)
  {
    ghost var rows := db.responses;
    count := SaveQuestions(db, a, post);
    count := SaveTasks(db, a, post, rows, QuestionKeys(a.questions), count);
  }

  /** `assessment_take`: unknown token, already submitted, the poll, the
      POST that saves answers, or the page itself. */
  method Take(db: Store, token: string, req: Request, now: int) returns (out: TakeOutcome)
    requires db.Valid()
    modifies db
    ensures db.Valid()
    ensures db.reports == old(db.reports)
    ensures FindByToken(old(db.assessments), token).None? ==>
              out == TakeNotFound && db.assessments == old(db.assessments) && db.responses == old(db.responses)
    ensures FindByToken(old(db.assessments), token).Some? ==>
              var i := FindByToken(old(db.assessments), token).value;
              var a := old(db.assessments)[i];
              if a.status == Submitted then
                out == TakeAlreadySubmitted && db.assessments == old(db.assessments) && db.responses == old(db.responses)
              else
                && db.assessments == old(db.assessments)[i := Begin(a, now)]
                && (Polling(req) ==> out == ResponseCount(CountRows(old(db.responses), a.id)) && db.responses == old(db.responses))
                && (!Polling(req) && req.isPost ==>
                      && db.responses == SaveAnswers(old(db.responses), a.id, Items(a), req.post)
                      && out == Saved(SavedCount(Items(a), req.post), |a.questions| + |TaskList(a)|))
                && (!Polling(req) && !req.isPost ==> out == Rendered && db.responses == old(db.responses))
  {
    var found := FindByToken(db.assessments, token);
    if found.None? {
      return TakeNotFound;
    }
    var i := found.value;
    var a := db.assessments[i];
    if a.status == Submitted {
      return TakeAlreadySubmitted;
    }
    if a.status == Invited {
      a := a.(status := Started, startedAt := Some(now));
      db.UpdateAssessment(i, a);
    }
    if Polling(req) {
      return ResponseCount(CountRows(db.responses, a.id));
    }
    if req.isPost {
      var expected := |a.questions| + |TaskList(a)|;
      var count := SavePosted(db, a, req.post);
      return Saved(count, expected);
    }
    return Rendered;
  }

  datatype SubmitOutcome =
    | SubmitNotFound
    | SubmitAlreadySubmitted    // redirect to "my applications"
    | NothingToSubmit           // redirect back to take
    | SubmittedOk(report: Report)
    | ScoringFailed             // "Error generating report": submitted, and the report may be stored

  /** `assessment_submit`: the two guards, then the status change, then
      scoring, whose failure leaves the session submitted.  `mailPrepared`
      says whether preparing the report e-mail succeeds; when it does not,
      the view reports an error although the Report was stored. */
  method Submit(db: Store, token: string, bank: seq<Question>, now: int, mailPrepared: bool) returns (out: SubmitOutcome)
    requires db.Valid()
    modifies db
    ensures db.Valid()
    ensures FindByToken(old(db.assessments), token).None? ==>
              out == SubmitNotFound && db.assessments == old(db.assessments)
              && db.responses == old(db.responses) && db.reports == old(db.reports)
    ensures FindByToken(old(db.assessments), token).Some? ==>
              var i := FindByToken(old(db.assessments), token).value;
              var a := old(db.assessments)[i];
              if a.status == Submitted || !HasResponses(old(db.responses), a.id) then
                && out == (if a.status == Submitted then SubmitAlreadySubmitted else NothingToSubmit)
                && db.assessments == old(db.assessments) && db.responses == old(db.responses) && db.reports == old(db.reports)
              else
                && db.assessments == old(db.assessments)[i := Finish(a, now)]
                && db.responses == RescoreRows(old(db.responses), a.id, bank)
                && db.reports == (if HasReport(old(db.reports), a.id) then old(db.reports)
                                  else old(db.reports) + [ReportFor(old(db.responses), a.id, bank)])
                && (out.SubmittedOk? <==> !HasReport(old(db.reports), a.id) && mailPrepared)
                && (out.SubmittedOk? ==> out.report == ReportFor(old(db.responses), a.id, bank))
                && (!out.SubmittedOk? ==> out == ScoringFailed)
  {
    var found := FindByToken(db.assessments, token);
    if found.None? {
      return SubmitNotFound;
    }
    var i := found.value;
    var a := db.assessments[i];
    if a.status == Submitted {
      return SubmitAlreadySubmitted;
    }
    if !HasResponses(db.responses, a.id) {
      return NothingToSubmit;
    }
    a := a.(status := Submitted, submittedAt := Some(now));
    db.UpdateAssessment(i, a);
    var scored := Score(db, a.id, bank, mailPrepared);
    match scored
    case Success(report) => out := SubmittedOk(report);
    case Failure(_) => out := ScoringFailed;
  }
}
