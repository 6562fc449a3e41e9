/** The records of the assessment engine (assessments/models.py): blueprints,
    the question and task bank, frozen payloads, sessions ("assessments"),
    responses and reports, with the field ranges, defaults and uniqueness
    constraints the schema declares.  `Store` stands for the three tables
    the engine writes to. */
module AssessmentModels {
  import opened Wrappers

  /** A value held in a JSONField. */
  datatype Json =
    | JNull
    | JBool(b: bool)
    | JInt(i: int)
    | JStr(s: string)
    | JList(items: seq<Json>)
    | JObject(fields: map<string, Json>)

  // ---------------------------------------------------------------- rules

  /** The `code` entry of an internship rule document; a missing `enabled`
      reads as false and missing `languages` as the empty list. */
  datatype CodeRules = CodeRules(enabled: bool, languages: seq<string>)

  /** One entry of a gig document's `sections`; `skills` and
      `constraints.language_opts` read as empty when absent. */
  datatype Section = Section(typ: string, count: Option<nat>, skills: seq<string>, languageOpts: seq<string>)

  /** A blueprint's `rules` JSON document.  Both kinds are read from the same
      dictionary, so every key is optional. */
  datatype RuleDocument = RuleDocument(
    mcq: Option<nat>,
    short: Option<nat>,
    code: Option<CodeRules>,
    sections: seq<Section>)

  datatype Blueprint = Blueprint(
    id: nat,
    name: string,
    kind: string,
    roleId: Option<nat>,
    rules: RuleDocument,
    durationMinutes: int)

  const MinDurationMinutes: int := 10
  const MaxDurationMinutes: int := 240
  const DefaultDurationMinutes: int := 60

  /** The validators on `duration_minutes`. */
  predicate ValidBlueprint(b: Blueprint) {
    MinDurationMinutes <= b.durationMinutes <= MaxDurationMinutes
  }

  /** A blueprint saved without an explicit duration. */
  function NewBlueprint(id: nat, name: string, kind: string, roleId: Option<nat>, rules: RuleDocument): (b: Blueprint)
    ensures ValidBlueprint(b)
    ensures b.id == id && b.kind == kind && b.roleId == roleId && b.rules == rules
  {
    Blueprint(id, name, kind, roleId, rules, DefaultDurationMinutes)
  }

  // ---------------------------------------------------------------- bank

  /** A bank question.  Skills are identified by name (the Skill table's
      name column is unique). */
  datatype Question = Question(
    id: nat,
    text: string,
    qtype: string,
    skills: set<string>,
    difficulty: int,
    choices: Json,
    answerKey: string,
    language: string,
    starterCode: string,
    tests: Json,
    section: string,
    active: bool)

  const DefaultSection: string := "technical"

  /** The validators on `difficulty`. */
  predicate ValidQuestion(q: Question) {
    1 <= q.difficulty <= 3
  }

  /** A question saved with only its required fields. */
  function NewQuestion(id: nat, text: string, qtype: string, skills: set<string>): (q: Question)
    ensures ValidQuestion(q) && q.difficulty == 1 && q.active && q.section == DefaultSection
    ensures q.id == id && q.text == text && q.qtype == qtype && q.skills == skills
  {
    Question(id, text, qtype, skills, 1, JNull, "", "", "", JNull, DefaultSection, true)
  }

  /** A gig task; `role` is a required foreign key. */
  datatype Task = Task(
    id: nat,
    roleId: nat,
    title: string,
    instructions: string,
    ttype: string,
    skills: set<string>,
    artifactType: string,
    rubric: Json,
    maxScore: int,
    active: bool)

  /** The read-only tables the engine draws from: questions, tasks, the
      Skill names, and ApplicantChosenSkill rows. */
  datatype Catalog = Catalog(
    questions: seq<Question>,
    tasks: seq<Task>,
    skills: set<string>,
    chosenSkills: seq<ChosenSkill>)

  /** An ApplicantChosenSkill row: an application and an AssessmentSkill name. */
  datatype ChosenSkill = ChosenSkill(applicationId: nat, skill: string)

  /** `unique_together = ("application", "skill")`. */
  predicate UniqueChosenSkills(rows: seq<ChosenSkill>) {
    forall i, j :: 0 <= i < j < |rows| ==> rows[i] != rows[j]
  }

  // ---------------------------------------------------------------- frozen payloads

  /** The dictionary stored for a frozen question: exactly the keys id, qtype,
      text, choices, language, starter, tests and section.  There is no
      answer-key field. */
  datatype FrozenQuestion = FrozenQuestion(
    id: nat,
    qtype: string,
    text: string,
    choices: Json,
    language: string,
    starter: string,
    tests: Json,
    section: string)

  /** The dictionary stored for a frozen task; the rubric is part of it. */
  datatype FrozenTask = FrozenTask(
    id: nat,
    ttype: string,
    title: string,
    instructions: string,
    artifactType: string,
    rubric: Json,
    maxScore: int)

  // ---------------------------------------------------------------- sessions

  /** The status values the code assigns.  The column comment also lists
      "scored", which no code ever writes. */
  datatype Status = Invited | Started | Submitted

  const DefaultStatus: Status := Invited

  /** An assessment row.  Instants are opaque integers. */
  datatype Assessment = Assessment(
    id: nat,
    applicationId: nat,
    blueprintId: nat,
    questions: seq<FrozenQuestion>,
    tasks: Option<seq<FrozenTask>>,
    token: string,
    durationMinutes: int,
    status: Status,
    startedAt: Option<int>,
    submittedAt: Option<int>)

  /** An invited session carries no timestamp, a started one only its start
      time, and a submitted one its submission time.  The views keep this
      for every row; the schema does not declare it. */
  predicate Stamped(a: Assessment) {
    && (a.status == Invited ==> a.startedAt.None? && a.submittedAt.None?)
    && (a.status == Started ==> a.startedAt.Some? && a.submittedAt.None?)
    && (a.status == Submitted ==> a.submittedAt.Some?)
  }

  /** `ref_type`: "q" for a question, "t" for a task. */
  datatype RefType = QuestionRef | TaskRef

  const DefaultRefType: RefType := QuestionRef

  datatype Response = Response(
    assessmentId: nat,
    refType: RefType,
    refId: nat,
    answer: string,
    isCorrect: Option<bool>,
    score: int)

  /** A response created with only its key and answer: `is_correct` is null
      and `score` is 0. */
  function NewResponse(assessmentId: nat, refType: RefType, refId: nat, answer: string): (r: Response)
    ensures r.isCorrect.None? && r.score == 0
    ensures r.assessmentId == assessmentId && r.refType == refType && r.refId == refId && r.answer == answer
  {
    Response(assessmentId, refType, refId, answer, None, 0)
  }

  /** The summary text "Score: {total} out of {max}." as its two numbers. */
  datatype Summary = Summary(total: int, outOf: int)

  datatype Report = Report(
    assessmentId: nat,
    totalScore: int,
    perSkill: map<string, int>,
    perSection: map<string, int>,
    summary: Summary)

  // ---------------------------------------------------------------- table constraints

  predicate UniqueAssessmentIds(t: seq<Assessment>) {
    forall i, j :: 0 <= i < j < |t| ==> t[i].id != t[j].id
  }

  /** `token = CharField(unique=True)` */
  predicate UniqueTokens(t: seq<Assessment>) {
    forall i, j :: 0 <= i < j < |t| ==> t[i].token != t[j].token
  }

  /** `application = OneToOneField(Application)` */
  predicate OneAssessmentPerApplication(t: seq<Assessment>) {
    forall i, j :: 0 <= i < j < |t| ==> t[i].applicationId != t[j].applicationId
  }

  /** `Report.assessment = OneToOneField(Assessment)` */
  predicate OneReportPerAssessment(t: seq<Report>) {
    forall i, j :: 0 <= i < j < |t| ==> t[i].assessmentId != t[j].assessmentId
  }

  predicate SameItem(a: Response, b: Response) {
    a.assessmentId == b.assessmentId && a.refType == b.refType && a.refId == b.refId
  }

  /** At most one response per (assessment, ref_type, ref_id).  The schema
      does not declare this; it holds because every write goes through
      `update_or_create`. */
  predicate OneResponsePerItem(t: seq<Response>) {
    forall i, j :: 0 <= i < j < |t| ==> !SameItem(t[i], t[j])
  }

  predicate AllStamped(t: seq<Assessment>) {
    forall i :: 0 <= i < |t| ==> Stamped(t[i])
  }

  function IdTaken(t: seq<Assessment>, id: nat): bool {
    exists i :: 0 <= i < |t| && t[i].id == id
  }

  function TokenTaken(t: seq<Assessment>, token: string): bool {
    exists i :: 0 <= i < |t| && t[i].token == token
  }

  function ApplicationTaken(t: seq<Assessment>, applicationId: nat): bool {
    exists i :: 0 <= i < |t| && t[i].applicationId == applicationId
  }

  function HasReport(t: seq<Report>, assessmentId: nat): bool {
    exists i :: 0 <= i < |t| && t[i].assessmentId == assessmentId
  }

  /** An id larger than every id in the table (an auto-increment key). */
  function NextAssessmentId(t: seq<Assessment>): (id: nat)
    ensures forall i :: 0 <= i < |t| ==> t[i].id < id
    decreases |t|
  {
    if t == [] then 1
    else
      var rest := NextAssessmentId(t[..|t| - 1]);
      assert forall i :: 0 <= i < |t| - 1 ==> t[..|t| - 1][i] == t[i];
      if t[|t| - 1].id < rest then rest else t[|t| - 1].id + 1
  }

  /** `Assessment.objects.get(token=token)`: the position of the first row
      with that token, if any. */
  function FindByToken(t: seq<Assessment>, token: string): (r: Option<nat>)
    ensures r.Some? ==> r.value < |t| && t[r.value].token == token
    ensures r.Some? ==> forall i :: 0 <= i < r.value ==> t[i].token != token
    ensures r.None? <==> !TokenTaken(t, token)
    decreases |t|
  {
    if t == [] then None
    else if t[0].token == token then Some(0)
    else
      match FindByToken(t[1..], token)
      case None => None
      case Some(k) => Some(k + 1)
  }

  /** Because tokens are unique, a token resolves to the one row holding it. */
  lemma TokenResolvesUniquely(t: seq<Assessment>, token: string, i: nat)
    requires UniqueTokens(t)
    requires i < |t| && t[i].token == token
    ensures FindByToken(t, token) == Some(i)
  {
  }

  // ---------------------------------------------------------------- response upsert

  /** A response's key within its assessment: `(ref_type, ref_id)`. */
  datatype ItemKey = ItemKey(refType: RefType, refId: nat)

  predicate Matches(r: Response, aid: nat, k: ItemKey) {
    r.assessmentId == aid && r.refType == k.refType && r.refId == k.refId
  }

  /** The position of the first row with that key, if any. */
  function FindItem(rows: seq<Response>, aid: nat, k: ItemKey): (r: Option<nat>)
    ensures r.Some? ==> r.value < |rows| && Matches(rows[r.value], aid, k)
    ensures r.Some? ==> forall i :: 0 <= i < r.value ==> !Matches(rows[i], aid, k)
    ensures r.None? <==> forall i :: 0 <= i < |rows| ==> !Matches(rows[i], aid, k)
    decreases |rows|
  {
    if rows == [] then None
    else if Matches(rows[0], aid, k) then Some(0)
    else
      match FindItem(rows[1..], aid, k)
      case None => None
      case Some(i) => Some(i + 1)
  }

  /** `Response.objects.get(assessment=aid, ref_type=…, ref_id=…)` */
  function Lookup(rows: seq<Response>, aid: nat, k: ItemKey): Option<Response> {
    match FindItem(rows, aid, k)
    case None => None
    case Some(i) => Some(rows[i])
  }

  /** `Response.objects.update_or_create(assessment=aid, ref_type=…,
      ref_id=…, defaults={"answer": ans})`: the row with that key gets the
      answer, or a new row is appended. */
  function Upsert(rows: seq<Response>, aid: nat, k: ItemKey, ans: string): seq<Response> {
    match FindItem(rows, aid, k)
    case Some(i) => rows[i := rows[i].(answer := ans)]
    case None => rows + [NewResponse(aid, k.refType, k.refId, ans)]
  }

  /** The first match depends only on where the matches are. */
  lemma FindItemByMatches(s1: seq<Response>, s2: seq<Response>, aid: nat, k: ItemKey)
    requires forall i :: 0 <= i < |s1| && 0 <= i < |s2| ==> (Matches(s1[i], aid, k) <==> Matches(s2[i], aid, k))
    requires forall i :: |s2| <= i < |s1| ==> !Matches(s1[i], aid, k)
    requires forall i :: |s1| <= i < |s2| ==> !Matches(s2[i], aid, k)
    ensures FindItem(s1, aid, k) == FindItem(s2, aid, k)
  {
  }

  /** After the upsert the key holds exactly the new answer: an existing row
      keeps its score and correctness, a new row starts unscored. */
  lemma UpsertLookupSame(rows: seq<Response>, aid: nat, k: ItemKey, ans: string)
    ensures Lookup(Upsert(rows, aid, k, ans), aid, k) ==
              match Lookup(rows, aid, k)
              case Some(r) => Some(r.(answer := ans))
              case None => Some(NewResponse(aid, k.refType, k.refId, ans))
  {
    var t := Upsert(rows, aid, k, ans);
    match FindItem(rows, aid, k)
    case Some(i) =>
      FindItemByMatches(rows, t, aid, k);
    case None =>
      var f := FindItem(t, aid, k);
      assert Matches(t[|rows|], aid, k);
      assert f.Some?;
  }

  /** No other key, of this or any other assessment, is affected. */
  lemma UpsertLookupOther(rows: seq<Response>, aid: nat, k: ItemKey, ans: string, b: nat, k2: ItemKey)
    requires b != aid || k2 != k
    ensures Lookup(Upsert(rows, aid, k, ans), b, k2) == Lookup(rows, b, k2)
  {
    var t := Upsert(rows, aid, k, ans);
    match FindItem(rows, aid, k)
    case Some(i) =>
      assert !Matches(rows[i], b, k2) && !Matches(t[i], b, k2);
      FindItemByMatches(rows, t, b, k2);
    case None =>
      assert !Matches(t[|rows|], b, k2);
      FindItemByMatches(rows, t, b, k2);
  }

  /** The upsert keeps one row per key. */
  lemma UpsertKeepsOnePerItem(rows: seq<Response>, aid: nat, k: ItemKey, ans: string)
    requires OneResponsePerItem(rows)
    ensures OneResponsePerItem(Upsert(rows, aid, k, ans))
  {
    var t := Upsert(rows, aid, k, ans);
    match FindItem(rows, aid, k)
    case Some(i) =>
      forall x, y | 0 <= x < y < |t| ensures !SameItem(t[x], t[y]) {
        assert SameItem(t[x], rows[x]) && SameItem(t[y], rows[y]);
      }
    case None =>
      forall x, y | 0 <= x < y < |t| ensures !SameItem(t[x], t[y]) {
        if y == |rows| {
          assert !Matches(rows[x], aid, k);
        } else {
          assert t[x] == rows[x] && t[y] == rows[y];
        }
      }
  }

  /** The number of response rows of an assessment. */
  function CountRows(rows: seq<Response>, aid: nat): nat
    decreases |rows|
  {
    if rows == [] then 0 else CountRows(rows[..|rows| - 1], aid) + (if rows[|rows| - 1].assessmentId == aid then 1 else 0)
  }

  predicate HasResponses(rows: seq<Response>, aid: nat) {
    exists j :: 0 <= j < |rows| && rows[j].assessmentId == aid
  }

  /** `responses.exists()` agrees with `responses.count() > 0`. */
  lemma {:induction false} CountRowsPositive(rows: seq<Response>, aid: nat)
    ensures CountRows(rows, aid) > 0 <==> HasResponses(rows, aid)
    decreases |rows|
  {
    if rows != [] {
      var front := rows[..|rows| - 1];
      CountRowsPositive(front, aid);
      assert forall j :: 0 <= j < |front| ==> front[j] == rows[j];
      if HasResponses(rows, aid) && rows[|rows| - 1].assessmentId != aid {
        var j :| 0 <= j < |rows| && rows[j].assessmentId == aid;
        assert j < |front|;
      }
    }
  }

  /** The tables the engine writes: Assessment, Response and Report. */
  class Store {
    var assessments: seq<Assessment>
    var responses: seq<Response>
    var reports: seq<Report>

    /** What the database itself enforces. */
    ghost predicate Constraints()
      reads this
    {
      && UniqueAssessmentIds(assessments)
      && UniqueTokens(assessments)
      && OneAssessmentPerApplication(assessments)
      && OneReportPerAssessment(reports)
    }

    /** The database constraints plus the two invariants the code keeps:
        one response per item, which `update_or_create` maintains, and the
        timestamps that match each session's status. */
    ghost predicate Valid()
      reads this
    {
      Constraints() && OneResponsePerItem(responses) && AllStamped(assessments)
    }

    constructor ()
      ensures Valid()
      ensures assessments == [] && responses == [] && reports == []
    {
      assessments, responses, reports := [], [], [];
    }

    /** `Assessment.objects.create(...)`: refused, as an IntegrityError, when
        the id, the token or the application is already taken. */
    method InsertAssessment(a: Assessment) returns (ok: bool)
      requires Valid() && Stamped(a)
      modifies this
      ensures Valid()
      ensures ok <==> !IdTaken(old(assessments), a.id) && !TokenTaken(old(assessments), a.token)
                      && !ApplicationTaken(old(assessments), a.applicationId)
      ensures assessments == if ok then old(assessments) + [a] else old(assessments)
      ensures responses == old(responses) && reports == old(reports)
    {
      ok := !IdTaken(assessments, a.id) && !TokenTaken(assessments, a.token)
            && !ApplicationTaken(assessments, a.applicationId);
      if ok {
        assessments := assessments + [a];
      }
    }

    /** `assessment.save()` on the row at position `i`, for a change that
        keeps the row's id, token and application (the engine only changes
        the status and the timestamps). */
    method UpdateAssessment(i: nat, a: Assessment)
      requires Valid() && i < |assessments|
      requires a.id == assessments[i].id && a.token == assessments[i].token
      requires a.applicationId == assessments[i].applicationId
      requires Stamped(a)
      modifies this
      ensures Valid()
      ensures assessments == old(assessments)[i := a]
      ensures responses == old(responses) && reports == old(reports)
    {
      assessments := assessments[i := a];
    }

    /** `Response.objects.update_or_create(...)` */
    method UpdateOrCreate(aid: nat, k: ItemKey, ans: string)
      requires Valid()
      modifies this
      ensures Valid()
      ensures responses == Upsert(old(responses), aid, k, ans)
      ensures assessments == old(assessments) && reports == old(reports)
    {
      UpsertKeepsOnePerItem(responses, aid, k, ans);
      responses := Upsert(responses, aid, k, ans);
    }

    /** `Report.objects.create(...)`: refused, as an IntegrityError, when the
        assessment already has a report. */
    method InsertReport(r: Report) returns (ok: bool)
      requires Valid()
      modifies this
      ensures Valid()
      ensures ok <==> !HasReport(old(reports), r.assessmentId)
      ensures reports == if ok then old(reports) + [r] else old(reports)
      ensures assessments == old(assessments) && responses == old(responses)
    {
      ok := !HasReport(reports, r.assessmentId);
      if ok {
        reports := reports + [r];
      }
    }
  }
}
