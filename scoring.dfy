/** Scoring an assessment and writing its report (assessments/scoring.py):
    every response row of the assessment is rescored and saved, the scores
    are summed into a total, per-section and per-skill buckets, and one
    Report row is inserted. */
module Scoring {
  import opened Wrappers
  import opened Text
  import opened AssessmentModels

  const McqPoints: int := 10
  const PlaceholderPoints: int := 5

  /** The key a missing per-skill table is replaced by. */
  const NoSkills: string := "No skills"

  const TasksSection: string := "tasks"

  /** The buckets `per_section` starts with. */
  const InitialSections: map<string, int> := map["technical" := 0, "hr" := 0, "aptitude" := 0]

  /** `str(x).strip().lower()` */
  function Normalize(s: string): string {
    Lower(Strip(s))
  }

  /** `d.get(k, 0.0)` */
  function Get(m: map<string, int>, k: string): int {
    if k in m then m[k] else 0
  }

  /** `m[k] = m.get(k, 0.0) + v` */
  function AddTo(m: map<string, int>, k: string, v: int): map<string, int> {
    m[k := Get(m, k) + v]
  }

  predicate IsQuestionRow(r: Response, aid: nat) {
    r.assessmentId == aid && r.refType == QuestionRef
  }

  predicate IsTaskRow(r: Response, aid: nat) {
    r.assessmentId == aid && r.refType == TaskRef
  }

  /** `q_map.get(r.ref_id)`: the active question with that id.  Ids are the
      table's primary key, so at most one question has a given id. */
  function FindActive(bank: seq<Question>, id: nat): (r: Option<Question>)
    ensures r.Some? ==> r.value in bank && r.value.active && r.value.id == id
    ensures r.None? ==> forall q :: q in bank && q.id == id ==> !q.active
    decreases |bank|
  {
    if bank == [] then None
    else if bank[0].active && bank[0].id == id then Some(bank[0])
    else FindActive(bank[1..], id)
  }

  /** The question a question row is scored against: its active question,
      when that question is an mcq, short or code question.  Rows whose
      question is missing, inactive or of another type are skipped. */
  function ScoredQuestion(r: Response, bank: seq<Question>): Option<Question> {
    match FindActive(bank, r.refId)
    case None => None
    case Some(q) => if q.qtype == "mcq" || q.qtype == "short" || q.qtype == "code" then Some(q) else None
  }

  predicate McqCorrect(r: Response, q: Question) {
    Normalize(r.answer) == Normalize(q.answerKey)
  }

  function QuestionPoints(r: Response, q: Question): int {
    if q.qtype == "mcq" then (if McqCorrect(r, q) then McqPoints else 0) else PlaceholderPoints
  }

  /** A row of the assessment after scoring: an mcq row gets `is_correct`
      and its score, a short or code row and every task row the placeholder
      score, a skipped row stays as it was. */
  function Rescore(r: Response, bank: seq<Question>): (s: Response)
    ensures SameItem(s, r) && s.answer == r.answer
  {
    if r.refType == TaskRef then r.(score := PlaceholderPoints)
    else match ScoredQuestion(r, bank)
      case None => r
      case Some(q) =>
        if q.qtype == "mcq" then r.(isCorrect := Some(McqCorrect(r, q)), score := QuestionPoints(r, q))
        else r.(score := QuestionPoints(r, q))
  }

  /** The response table once every row of the assessment has been scored. */
  function RescoreRows(rows: seq<Response>, aid: nat, bank: seq<Question>): (t: seq<Response>)
    ensures |t| == |rows|
  {
    seq(|rows|, j requires 0 <= j < |rows| => if rows[j].assessmentId == aid then Rescore(rows[j], bank) else rows[j])
  }

  /** The scoring rules for one row. */
  lemma RescoreRules(r: Response, bank: seq<Question>)
    ensures r.refType == TaskRef ==> Rescore(r, bank).score == PlaceholderPoints
    ensures r.refType == QuestionRef && ScoredQuestion(r, bank).None? ==> Rescore(r, bank) == r
    ensures r.refType == QuestionRef && ScoredQuestion(r, bank).Some? ==>
              var q := ScoredQuestion(r, bank).value;
              && (q.qtype == "mcq" ==>
                    && (Rescore(r, bank).score == McqPoints <==> Normalize(r.answer) == Normalize(q.answerKey))
                    && (Rescore(r, bank).score == McqPoints || Rescore(r, bank).score == 0)
                    && Rescore(r, bank).isCorrect == Some(Rescore(r, bank).score == McqPoints))
              && (q.qtype != "mcq" ==> Rescore(r, bank).score == PlaceholderPoints && Rescore(r, bank).isCorrect == r.isCorrect)
  {
  }

  /** Only rows of the scored assessment change, and none changes its key or
      its answer. */
  lemma RescoreRowsFrame(rows: seq<Response>, aid: nat, bank: seq<Question>)
    ensures forall j :: 0 <= j < |rows| && rows[j].assessmentId != aid ==> RescoreRows(rows, aid, bank)[j] == rows[j]
    ensures forall j :: 0 <= j < |rows| ==>
              SameItem(RescoreRows(rows, aid, bank)[j], rows[j]) && RescoreRows(rows, aid, bank)[j].answer == rows[j].answer
    ensures OneResponsePerItem(rows) ==> OneResponsePerItem(RescoreRows(rows, aid, bank))
  {
  }

  // ---------------------------------------------------------------- accumulators

  /** What one row adds to the total and to its question's buckets. */
  function Contribution(r: Response, aid: nat, bank: seq<Question>): int {
    if IsQuestionRow(r, aid) && ScoredQuestion(r, bank).Some? then QuestionPoints(r, ScoredQuestion(r, bank).value) else 0
  }

  function QuestionTotal(rows: seq<Response>, aid: nat, bank: seq<Question>): int
    decreases |rows|
  {
    if rows == [] then 0
    else QuestionTotal(rows[..|rows| - 1], aid, bank) + Contribution(rows[|rows| - 1], aid, bank)
  }

  function QuestionCount(rows: seq<Response>, aid: nat): nat
    decreases |rows|
  {
    if rows == [] then 0
    else QuestionCount(rows[..|rows| - 1], aid) + (if IsQuestionRow(rows[|rows| - 1], aid) then 1 else 0)
  }

  function TaskCount(rows: seq<Response>, aid: nat): nat
    decreases |rows|
  {
    if rows == [] then 0
    else TaskCount(rows[..|rows| - 1], aid) + (if IsTaskRow(rows[|rows| - 1], aid) then 1 else 0)
  }

  /** `per_skill[s] = per_skill.get(s, 0.0) + pts` for every skill `s`. */
  function Credit(m: map<string, int>, skills: set<string>, pts: int): map<string, int> {
    map k | k in m.Keys + skills :: Get(m, k) + (if k in skills then pts else 0)
  }

  /** What one row does to `per_skill`. */
  function SkillStep(m: map<string, int>, r: Response, aid: nat, bank: seq<Question>): map<string, int> {
    if IsQuestionRow(r, aid) && ScoredQuestion(r, bank).Some? then
      Credit(m, ScoredQuestion(r, bank).value.skills, QuestionPoints(r, ScoredQuestion(r, bank).value))
    else m
  }

  /** `per_skill` after the question rows among `rows`. */
  function SkillMap(rows: seq<Response>, aid: nat, bank: seq<Question>): map<string, int>
    decreases |rows|
  {
    if rows == [] then map[]
    else SkillStep(SkillMap(rows[..|rows| - 1], aid, bank), rows[|rows| - 1], aid, bank)
  }

  /** What one row does to `per_section`. */
  function SectionStep(m: map<string, int>, r: Response, aid: nat, bank: seq<Question>): map<string, int> {
    if IsQuestionRow(r, aid) && ScoredQuestion(r, bank).Some? then
      AddTo(m, ScoredQuestion(r, bank).value.section, QuestionPoints(r, ScoredQuestion(r, bank).value))
    else m
  }

  /** `per_section` after the question rows among `rows`. */
  function QuestionSections(rows: seq<Response>, aid: nat, bank: seq<Question>): map<string, int>
    decreases |rows|
  {
    if rows == [] then InitialSections
    else SectionStep(QuestionSections(rows[..|rows| - 1], aid, bank), rows[|rows| - 1], aid, bank)
  }

  /** `per_section` after the task rows among `rows`, starting from `m`. */
  function TaskSections(m: map<string, int>, rows: seq<Response>, aid: nat): map<string, int>
    decreases |rows|
  {
    if rows == [] then m
    else
      var m' := TaskSections(m, rows[..|rows| - 1], aid);
      if IsTaskRow(rows[|rows| - 1], aid) then AddTo(m', TasksSection, PlaceholderPoints) else m'
  }

  /** The Report row one scoring run creates, from the table as it was. */
  function ReportFor(rows: seq<Response>, aid: nat, bank: seq<Question>): Report {
    var total := QuestionTotal(rows, aid, bank) + PlaceholderPoints * TaskCount(rows, aid);
    var skills := SkillMap(rows, aid, bank);
    Report(aid, total,
           if |skills| == 0 then map[NoSkills := 0] else skills,
           TaskSections(QuestionSections(rows, aid, bank), rows, aid),
           Summary(total, McqPoints * QuestionCount(rows, aid) + PlaceholderPoints * TaskCount(rows, aid)))
  }

  // ---------------------------------------------------------------- reference sums

  /** What a row adds to the bucket of skill `s`: its full score when its
      question carries `s`. */
  function SkillContribution(r: Response, aid: nat, bank: seq<Question>, s: string): int {
    if IsQuestionRow(r, aid) && ScoredQuestion(r, bank).Some? && s in ScoredQuestion(r, bank).value.skills
    then QuestionPoints(r, ScoredQuestion(r, bank).value) else 0
  }

  function SkillSum(rows: seq<Response>, aid: nat, bank: seq<Question>, s: string): int
    decreases |rows|
  {
    if rows == [] then 0 else SkillSum(rows[..|rows| - 1], aid, bank, s) + SkillContribution(rows[|rows| - 1], aid, bank, s)
  }

  /** `r` is a scored question row of the assessment whose question
      carries skill `s`. */
  predicate RowTags(r: Response, aid: nat, bank: seq<Question>, s: string) {
    IsQuestionRow(r, aid) && ScoredQuestion(r, bank).Some? && s in ScoredQuestion(r, bank).value.skills
  }

  /** Some scored question row of the assessment carries skill `s`. */
  predicate SkillTagged(rows: seq<Response>, aid: nat, bank: seq<Question>, s: string) {
    exists j :: 0 <= j < |rows| && RowTags(rows[j], aid, bank, s)
  }

  function SectionContribution(r: Response, aid: nat, bank: seq<Question>, k: string): int {
    if IsQuestionRow(r, aid) && ScoredQuestion(r, bank).Some? && ScoredQuestion(r, bank).value.section == k
    then QuestionPoints(r, ScoredQuestion(r, bank).value) else 0
  }

  function SectionSum(rows: seq<Response>, aid: nat, bank: seq<Question>, k: string): int
    decreases |rows|
  {
    if rows == [] then 0 else SectionSum(rows[..|rows| - 1], aid, bank, k) + SectionContribution(rows[|rows| - 1], aid, bank, k)
  }

  /** `r` is a scored question row of the assessment whose question is in
      section `k`. */
  predicate RowInSection(r: Response, aid: nat, bank: seq<Question>, k: string) {
    IsQuestionRow(r, aid) && ScoredQuestion(r, bank).Some? && ScoredQuestion(r, bank).value.section == k
  }

  /** Some scored question row of the assessment has a question in section `k`. */
  predicate SectionHit(rows: seq<Response>, aid: nat, bank: seq<Question>, k: string) {
    exists j :: 0 <= j < |rows| && RowInSection(rows[j], aid, bank, k)
  }

  lemma PrefixIndex(rows: seq<Response>, j: nat)
    requires j < |rows| - 1
    ensures rows[..|rows| - 1][j] == rows[j]
  {
  }

  /** The score of a question row is between 0 and 10. */
  lemma ContributionBounds(r: Response, aid: nat, bank: seq<Question>)
    ensures 0 <= Contribution(r, aid, bank) <= (if IsQuestionRow(r, aid) then McqPoints else 0)
  {
  }

  /** The question total is at least 0 and at most 10 per question row. */
  lemma {:induction false} QuestionTotalBounds(rows: seq<Response>, aid: nat, bank: seq<Question>)
    ensures 0 <= QuestionTotal(rows, aid, bank) <= McqPoints * QuestionCount(rows, aid)
    decreases |rows|
  {
    if rows != [] {
      QuestionTotalBounds(rows[..|rows| - 1], aid, bank);
      ContributionBounds(rows[|rows| - 1], aid, bank);
    }
  }

  /** The reported total never exceeds the reported maximum, and the summary
      carries the same total as the report. */
  lemma TotalAtMostMax(rows: seq<Response>, aid: nat, bank: seq<Question>)
    ensures 0 <= ReportFor(rows, aid, bank).totalScore <= ReportFor(rows, aid, bank).summary.outOf
    ensures ReportFor(rows, aid, bank).summary.total == ReportFor(rows, aid, bank).totalScore
  {
    QuestionTotalBounds(rows, aid, bank);
  }

  /** A row whose stored score enters the total: a task row, or a question
      row whose question is active and of a scored type. */
  predicate CountedRow(r: Response, aid: nat, bank: seq<Question>) {
    (IsQuestionRow(r, aid) && ScoredQuestion(r, bank).Some?) || IsTaskRow(r, aid)
  }

  /** The sum of the `score` column over the counted rows of the table. */
  function StoredTotal(rows: seq<Response>, aid: nat, bank: seq<Question>): int
    decreases |rows|
  {
    if rows == [] then 0
    else StoredTotal(rows[..|rows| - 1], aid, bank)
         + (if CountedRow(rows[|rows| - 1], aid, bank) then rows[|rows| - 1].score else 0)
  }

  /** One row's part in `StoredTotal` after rescoring is its part in the
      report's total before. */
  lemma RescoredTerm(r: Response, aid: nat, bank: seq<Question>)
    ensures var s := if r.assessmentId == aid then Rescore(r, bank) else r;
            (if CountedRow(s, aid, bank) then s.score else 0)
            == Contribution(r, aid, bank) + (if IsTaskRow(r, aid) then PlaceholderPoints else 0)
  {
    if r.assessmentId == aid {
      assert ScoredQuestion(Rescore(r, bank), bank) == ScoredQuestion(r, bank);
    }
  }

  lemma {:induction false} StoredTotalRescored(rows: seq<Response>, aid: nat, bank: seq<Question>)
    ensures StoredTotal(RescoreRows(rows, aid, bank), aid, bank)
            == QuestionTotal(rows, aid, bank) + PlaceholderPoints * TaskCount(rows, aid)
    decreases |rows|
  {
    if rows != [] {
      var n := |rows| - 1;
      var t := RescoreRows(rows, aid, bank);
      assert t[..n] == RescoreRows(rows[..n], aid, bank);
      StoredTotalRescored(rows[..n], aid, bank);
      RescoredTerm(rows[n], aid, bank);
    }
  }

  /** The report's total is the sum of the scores the same call writes back
      to the response rows it counts. */
  lemma TotalIsStoredScores(rows: seq<Response>, aid: nat, bank: seq<Question>)
    ensures StoredTotal(RescoreRows(rows, aid, bank), aid, bank) == ReportFor(rows, aid, bank).totalScore
  {
    StoredTotalRescored(rows, aid, bank);
  }

  /** What crediting `skills` with `pts` does to one key. */
  lemma CreditGet(m: map<string, int>, skills: set<string>, pts: int, k: string)
    ensures k in Credit(m, skills, pts) <==> k in m || k in skills
    ensures Get(Credit(m, skills, pts), k) == Get(m, k) + (if k in skills then pts else 0)
  {
  }

  /** What one row does to the bucket of skill `s`. */
  lemma SkillStepGet(m: map<string, int>, r: Response, aid: nat, bank: seq<Question>, s: string)
    ensures s in SkillStep(m, r, aid, bank) <==> s in m || RowTags(r, aid, bank, s)
    ensures Get(SkillStep(m, r, aid, bank), s) == Get(m, s) + SkillContribution(r, aid, bank, s)
  {
    if IsQuestionRow(r, aid) && ScoredQuestion(r, bank).Some? {
      CreditGet(m, ScoredQuestion(r, bank).value.skills, QuestionPoints(r, ScoredQuestion(r, bank).value), s);
    }
  }

  lemma SkillTaggedSnoc(rows: seq<Response>, aid: nat, bank: seq<Question>, s: string)
    requires rows != []
    ensures SkillTagged(rows, aid, bank, s) <==>
              SkillTagged(rows[..|rows| - 1], aid, bank, s) || RowTags(rows[|rows| - 1], aid, bank, s)
  {
    var n := |rows| - 1;
    if SkillTagged(rows[..n], aid, bank, s) {
      var j :| 0 <= j < n && RowTags(rows[..n][j], aid, bank, s);
      PrefixIndex(rows, j);
    }
    if SkillTagged(rows, aid, bank, s) {
      var j :| 0 <= j < |rows| && RowTags(rows[j], aid, bank, s);
      if j < n {
        PrefixIndex(rows, j);
      }
    }
  }

  /** One skill's bucket, by induction over the rows. */
  lemma {:induction false} SkillBucket(rows: seq<Response>, aid: nat, bank: seq<Question>, s: string)
    ensures s in SkillMap(rows, aid, bank) <==> SkillTagged(rows, aid, bank, s)
    ensures Get(SkillMap(rows, aid, bank), s) == SkillSum(rows, aid, bank, s)
    decreases |rows|
  {
    if rows != [] {
      var n := |rows| - 1;
      SkillBucket(rows[..n], aid, bank, s);
      SkillStepGet(SkillMap(rows[..n], aid, bank), rows[n], aid, bank, s);
      SkillTaggedSnoc(rows, aid, bank, s);
    }
  }

  /** A skill's bucket holds the full score of every scored question row
      carrying that skill (scores are not shared between skills), and there
      is a bucket exactly for the skills of scored questions. */
  lemma SkillMapMeaning(rows: seq<Response>, aid: nat, bank: seq<Question>)
    ensures forall s :: s in SkillMap(rows, aid, bank) <==> SkillTagged(rows, aid, bank, s)
    ensures forall s :: s in SkillMap(rows, aid, bank) ==> SkillMap(rows, aid, bank)[s] == SkillSum(rows, aid, bank, s)
  {
    forall s ensures (s in SkillMap(rows, aid, bank) <==> SkillTagged(rows, aid, bank, s))
                     && Get(SkillMap(rows, aid, bank), s) == SkillSum(rows, aid, bank, s)
    {
      SkillBucket(rows, aid, bank, s);
    }
  }

  /** What one row does to the bucket of section `k`. */
  lemma SectionStepGet(m: map<string, int>, r: Response, aid: nat, bank: seq<Question>, k: string)
    ensures k in SectionStep(m, r, aid, bank) <==> k in m || RowInSection(r, aid, bank, k)
    ensures Get(SectionStep(m, r, aid, bank), k) == Get(m, k) + SectionContribution(r, aid, bank, k)
  {
  }

  lemma SectionHitSnoc(rows: seq<Response>, aid: nat, bank: seq<Question>, k: string)
    requires rows != []
    ensures SectionHit(rows, aid, bank, k) <==>
              SectionHit(rows[..|rows| - 1], aid, bank, k) || RowInSection(rows[|rows| - 1], aid, bank, k)
  {
    var n := |rows| - 1;
    if SectionHit(rows[..n], aid, bank, k) {
      var j :| 0 <= j < n && RowInSection(rows[..n][j], aid, bank, k);
      PrefixIndex(rows, j);
    }
    if SectionHit(rows, aid, bank, k) {
      var j :| 0 <= j < |rows| && RowInSection(rows[j], aid, bank, k);
      if j < n {
        PrefixIndex(rows, j);
      }
    }
  }

  /** One section's bucket, by induction over the rows. */
  lemma {:induction false} SectionBucket(rows: seq<Response>, aid: nat, bank: seq<Question>, k: string)
    ensures k in QuestionSections(rows, aid, bank) <==> (k in InitialSections || SectionHit(rows, aid, bank, k))
    ensures Get(QuestionSections(rows, aid, bank), k) == SectionSum(rows, aid, bank, k)
    decreases |rows|
  {
    if rows != [] {
      var n := |rows| - 1;
      SectionBucket(rows[..n], aid, bank, k);
      SectionStepGet(QuestionSections(rows[..n], aid, bank), rows[n], aid, bank, k);
      SectionHitSnoc(rows, aid, bank, k);
    }
  }

  /** Every section bucket is the sum of the scores of the scored question
      rows in that section; the three initial buckets are always present and
      any other bucket only for a section some scored question is in. */
  lemma QuestionSectionsMeaning(rows: seq<Response>, aid: nat, bank: seq<Question>)
    ensures forall k :: k in QuestionSections(rows, aid, bank) <==> (k in InitialSections || SectionHit(rows, aid, bank, k))
    ensures forall k :: k in QuestionSections(rows, aid, bank) ==> QuestionSections(rows, aid, bank)[k] == SectionSum(rows, aid, bank, k)
  {
    forall k ensures (k in QuestionSections(rows, aid, bank) <==> (k in InitialSections || SectionHit(rows, aid, bank, k)))
                     && Get(QuestionSections(rows, aid, bank), k) == SectionSum(rows, aid, bank, k)
    {
      SectionBucket(rows, aid, bank, k);
    }
  }

  /** The task loop adds 5 per task row under "tasks", and creates that key
      only when there is a task row. */
  lemma {:induction false} TaskSectionsClosedForm(m: map<string, int>, rows: seq<Response>, aid: nat)
    ensures TaskSections(m, rows, aid) ==
              if TaskCount(rows, aid) == 0 then m
              else AddTo(m, TasksSection, PlaceholderPoints * TaskCount(rows, aid))
    decreases |rows|
  {
    if rows != [] {
      TaskSectionsClosedForm(m, rows[..|rows| - 1], aid);
    }
  }

  /** The stored `per_section`: the keys technical, hr and aptitude always,
      the section of every scored question, and "tasks" when there is a task
      row; each bucket sums its questions' scores, plus 5 per task row for
      "tasks". */
  lemma PerSectionMeaning(rows: seq<Response>, aid: nat, bank: seq<Question>)
    ensures forall k :: k in ReportFor(rows, aid, bank).perSection <==>
              k in InitialSections || SectionHit(rows, aid, bank, k) || (k == TasksSection && TaskCount(rows, aid) > 0)
    ensures forall k :: k in ReportFor(rows, aid, bank).perSection ==>
              ReportFor(rows, aid, bank).perSection[k] ==
                SectionSum(rows, aid, bank, k) + (if k == TasksSection then PlaceholderPoints * TaskCount(rows, aid) else 0)
  {
    var m := QuestionSections(rows, aid, bank);
    TaskSectionsClosedForm(m, rows, aid);
    forall k {
      SectionBucket(rows, aid, bank, k);
    }
  }

  /** The stored `per_skill`: the skill buckets when there is one, and
      otherwise the single entry "No skills" with 0. */
  lemma PerSkillMeaning(rows: seq<Response>, aid: nat, bank: seq<Question>)
    ensures (exists s :: SkillTagged(rows, aid, bank, s)) ==>
              forall s :: (s in ReportFor(rows, aid, bank).perSkill <==> SkillTagged(rows, aid, bank, s))
                          && (s in ReportFor(rows, aid, bank).perSkill ==> ReportFor(rows, aid, bank).perSkill[s] == SkillSum(rows, aid, bank, s))
    ensures (forall s :: !SkillTagged(rows, aid, bank, s)) ==> ReportFor(rows, aid, bank).perSkill == map[NoSkills := 0]
  {
    SkillMapMeaning(rows, aid, bank);
    var m := SkillMap(rows, aid, bank);
    if exists s :: SkillTagged(rows, aid, bank, s) {
      var s :| SkillTagged(rows, aid, bank, s);
      assert s in m;
      assert |m| != 0;
    } else {
      assert m.Keys == {};
    }
  }

  lemma NormalizeSpacedLower()
    ensures Normalize(" b ") == "b"
  {
    assert TrimStart(" b ") == "b " by {
      assert IsSpace(' ') && !IsSpace('b');
      assert " b "[1..] == "b ";
    }
    assert TrimEnd("b ") == "b" by {
      assert "b "[..1] == "b";
    }
    assert Lower("b") == "b";
  }

  lemma NormalizeUpper()
    ensures Normalize("B") == "b"
  {
    assert !IsSpace('B');
    assert TrimStart("B") == "B" && TrimEnd("B") == "B";
    assert LowerChar('B') == 'b';
    assert Lower("B")[0] == 'b';
    assert Lower("B") == "b";
  }

  /** An answer " b " to an mcq question whose key is "B" is correct. */
  lemma McqTrimmedCaseInsensitive(aid: nat, q: Question)
    requires q.active && q.qtype == "mcq" && q.answerKey == "B"
    ensures Rescore(Response(aid, QuestionRef, q.id, " b ", None, 0), [q]).score == McqPoints
    ensures Rescore(Response(aid, QuestionRef, q.id, " b ", None, 0), [q]).isCorrect == Some(true)
  {
    var r := Response(aid, QuestionRef, q.id, " b ", None, 0);
    assert FindActive([q], q.id) == Some(q);
    assert ScoredQuestion(r, [q]) == Some(q);
    assert McqCorrect(r, q) by {
      NormalizeSpacedLower();
      NormalizeUpper();
    }
  }

  /** One correct mcq answer to a question tagged with two skills credits
      the full 10 to each of them. */
  lemma FullScoreToEachSkill(aid: nat, q: Question, r: Response)
    requires q.active && q.qtype == "mcq" && q.skills == {"python", "sql"}
    requires IsQuestionRow(r, aid) && r.refId == q.id && McqCorrect(r, q)
    ensures SkillMap([r], aid, [q]).Keys == {"python", "sql"}
    ensures SkillMap([r], aid, [q])["python"] == McqPoints
    ensures SkillMap([r], aid, [q])["sql"] == McqPoints
    ensures QuestionTotal([r], aid, [q]) == McqPoints
  {
    assert FindActive([q], q.id) == Some(q);
    assert ScoredQuestion(r, [q]) == Some(q);
    assert QuestionPoints(r, q) == McqPoints;
    assert [r][..0] == [];
    assert SkillMap([r], aid, [q]) == Credit(map[], q.skills, McqPoints);
    CreditGet(map[], q.skills, McqPoints, "python");
    CreditGet(map[], q.skills, McqPoints, "sql");
  }

  // ---------------------------------------------------------------- the scoring run

  /** `r` is `m` with `pts` added to the bucket of every skill in `skills`,
      a missing bucket counting as 0. */
  ghost predicate Credited(r: map<string, int>, m: map<string, int>, skills: set<string>, pts: int) {
    && (forall k :: k in r <==> k in m || k in skills)
    && (forall k :: k in r ==> r[k] == Get(m, k) + (if k in skills then pts else 0))
  }

  lemma CreditedIsCredit(r: map<string, int>, m: map<string, int>, skills: set<string>, pts: int)
    requires Credited(r, m, skills, pts)
    ensures r == Credit(m, skills, pts)
  {
  }

  lemma CreditedStart(m: map<string, int>, pts: int)
    ensures Credited(m, m, {}, pts)
  {
  }

  /** Crediting one more skill keeps the invariant. */
  lemma CreditedStep(r: map<string, int>, m: map<string, int>, done: set<string>, s: string, pts: int)
    requires Credited(r, m, done, pts) && s !in done
    ensures Credited(r[s := Get(r, s) + pts], m, done + {s}, pts)
  {
    var r' := r[s := Get(r, s) + pts];
    assert Get(r, s) == Get(m, s);
    forall k | k in r' ensures r'[k] == Get(m, k) + (if k in done + {s} then pts else 0) {
      if k != s {
        assert r'[k] == r[k];
      }
    }
  }

  /** `for s in q.skills.all(): per_skill[s.name] = per_skill.get(s.name, 0.0) + r.score` */
  method CreditSkills(m: map<string, int>, skills: set<string>, pts: int) returns (r: map<string, int>)
    ensures r == Credit(m, skills, pts)
  {
    r := m;
    var left := skills;
    ghost var done: set<string> := {};
    CreditedStart(m, pts);
    while left != {}
      invariant left <= skills && done == skills - left
      invariant Credited(r, m, done, pts)
      decreases |left|
    {
      var s :| s in left;
      CreditedStep(r, m, done, s, pts);
      r := r[s := Get(r, s) + pts];
      left := left - {s};
      done := done + {s};
    }
    CreditedIsCredit(r, m, skills, pts);
  }

  predicate HasQuestionRows(rows: seq<Response>, aid: nat) {
    exists j :: 0 <= j < |rows| && IsQuestionRow(rows[j], aid)
  }

  /** The table after the first `n` rows have gone through the question loop. */
  function AfterQuestions(rows: seq<Response>, aid: nat, bank: seq<Question>, n: nat): (t: seq<Response>)
    ensures |t| == |rows|
  {
    seq(|rows|, j requires 0 <= j < |rows| => if j < n && IsQuestionRow(rows[j], aid) then Rescore(rows[j], bank) else rows[j])
  }

  /** The table after the question loop and the first `n` rows of the task loop. */
  function AfterTasks(rows: seq<Response>, aid: nat, bank: seq<Question>, n: nat): (t: seq<Response>)
    ensures |t| == |rows|
  {
    seq(|rows|, j requires 0 <= j < |rows| =>
      if IsQuestionRow(rows[j], aid) || (j < n && IsTaskRow(rows[j], aid)) then Rescore(rows[j], bank) else rows[j])
  }

  /** With no question row the question loop has nothing to add. */
  lemma {:induction false} NoQuestionRows(rows: seq<Response>, aid: nat, bank: seq<Question>)
    requires !HasQuestionRows(rows, aid)
    ensures QuestionTotal(rows, aid, bank) == 0 && QuestionCount(rows, aid) == 0
    ensures SkillMap(rows, aid, bank) == map[] && QuestionSections(rows, aid, bank) == InitialSections
    decreases |rows|
  {
    if rows != [] {
      var front := rows[..|rows| - 1];
      assert !HasQuestionRows(front, aid) by {
        forall j | 0 <= j < |front| ensures !IsQuestionRow(front[j], aid) {
          PrefixIndex(rows, j);
        }
      }
      NoQuestionRows(front, aid, bank);
    }
  }

  /** What the question loop's `i`-th iteration adds to the total, the row
      count, the skill buckets and the section buckets. */
  lemma QuestionRowStep(rows: seq<Response>, aid: nat, bank: seq<Question>, i: nat)
    requires i < |rows|
    ensures QuestionTotal(rows[..i + 1], aid, bank) == QuestionTotal(rows[..i], aid, bank) + Contribution(rows[i], aid, bank)
    ensures QuestionCount(rows[..i + 1], aid) == QuestionCount(rows[..i], aid) + (if IsQuestionRow(rows[i], aid) then 1 else 0)
    ensures SkillMap(rows[..i + 1], aid, bank) == SkillStep(SkillMap(rows[..i], aid, bank), rows[i], aid, bank)
    ensures QuestionSections(rows[..i + 1], aid, bank) == SectionStep(QuestionSections(rows[..i], aid, bank), rows[i], aid, bank)
  {
    var p := rows[..i + 1];
    assert p[..|p| - 1] == rows[..i] && p[|p| - 1] == rows[i];
  }

  lemma AfterQuestionsStep(rows: seq<Response>, aid: nat, bank: seq<Question>, i: nat)
    requires i < |rows|
    ensures AfterQuestions(rows, aid, bank, i + 1) ==
              if IsQuestionRow(rows[i], aid) then AfterQuestions(rows, aid, bank, i)[i := Rescore(rows[i], bank)]
              else AfterQuestions(rows, aid, bank, i)
  {
  }

  /** The scoring part of one iteration of the question loop: an mcq row is
      marked correct or not and gets 10 or 0, a short or code row gets 5; a
      row whose question is missing, inactive or of another type is skipped:
      it comes back as it was, adds 0 and has no question to credit. */
  method ScoreQuestionRow(r: Response, bank: seq<Question>) returns (scoredBy: Option<Question>, row: Response, pts: int)
    requires r.refType == QuestionRef
    ensures scoredBy == ScoredQuestion(r, bank)
    ensures row == Rescore(r, bank)
    ensures pts == Contribution(r, r.assessmentId, bank)
  {
    scoredBy, row, pts := None, r, 0;
    var found := FindActive(bank, r.refId);
    if found.Some? {
      var q := found.value;
      if q.qtype == "mcq" {
        var correct := McqCorrect(r, q);
        pts := if correct then McqPoints else 0;
        scoredBy, row := Some(q), r.(isCorrect := Some(correct), score := pts);
      } else if q.qtype == "short" || q.qtype == "code" {
        pts := PlaceholderPoints;
        scoredBy, row := Some(q), r.(score := pts);
      }
    }
  }

  /** One iteration of the question loop on a row of the assessment: the
      row is scored, and its score goes to its question's section and to each
      of the question's skills. */
  method QuestionIteration(r: Response, bank: seq<Question>, perSkill0: map<string, int>, perSection0: map<string, int>)
    returns (row: Response, pts: int, perSkill: map<string, int>, perSection: map<string, int>)
    requires r.refType == QuestionRef
    ensures row == Rescore(r, bank)
    ensures pts == Contribution(r, r.assessmentId, bank)
    ensures perSkill == SkillStep(perSkill0, r, r.assessmentId, bank)
    ensures perSection == SectionStep(perSection0, r, r.assessmentId, bank)
  {
    var scoredBy;
    scoredBy, row, pts := ScoreQuestionRow(r, bank);
    perSkill, perSection := perSkill0, perSection0;
    if scoredBy.Some? {
      var q := scoredBy.value;
      perSection := AddTo(perSection, q.section, pts);
      perSkill := CreditSkills(perSkill, q.skills, pts);
    }
  }

  /** The loop over the assessment's question rows: each scored row is
      saved with its new score, and its score is added to the total, its
      question's section bucket and each of its skills' buckets. */
  method ScoreQuestionRows(db: Store, aid: nat, bank: seq<Question>)
    returns (total: int, questionRows: nat, perSkill: map<string, int>, perSection: map<string, int>)
    modifies db
    ensures db.assessments == old(db.assessments) && db.reports == old(db.reports)
    ensures db.responses == AfterQuestions(old(db.responses), aid, bank, |old(db.responses)|)
    ensures total == QuestionTotal(old(db.responses), aid, bank)
    ensures questionRows == QuestionCount(old(db.responses), aid)
    ensures perSkill == SkillMap(old(db.responses), aid, bank)
    ensures perSection == QuestionSections(old(db.responses), aid, bank)
  {
    var rows := db.responses;
    total, questionRows, perSkill, perSection := 0, 0, map[], InitialSections;
    for i := 0 to |rows|
      invariant db.assessments == old(db.assessments) && db.reports == old(db.reports)
      invariant db.responses == AfterQuestions(rows, aid, bank, i)
      invariant total == QuestionTotal(rows[..i], aid, bank)
      invariant questionRows == QuestionCount(rows[..i], aid)
      invariant perSkill == SkillMap(rows[..i], aid, bank)
      invariant perSection == QuestionSections(rows[..i], aid, bank)
    {
      var r := rows[i];
      QuestionRowStep(rows, aid, bank, i);
      AfterQuestionsStep(rows, aid, bank, i);
      if r.assessmentId == aid && r.refType == QuestionRef {
        questionRows := questionRows + 1;
        var row, pts;
        row, pts, perSkill, perSection := QuestionIteration(r, bank, perSkill, perSection);
        db.responses := db.responses[i := row];
        total := total + pts;
      }
    }
    assert rows[..|rows|] == rows;
  }

  /** The loop over the assessment's task rows: each is saved with the
      placeholder score, which is added to the total and to "tasks". */
  method ScoreTaskRows(db: Store, rows: seq<Response>, aid: nat, bank: seq<Question>, total0: int, perSection0: map<string, int>)
    returns (total: int, taskRows: nat, perSection: map<string, int>)
    requires db.responses == AfterQuestions(rows, aid, bank, |rows|)
    modifies db
    ensures db.assessments == old(db.assessments) && db.reports == old(db.reports)
    ensures db.responses == RescoreRows(rows, aid, bank)
    ensures total == total0 + PlaceholderPoints * TaskCount(rows, aid)
    ensures taskRows == TaskCount(rows, aid)
    ensures perSection == TaskSections(perSection0, rows, aid)
  {
    total, taskRows, perSection := total0, 0, perSection0;
    for i := 0 to |rows|
      invariant db.assessments == old(db.assessments) && db.reports == old(db.reports)
      invariant db.responses == AfterTasks(rows, aid, bank, i)
      invariant total == total0 + PlaceholderPoints * TaskCount(rows[..i], aid)
      invariant taskRows == TaskCount(rows[..i], aid)
      invariant perSection == TaskSections(perSection0, rows[..i], aid)
    {
      var r := rows[i];
      if r.assessmentId == aid && r.refType == TaskRef {
        taskRows := taskRows + 1;
        db.responses := db.responses[i := r.(score := PlaceholderPoints)];
        total := total + PlaceholderPoints;
        perSection := AddTo(perSection, TasksSection, PlaceholderPoints);
      }
      assert rows[..i + 1][..i] == rows[..i] && rows[..i + 1][i] == r;
    }
    assert rows[..|rows|] == rows;
    assert db.responses == RescoreRows(rows, aid, bank);
  }

  /** The two ways `score_and_generate_report` raises: the one-to-one
      Report insert is refused, or preparing the report e-mail (rendering
      its template, reading the recipients' addresses) raises after the
      Report was stored.  The sends themselves are silenced. */
  datatype ScoreError = ReportAlreadyExists | ReportMailFailed

  /** The scoring part of `score_and_generate_report`: rescores and saves
      every response row of the assessment and builds its Report. */
  method ScoreRows(db: Store, aid: nat, bank: seq<Question>) returns (report: Report)
    requires db.Valid()
    modifies db
    ensures db.Valid()
    ensures db.responses == RescoreRows(old(db.responses), aid, bank)
    ensures db.assessments == old(db.assessments) && db.reports == old(db.reports)
    ensures report == ReportFor(old(db.responses), aid, bank)
  {
    var rows := db.responses;
    var total, questionRows := 0, 0;
    var perSkill: map<string, int> := map[];
    var perSection := InitialSections;
    if !HasQuestionRows(rows, aid) {
      NoQuestionRows(rows, aid, bank);
      perSkill := map[NoSkills := 0];
      assert AfterQuestions(rows, aid, bank, |rows|) == rows;
    } else {
      total, questionRows, perSkill, perSection := ScoreQuestionRows(db, aid, bank);
    }
    var taskRows;
    total, taskRows, perSection := ScoreTaskRows(db, rows, aid, bank, total, perSection);
    RescoreRowsFrame(rows, aid, bank);
    var maxScore := McqPoints * questionRows + PlaceholderPoints * taskRows;
    report := Report(aid, total, if |perSkill| == 0 then map[NoSkills := 0] else perSkill, perSection,
                     Summary(total, maxScore));
  }

  /** `score_and_generate_report`: scores and saves every response row of
      the assessment, then inserts its Report, which fails when the
      assessment already has one (the saved scores stay).  Whether preparing
      the report e-mail succeeds is the input `mailPrepared`; when it does
      not, the call raises but the Report stays stored. */
  method Score(db: Store, aid: nat, bank: seq<Question>, mailPrepared: bool) returns (res: Result<Report, ScoreError>)
    requires db.Valid()
    modifies db
    ensures db.Valid()
    ensures db.responses == RescoreRows(old(db.responses), aid, bank)
    ensures db.assessments == old(db.assessments)
    ensures db.reports == if HasReport(old(db.reports), aid) then old(db.reports)
                          else old(db.reports) + [ReportFor(old(db.responses), aid, bank)]
    ensures res.Success? <==> !HasReport(old(db.reports), aid) && mailPrepared
    ensures res.Success? ==> res.value == ReportFor(old(db.responses), aid, bank)
    ensures res.Failure? ==> res.error == if HasReport(old(db.reports), aid) then ReportAlreadyExists else ReportMailFailed
    ensures HasReport(db.reports, aid)
  {
    var report := ScoreRows(db, aid, bank);
    var ok := db.InsertReport(report);
    if !ok {
      return Failure(ReportAlreadyExists);
    }
    assert db.reports[|db.reports| - 1].assessmentId == aid;
    if !mailPrepared {
      return Failure(ReportMailFailed);
    }
    res := Success(report);
  }
}
