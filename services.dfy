/** Selection and freezing (assessments/services.py): a blueprint's rules and
    a skill set become bounded lists of frozen questions and tasks, and a new
    session row is built from them.

    Randomness (`random.shuffle`, `order_by("?")`) is an input: for every pool
    the caller supplies a permutation of its positions, and every property
    below holds for all permutations. */
module Services {
  import opened Wrappers
  import opened AssessmentModels

  // ---------------------------------------------------------------- freezing

  function FreezeQuestion(q: Question): FrozenQuestion {
    FrozenQuestion(q.id, q.qtype, q.text, q.choices, q.language, q.starterCode, q.tests, q.section)
  }

  /** The fields a candidate may see. */
  predicate SameTestFacingFields(q: Question, q': Question) {
    && q.id == q'.id && q.qtype == q'.qtype && q.text == q'.text && q.choices == q'.choices
    && q.language == q'.language && q.starterCode == q'.starterCode && q.tests == q'.tests
    && q.section == q'.section
  }

  /** Two questions freeze alike exactly when they agree on the test-facing
      fields: the answer key (and skills, difficulty, active) never reach the
      payload, and none of the test-facing fields is lost. */
  lemma FreezeQuestionExactly(q: Question, q': Question)
    ensures FreezeQuestion(q) == FreezeQuestion(q') <==> SameTestFacingFields(q, q')
  {
  }

  function FreezeTask(t: Task): FrozenTask {
    FrozenTask(t.id, t.ttype, t.title, t.instructions, t.artifactType, t.rubric, t.maxScore)
  }

  predicate SameFrozenTaskFields(t: Task, t': Task) {
    && t.id == t'.id && t.ttype == t'.ttype && t.title == t'.title
    && t.instructions == t'.instructions && t.artifactType == t'.artifactType
    && t.rubric == t'.rubric && t.maxScore == t'.maxScore
  }

  /** Two tasks freeze alike exactly when they agree on id, ttype, title,
      instructions, artifact_type, rubric and max_score; in particular the
      rubric is copied. */
  lemma FreezeTaskExactly(t: Task, t': Task)
    ensures FreezeTask(t) == FreezeTask(t') <==> SameFrozenTaskFields(t, t')
  {
  }

  function FreezeAll(qs: seq<Question>): (fs: seq<FrozenQuestion>)
    ensures |fs| == |qs|
  {
    seq(|qs|, i requires 0 <= i < |qs| => FreezeQuestion(qs[i]))
  }

  function FreezeAllTasks(ts: seq<Task>): (fs: seq<FrozenTask>)
    ensures |fs| == |ts|
  {
    seq(|ts|, i requires 0 <= i < |ts| => FreezeTask(ts[i]))
  }

  ghost predicate FrozenFrom(f: FrozenQuestion, pool: seq<Question>) {
    exists q :: q in pool && FreezeQuestion(q) == f
  }

  ghost predicate FrozenTaskFrom(f: FrozenTask, pool: seq<Task>) {
    exists t :: t in pool && FreezeTask(t) == f
  }

  // ---------------------------------------------------------------- sequences

  /** A queryset filter over a table, in table order. */
  function Filter<T(!new)>(s: seq<T>, keep: T -> bool): (r: seq<T>)
    ensures |r| <= |s|
    ensures forall x :: x in r <==> x in s && keep(x)
    decreases |s|
  {
    if s == [] then [] else (if keep(s[0]) then [s[0]] else []) + Filter(s[1..], keep)
  }

  predicate DistinctBy<T>(s: seq<T>, key: T -> nat) {
    forall i, j :: 0 <= i < j < |s| ==> key(s[i]) != key(s[j])
  }

  function QuestionId(q: Question): nat { q.id }
  function TaskId(t: Task): nat { t.id }
  function FrozenId(f: FrozenQuestion): nat { f.id }
  function FrozenTaskId(f: FrozenTask): nat { f.id }

  /** In a table whose keys are distinct, equal keys mean the same row. */
  lemma SameKeySameMember<T>(s: seq<T>, key: T -> nat, x: T, y: T)
    requires DistinctBy(s, key) && x in s && y in s && key(x) == key(y)
    ensures x == y
  {
    var i :| 0 <= i < |s| && s[i] == x;
    var j :| 0 <= j < |s| && s[j] == y;
  }

  lemma DistinctTail<T>(s: seq<T>, key: T -> nat)
    requires s != [] && DistinctBy(s, key)
    ensures DistinctBy(s[1..], key)
  {
    forall i, j | 0 <= i < j < |s| - 1 ensures key(s[1..][i]) != key(s[1..][j]) {
      assert s[1..][i] == s[i + 1] && s[1..][j] == s[j + 1];
    }
  }

  lemma DistinctCons<T>(x: T, rest: seq<T>, key: T -> nat)
    requires DistinctBy(rest, key)
    requires forall y :: y in rest ==> key(y) != key(x)
    ensures DistinctBy([x] + rest, key)
  {
    var r := [x] + rest;
    forall i, j | 0 <= i < j < |r| ensures key(r[i]) != key(r[j]) {
      assert r[j] == rest[j - 1];
      if i > 0 {
        assert r[i] == rest[i - 1];
      }
    }
  }

  lemma {:induction false} FilterKeepsDistinct<T(!new)>(s: seq<T>, keep: T -> bool, key: T -> nat)
    requires DistinctBy(s, key)
    ensures DistinctBy(Filter(s, keep), key)
    decreases |s|
  {
    if s != [] {
      var rest := Filter(s[1..], keep);
      DistinctTail(s, key);
      FilterKeepsDistinct(s[1..], keep, key);
      if keep(s[0]) {
        forall y | y in rest ensures key(y) != key(s[0]) {
          var k :| 0 <= k < |s[1..]| && s[1..][k] == y;
          assert s[k + 1] == y;
        }
        DistinctCons(s[0], rest, key);
      }
    }
  }

  /** Two distinct-keyed lists with no key in common concatenate to a
      distinct-keyed list. */
  lemma ConcatKeepsDistinct<T>(a: seq<T>, b: seq<T>, key: T -> nat)
    requires DistinctBy(a, key) && DistinctBy(b, key)
    requires forall i, j :: 0 <= i < |a| && 0 <= j < |b| ==> key(a[i]) != key(b[j])
    ensures DistinctBy(a + b, key)
  {
    var c := a + b;
    forall i, j | 0 <= i < j < |c| ensures key(c[i]) != key(c[j]) {
      if j < |a| {
        assert c[i] == a[i] && c[j] == a[j];
      } else if i < |a| {
        assert c[i] == a[i] && c[j] == b[j - |a|];
      } else {
        assert c[i] == b[i - |a|] && c[j] == b[j - |a|];
      }
    }
  }

  /** The positions 0..n-1, each exactly once, in some order. */
  predicate IsPermutation(p: seq<nat>, n: nat) {
    && |p| == n
    && (forall i :: 0 <= i < n ==> p[i] < n)
    && (forall i, j :: 0 <= i < j < n ==> p[i] != p[j])
  }

  function Permute<T>(s: seq<T>, p: seq<nat>): (r: seq<T>)
    requires IsPermutation(p, |s|)
    ensures |r| == |s|
  {
    seq(|s|, i requires 0 <= i < |s| => s[p[i]])
  }

  function Min(a: nat, b: nat): nat {
    if a <= b then a else b
  }

  /** `pool` put in the order `p`, then cut to its first `k` items: the model
      of `shuffle(pool); pool[:k]` and of `order_by("?")[:k]`. */
  function Sample<T(!new)>(pool: seq<T>, p: seq<nat>, k: nat): (r: seq<T>)
    requires IsPermutation(p, |pool|)
    ensures |r| == Min(k, |pool|)
    ensures forall x :: x in r ==> x in pool
  {
    var shuffled := Permute(pool, p);
    assert forall i :: 0 <= i < |shuffled| ==> shuffled[i] == pool[p[i]];
    shuffled[..Min(k, |pool|)]
  }

  /** Sampling never repeats an item: distinct keys stay distinct. */
  lemma SampleKeepsDistinct<T(!new)>(pool: seq<T>, p: seq<nat>, k: nat, key: T -> nat)
    requires IsPermutation(p, |pool|) && DistinctBy(pool, key)
    ensures DistinctBy(Sample(pool, p, k), key)
  {
    var shuffled := Permute(pool, p);
    forall i, j | 0 <= i < j < |shuffled| ensures key(shuffled[i]) != key(shuffled[j]) {
      assert shuffled[i] == pool[p[i]] && shuffled[j] == pool[p[j]];
      assert p[i] != p[j];
      if p[i] < p[j] {
        assert key(pool[p[i]]) != key(pool[p[j]]);
      } else {
        assert key(pool[p[j]]) != key(pool[p[i]]);
      }
    }
    var r := Sample(pool, p, k);
    assert r == shuffled[..Min(k, |pool|)];
    forall i, j | 0 <= i < j < |r| ensures key(r[i]) != key(r[j]) {
      assert r[i] == shuffled[i] && r[j] == shuffled[j];
    }
  }

  lemma FreezeAllFrom(qs: seq<Question>, pool: seq<Question>)
    requires forall q :: q in qs ==> q in pool
    ensures forall i :: 0 <= i < |qs| ==> FrozenFrom(FreezeAll(qs)[i], pool)
  {
    forall i | 0 <= i < |qs| ensures FrozenFrom(FreezeAll(qs)[i], pool) {
      assert qs[i] in qs;
    }
  }

  lemma FreezeAllKeepsDistinct(qs: seq<Question>)
    requires DistinctBy(qs, QuestionId)
    ensures DistinctBy(FreezeAll(qs), FrozenId)
  {
    var fs := FreezeAll(qs);
    forall i, j | 0 <= i < j < |fs| ensures FrozenId(fs[i]) != FrozenId(fs[j]) {
      assert QuestionId(qs[i]) != QuestionId(qs[j]);
    }
  }

  // ---------------------------------------------------------------- internship

  const DefaultMcqTotal: nat := 12
  const DefaultShortTotal: nat := 2

  /** `rules.get("mcq", 12)` */
  function McqTotal(rules: RuleDocument): nat { rules.mcq.GetOr(DefaultMcqTotal) }

  /** `rules.get("short", 2)` */
  function ShortTotal(rules: RuleDocument): nat { rules.short.GetOr(DefaultShortTotal) }

  /** `rules.get("code", {"enabled": False}).get("enabled")` */
  predicate CodeEnabled(rules: RuleDocument) {
    rules.code.Some? && rules.code.value.enabled
  }

  function CodeLanguages(rules: RuleDocument): seq<string> {
    if rules.code.Some? then rules.code.value.languages else []
  }

  predicate IsMatchedMcq(q: Question, skills: set<string>) {
    q.active && q.qtype == "mcq" && q.skills * skills != {}
  }

  /** An untagged ("fundamentals") MCQ. */
  predicate IsFundamentalMcq(q: Question) {
    q.active && q.qtype == "mcq" && q.skills == {}
  }

  predicate IsShortQuestion(q: Question) {
    q.active && q.qtype == "short"
  }

  predicate IsCodeQuestion(q: Question, languages: seq<string>) {
    q.active && q.qtype == "code" && (languages == [] || q.language in languages)
  }

  function MatchedMcqs(bank: seq<Question>, skills: set<string>): seq<Question> {
    Filter(bank, (q: Question) => IsMatchedMcq(q, skills))
  }

  function FundamentalMcqs(bank: seq<Question>): seq<Question> {
    Filter(bank, IsFundamentalMcq)
  }

  /** Skill-matched MCQs, followed by the untagged ones only when the matched
      set is smaller than the requested total. */
  function McqPool(bank: seq<Question>, skills: set<string>, total: nat): seq<Question> {
    var matched := MatchedMcqs(bank, skills);
    if |matched| < total then matched + FundamentalMcqs(bank) else matched
  }

  function ShortPool(bank: seq<Question>): seq<Question> {
    Filter(bank, IsShortQuestion)
  }

  function CodePool(bank: seq<Question>, languages: seq<string>): seq<Question> {
    Filter(bank, (q: Question) => IsCodeQuestion(q, languages))
  }

  /** Everything random in one session creation. */
  datatype Shuffles = Shuffles(mcq: seq<nat>, short: seq<nat>, code: seq<nat>, sections: seq<seq<nat>>)

  predicate InternshipShuffles(bank: seq<Question>, skills: set<string>, rules: RuleDocument, sh: Shuffles) {
    && IsPermutation(sh.mcq, |McqPool(bank, skills, McqTotal(rules))|)
    && IsPermutation(sh.short, |ShortPool(bank)|)
    && (CodeEnabled(rules) ==> IsPermutation(sh.code, |CodePool(bank, CodeLanguages(rules))|))
  }

  function McqCount(bank: seq<Question>, skills: set<string>, rules: RuleDocument): nat {
    Min(McqTotal(rules), |McqPool(bank, skills, McqTotal(rules))|)
  }

  function ShortCount(bank: seq<Question>, rules: RuleDocument): nat {
    Min(ShortTotal(rules), |ShortPool(bank)|)
  }

  function CodeCount(bank: seq<Question>, rules: RuleDocument): nat {
    if CodeEnabled(rules) && |CodePool(bank, CodeLanguages(rules))| > 0 then 1 else 0
  }

  /** The MCQ pool holds exactly the active skill-matched MCQs, plus the
      active untagged MCQs when the matched ones fall short of the total. */
  lemma McqPoolMembers(bank: seq<Question>, skills: set<string>, total: nat, q: Question)
    ensures q in McqPool(bank, skills, total) <==>
            q in bank && (IsMatchedMcq(q, skills) || (IsFundamentalMcq(q) && |MatchedMcqs(bank, skills)| < total))
  {
  }

  /** Fewer MCQs than requested are chosen exactly when the skill-matched and
      the untagged MCQs together are fewer than requested. */
  lemma McqShortfall(bank: seq<Question>, skills: set<string>, rules: RuleDocument)
    ensures McqCount(bank, skills, rules) < McqTotal(rules) <==>
            |MatchedMcqs(bank, skills)| + |FundamentalMcqs(bank)| < McqTotal(rules)
  {
  }

  /** At most the requested number of MCQs and short answers, at most one
      code question and none unless code is enabled; a code candidate is an
      active code question in one of the listed languages, when any are
      listed. */
  lemma InternshipParts(bank: seq<Question>, skills: set<string>, rules: RuleDocument)
    ensures McqCount(bank, skills, rules) <= McqTotal(rules)
    ensures ShortCount(bank, rules) <= ShortTotal(rules)
    ensures CodeCount(bank, rules) <= 1
    ensures !CodeEnabled(rules) ==> CodeCount(bank, rules) == 0
    ensures forall q :: q in CodePool(bank, CodeLanguages(rules)) ==>
              && q in bank && q.active && q.qtype == "code"
              && (CodeLanguages(rules) != [] ==> q.language in CodeLanguages(rules))
  {
  }

  /** The matched and the untagged MCQs are disjoint, so when the bank's ids
      are distinct the MCQ pool never lists a question twice. */
  lemma McqPoolDistinct(bank: seq<Question>, skills: set<string>, total: nat)
    requires DistinctBy(bank, QuestionId)
    ensures DistinctBy(McqPool(bank, skills, total), QuestionId)
  {
    var matched := MatchedMcqs(bank, skills);
    FilterKeepsDistinct(bank, (q: Question) => IsMatchedMcq(q, skills), QuestionId);
    if |matched| < total {
      var fundamentals := FundamentalMcqs(bank);
      FilterKeepsDistinct(bank, IsFundamentalMcq, QuestionId);
      forall i, j | 0 <= i < |matched| && 0 <= j < |fundamentals|
        ensures QuestionId(matched[i]) != QuestionId(fundamentals[j])
      {
        assert matched[i] in matched && fundamentals[j] in fundamentals;
        assert matched[i].skills != {} && fundamentals[j].skills == {};
        if QuestionId(matched[i]) == QuestionId(fundamentals[j]) {
          SameKeySameMember(bank, QuestionId, matched[i], fundamentals[j]);
        }
      }
      ConcatKeepsDistinct(matched, fundamentals, QuestionId);
    }
  }

  /** `pick_for_internship`: the shuffled MCQ pool cut to the MCQ total, then
      the short-answer sample, then at most one code question. */
  function PickForInternship(bank: seq<Question>, skills: set<string>, rules: RuleDocument, sh: Shuffles): (chosen: seq<FrozenQuestion>)
    requires InternshipShuffles(bank, skills, rules, sh)
    ensures |chosen| == McqCount(bank, skills, rules) + ShortCount(bank, rules) + CodeCount(bank, rules)
    ensures forall i :: 0 <= i < McqCount(bank, skills, rules) ==>
              FrozenFrom(chosen[i], McqPool(bank, skills, McqTotal(rules)))
    ensures forall i :: McqCount(bank, skills, rules) <= i < McqCount(bank, skills, rules) + ShortCount(bank, rules) ==>
              FrozenFrom(chosen[i], ShortPool(bank))
    ensures forall i :: McqCount(bank, skills, rules) + ShortCount(bank, rules) <= i < |chosen| ==>
              FrozenFrom(chosen[i], CodePool(bank, CodeLanguages(rules)))
    ensures DistinctBy(bank, QuestionId) ==> DistinctBy(chosen, FrozenId)
  {
    var mcqPool := McqPool(bank, skills, McqTotal(rules));
    var mcqs := Sample(mcqPool, sh.mcq, McqTotal(rules));
    var shorts := Sample(ShortPool(bank), sh.short, ShortTotal(rules));
    var codes := if CodeEnabled(rules) then Sample(CodePool(bank, CodeLanguages(rules)), sh.code, 1) else [];
    FreezeAllFrom(mcqs, mcqPool);
    FreezeAllFrom(shorts, ShortPool(bank));
    FreezeAllFrom(codes, CodePool(bank, CodeLanguages(rules)));
    var chosen := FreezeAll(mcqs) + FreezeAll(shorts) + FreezeAll(codes);
    PartsFrozenFrom(FreezeAll(mcqs), FreezeAll(shorts), FreezeAll(codes),
                    mcqPool, ShortPool(bank), CodePool(bank, CodeLanguages(rules)));
    assert DistinctBy(bank, QuestionId) ==> DistinctBy(chosen, FrozenId) by {
      if DistinctBy(bank, QuestionId) {
        McqPoolDistinct(bank, skills, McqTotal(rules));
        SampleKeepsDistinct(mcqPool, sh.mcq, McqTotal(rules), QuestionId);
        ShortPoolDistinct(bank);
        SampleKeepsDistinct(ShortPool(bank), sh.short, ShortTotal(rules), QuestionId);
        if CodeEnabled(rules) {
          CodePoolDistinct(bank, CodeLanguages(rules));
          SampleKeepsDistinct(CodePool(bank, CodeLanguages(rules)), sh.code, 1, QuestionId);
        }
        PartsDistinct(bank, mcqs, shorts, codes);
      }
    }
    chosen
  }

  lemma PartsFrozenFrom(a: seq<FrozenQuestion>, b: seq<FrozenQuestion>, c: seq<FrozenQuestion>,
                        pa: seq<Question>, pb: seq<Question>, pc: seq<Question>)
    requires forall i :: 0 <= i < |a| ==> FrozenFrom(a[i], pa)
    requires forall i :: 0 <= i < |b| ==> FrozenFrom(b[i], pb)
    requires forall i :: 0 <= i < |c| ==> FrozenFrom(c[i], pc)
    ensures forall i :: 0 <= i < |a| ==> FrozenFrom((a + b + c)[i], pa)
    ensures forall i :: |a| <= i < |a| + |b| ==> FrozenFrom((a + b + c)[i], pb)
    ensures forall i :: |a| + |b| <= i < |a| + |b| + |c| ==> FrozenFrom((a + b + c)[i], pc)
  {
    var all := a + b + c;
    forall i | 0 <= i < |a| ensures FrozenFrom(all[i], pa) { assert all[i] == a[i]; }
    forall i | |a| <= i < |a| + |b| ensures FrozenFrom(all[i], pb) { assert all[i] == b[i - |a|]; }
    forall i | |a| + |b| <= i < |all| ensures FrozenFrom(all[i], pc) { assert all[i] == c[i - |a| - |b|]; }
  }

  /** The three parts come from pools of different question types, so with
      distinct bank ids the whole internship list is duplicate-free. */
  lemma PartsDistinct(bank: seq<Question>, mcqs: seq<Question>, shorts: seq<Question>, codes: seq<Question>)
    requires DistinctBy(bank, QuestionId)
    requires DistinctBy(mcqs, QuestionId) && DistinctBy(shorts, QuestionId) && DistinctBy(codes, QuestionId)
    requires forall q :: q in mcqs ==> q in bank && q.qtype == "mcq"
    requires forall q :: q in shorts ==> q in bank && q.qtype == "short"
    requires forall q :: q in codes ==> q in bank && q.qtype == "code"
    ensures DistinctBy(FreezeAll(mcqs) + FreezeAll(shorts) + FreezeAll(codes), FrozenId)
  {
    FreezeAllKeepsDistinct(mcqs);
    FreezeAllKeepsDistinct(shorts);
    FreezeAllKeepsDistinct(codes);
    var fm, fs, fc := FreezeAll(mcqs), FreezeAll(shorts), FreezeAll(codes);
    forall i, j | 0 <= i < |fm| && 0 <= j < |fs| ensures FrozenId(fm[i]) != FrozenId(fs[j]) {
      assert mcqs[i] in mcqs && shorts[j] in shorts;
      if mcqs[i].id == shorts[j].id {
        SameKeySameMember(bank, QuestionId, mcqs[i], shorts[j]);
      }
    }
    ConcatKeepsDistinct(fm, fs, FrozenId);
    var fms := fm + fs;
    forall i, j | 0 <= i < |fms| && 0 <= j < |fc| ensures FrozenId(fms[i]) != FrozenId(fc[j]) {
      assert codes[j] in codes;
      if i < |fm| {
        assert mcqs[i] in mcqs && fms[i] == fm[i];
        if mcqs[i].id == codes[j].id {
          SameKeySameMember(bank, QuestionId, mcqs[i], codes[j]);
        }
      } else {
        assert shorts[i - |fm|] in shorts && fms[i] == fs[i - |fm|];
        if shorts[i - |fm|].id == codes[j].id {
          SameKeySameMember(bank, QuestionId, shorts[i - |fm|], codes[j]);
        }
      }
    }
    ConcatKeepsDistinct(fms, fc, FrozenId);
  }

  lemma ShortPoolDistinct(bank: seq<Question>)
    requires DistinctBy(bank, QuestionId)
    ensures DistinctBy(ShortPool(bank), QuestionId)
  {
    FilterKeepsDistinct(bank, IsShortQuestion, QuestionId);
  }

  lemma CodePoolDistinct(bank: seq<Question>, languages: seq<string>)
    requires DistinctBy(bank, QuestionId)
    ensures DistinctBy(CodePool(bank, languages), QuestionId)
  {
    FilterKeepsDistinct(bank, (q: Question) => IsCodeQuestion(q, languages), QuestionId);
  }

  // ---------------------------------------------------------------- gig

  /** `sec.get("count", 1)` */
  function SectionCount(sec: Section): nat { sec.count.GetOr(1) }

  predicate IsTaskSection(sec: Section) {
    sec.typ == "upload" || sec.typ == "critique"
  }

  predicate IsQuestionSection(sec: Section) {
    sec.typ == "mcq" || sec.typ == "short" || sec.typ == "code"
  }

  function Elems(s: seq<string>): set<string> {
    set x | x in s
  }

  /** The task filters of one section: active, of the section's type, of the
      blueprint's role when it has one, and (when the skill set is non-empty)
      tagged with one of the skills or not tagged at all. */
  predicate IsEligibleTask(t: Task, typ: string, roleId: Option<nat>, skills: set<string>) {
    && t.active && t.ttype == typ
    && (roleId.Some? ==> t.roleId == roleId.value)
    && (skills != {} ==> t.skills * skills != {} || t.skills == {})
  }

  /** The question filters of one section: active, of the section's type; an
      mcq section with skill names keeps questions tagged with one of them, a
      code section with `language_opts` keeps questions in one of them. */
  predicate IsEligibleQuestion(q: Question, sec: Section) {
    && q.active && q.qtype == sec.typ
    && (sec.typ == "mcq" && sec.skills != [] ==> q.skills * Elems(sec.skills) != {})
    && (sec.typ == "code" && sec.languageOpts != [] ==> q.language in sec.languageOpts)
  }

  function TaskPool(tasks: seq<Task>, sec: Section, roleId: Option<nat>, skills: set<string>): seq<Task> {
    Filter(tasks, (t: Task) => IsEligibleTask(t, sec.typ, roleId, skills))
  }

  function SectionQuestionPool(bank: seq<Question>, sec: Section): seq<Question> {
    Filter(bank, (q: Question) => IsEligibleQuestion(q, sec))
  }

  function SectionPoolSize(cat: Catalog, roleId: Option<nat>, skills: set<string>, sec: Section): nat {
    if IsTaskSection(sec) then |TaskPool(cat.tasks, sec, roleId, skills)|
    else if IsQuestionSection(sec) then |SectionQuestionPool(cat.questions, sec)|
    else 0
  }

  /** One permutation per section, of that section's pool. */
  predicate GigShuffles(cat: Catalog, roleId: Option<nat>, skills: set<string>, secs: seq<Section>, orders: seq<seq<nat>>) {
    && |orders| == |secs|
    && forall i :: 0 <= i < |secs| ==> IsPermutation(orders[i], SectionPoolSize(cat, roleId, skills, secs[i]))
  }

  function SectionQuestions(cat: Catalog, sec: Section, order: seq<nat>): seq<FrozenQuestion>
    requires IsQuestionSection(sec) ==> IsPermutation(order, |SectionQuestionPool(cat.questions, sec)|)
  {
    if IsQuestionSection(sec) then FreezeAll(Sample(SectionQuestionPool(cat.questions, sec), order, SectionCount(sec)))
    else []
  }

  function SectionTasks(cat: Catalog, roleId: Option<nat>, skills: set<string>, sec: Section, order: seq<nat>): seq<FrozenTask>
    requires IsTaskSection(sec) ==> IsPermutation(order, |TaskPool(cat.tasks, sec, roleId, skills)|)
  {
    if IsTaskSection(sec) then FreezeAllTasks(Sample(TaskPool(cat.tasks, sec, roleId, skills), order, SectionCount(sec)))
    else []
  }

  lemma GigShufflesPrefix(cat: Catalog, roleId: Option<nat>, skills: set<string>, secs: seq<Section>, orders: seq<seq<nat>>, n: nat)
    requires GigShuffles(cat, roleId, skills, secs, orders) && n <= |secs|
    ensures GigShuffles(cat, roleId, skills, secs[..n], orders[..n])
  {
    forall i | 0 <= i < n
      ensures IsPermutation(orders[..n][i], SectionPoolSize(cat, roleId, skills, secs[..n][i]))
    {
      assert orders[..n][i] == orders[i] && secs[..n][i] == secs[i];
    }
  }

  /** The frozen questions collected by the section loop, section by section. */
  function GigQuestions(cat: Catalog, roleId: Option<nat>, skills: set<string>, secs: seq<Section>, orders: seq<seq<nat>>): seq<FrozenQuestion>
    requires GigShuffles(cat, roleId, skills, secs, orders)
    decreases |secs|
  {
    if secs == [] then []
    else
      var n := |secs| - 1;
      GigShufflesPrefix(cat, roleId, skills, secs, orders, n);
      GigQuestions(cat, roleId, skills, secs[..n], orders[..n]) + SectionQuestions(cat, secs[n], orders[n])
  }

  /** The frozen tasks collected by the section loop, section by section. */
  function GigTasks(cat: Catalog, roleId: Option<nat>, skills: set<string>, secs: seq<Section>, orders: seq<seq<nat>>): seq<FrozenTask>
    requires GigShuffles(cat, roleId, skills, secs, orders)
    decreases |secs|
  {
    if secs == [] then []
    else
      var n := |secs| - 1;
      GigShufflesPrefix(cat, roleId, skills, secs, orders, n);
      GigTasks(cat, roleId, skills, secs[..n], orders[..n]) + SectionTasks(cat, roleId, skills, secs[n], orders[n])
  }

  /** One more section appends that section's draw. */
  lemma GigStep(cat: Catalog, roleId: Option<nat>, skills: set<string>, secs: seq<Section>, orders: seq<seq<nat>>, n: nat)
    requires GigShuffles(cat, roleId, skills, secs, orders) && n < |secs|
    ensures GigShuffles(cat, roleId, skills, secs[..n], orders[..n])
    ensures GigShuffles(cat, roleId, skills, secs[..n + 1], orders[..n + 1])
    ensures GigQuestions(cat, roleId, skills, secs[..n + 1], orders[..n + 1]) ==
              GigQuestions(cat, roleId, skills, secs[..n], orders[..n]) + SectionQuestions(cat, secs[n], orders[n])
    ensures GigTasks(cat, roleId, skills, secs[..n + 1], orders[..n + 1]) ==
              GigTasks(cat, roleId, skills, secs[..n], orders[..n]) + SectionTasks(cat, roleId, skills, secs[n], orders[n])
  {
    GigShufflesPrefix(cat, roleId, skills, secs, orders, n);
    GigShufflesPrefix(cat, roleId, skills, secs, orders, n + 1);
    assert secs[..n + 1][..n] == secs[..n] && orders[..n + 1][..n] == orders[..n];
    assert secs[..n + 1][n] == secs[n] && orders[..n + 1][n] == orders[n];
  }

  /** `pick_for_gig`: the loop over `rules["sections"]`. */
  method PickForGig(cat: Catalog, skills: set<string>, bp: Blueprint, orders: seq<seq<nat>>)
    returns (frozenQuestions: seq<FrozenQuestion>, frozenTasks: seq<FrozenTask>)
    requires GigShuffles(cat, bp.roleId, skills, bp.rules.sections, orders)
    ensures frozenQuestions == GigQuestions(cat, bp.roleId, skills, bp.rules.sections, orders)
    ensures frozenTasks == GigTasks(cat, bp.roleId, skills, bp.rules.sections, orders)
  {
    var secs := bp.rules.sections;
    frozenQuestions, frozenTasks := [], [];
    for i := 0 to |secs|
      invariant GigShuffles(cat, bp.roleId, skills, secs[..i], orders[..i])
      invariant frozenQuestions == GigQuestions(cat, bp.roleId, skills, secs[..i], orders[..i])
      invariant frozenTasks == GigTasks(cat, bp.roleId, skills, secs[..i], orders[..i])
    {
      GigStep(cat, bp.roleId, skills, secs, orders, i);
      var sec := secs[i];
      var count := SectionCount(sec);
      if sec.typ == "upload" || sec.typ == "critique" {
        var pool := Sample(TaskPool(cat.tasks, sec, bp.roleId, skills), orders[i], count);
        frozenTasks := frozenTasks + FreezeAllTasks(pool);
      } else if sec.typ == "mcq" || sec.typ == "short" || sec.typ == "code" {
        var pool := Sample(SectionQuestionPool(cat.questions, sec), orders[i], count);
        frozenQuestions := frozenQuestions + FreezeAll(pool);
      }
    }
    assert secs[..|secs|] == secs && orders[..|secs|] == orders;
  }

  /** Each section contributes at most its `count`; upload and critique
      sections only tasks, mcq/short/code sections only questions, any other
      type nothing. */
  lemma SectionContribution(cat: Catalog, roleId: Option<nat>, skills: set<string>, sec: Section, order: seq<nat>)
    requires IsPermutation(order, SectionPoolSize(cat, roleId, skills, sec))
    ensures |SectionQuestions(cat, sec, order)| <= SectionCount(sec)
    ensures |SectionTasks(cat, roleId, skills, sec, order)| <= SectionCount(sec)
    ensures !IsQuestionSection(sec) ==> SectionQuestions(cat, sec, order) == []
    ensures !IsTaskSection(sec) ==> SectionTasks(cat, roleId, skills, sec, order) == []
  {
  }

  /** Within one section no question is drawn twice (sections are sampled
      independently, so two sections may draw the same one). */
  lemma SectionQuestionsDistinct(cat: Catalog, sec: Section, order: seq<nat>)
    requires IsQuestionSection(sec) ==> IsPermutation(order, |SectionQuestionPool(cat.questions, sec)|)
    requires DistinctBy(cat.questions, QuestionId)
    ensures DistinctBy(SectionQuestions(cat, sec, order), FrozenId)
  {
    if IsQuestionSection(sec) {
      var pool := SectionQuestionPool(cat.questions, sec);
      FilterKeepsDistinct(cat.questions, (q: Question) => IsEligibleQuestion(q, sec), QuestionId);
      SampleKeepsDistinct(pool, order, SectionCount(sec), QuestionId);
      FreezeAllKeepsDistinct(Sample(pool, order, SectionCount(sec)));
    }
  }

  /** The sum of `count` over the sections that draw questions. */
  function QuestionBudget(secs: seq<Section>): nat
    decreases |secs|
  {
    if secs == [] then 0
    else QuestionBudget(secs[..|secs| - 1]) + (if IsQuestionSection(secs[|secs| - 1]) then SectionCount(secs[|secs| - 1]) else 0)
  }

  /** The sum of `count` over the sections that draw tasks. */
  function TaskBudget(secs: seq<Section>): nat
    decreases |secs|
  {
    if secs == [] then 0
    else TaskBudget(secs[..|secs| - 1]) + (if IsTaskSection(secs[|secs| - 1]) then SectionCount(secs[|secs| - 1]) else 0)
  }

  /** The gig lists never exceed the counts their sections ask for. */
  lemma {:induction false} GigWithinBudget(cat: Catalog, roleId: Option<nat>, skills: set<string>, secs: seq<Section>, orders: seq<seq<nat>>)
    requires GigShuffles(cat, roleId, skills, secs, orders)
    ensures |GigQuestions(cat, roleId, skills, secs, orders)| <= QuestionBudget(secs)
    ensures |GigTasks(cat, roleId, skills, secs, orders)| <= TaskBudget(secs)
    decreases |secs|
  {
    if secs != [] {
      var n := |secs| - 1;
      GigShufflesPrefix(cat, roleId, skills, secs, orders, n);
      GigWithinBudget(cat, roleId, skills, secs[..n], orders[..n]);
      SectionContribution(cat, roleId, skills, secs[n], orders[n]);
    }
  }

  /** `f` is the frozen copy of a question passing the filters of one of the
      question sections in `secs`. */
  ghost predicate FromQuestionSection(f: FrozenQuestion, bank: seq<Question>, secs: seq<Section>) {
    exists k :: 0 <= k < |secs| && IsQuestionSection(secs[k]) && FrozenFrom(f, SectionQuestionPool(bank, secs[k]))
  }

  /** `f` is the frozen copy of a task passing the filters of one of the task
      sections in `secs`. */
  ghost predicate FromTaskSection(f: FrozenTask, tasks: seq<Task>, roleId: Option<nat>, skills: set<string>, secs: seq<Section>) {
    exists k :: 0 <= k < |secs| && IsTaskSection(secs[k]) && FrozenTaskFrom(f, TaskPool(tasks, secs[k], roleId, skills))
  }

  /** Every gig question is the frozen copy of a question that passes the
      filters of some question section. */
  lemma {:induction false} GigQuestionsEligible(cat: Catalog, roleId: Option<nat>, skills: set<string>, secs: seq<Section>, orders: seq<seq<nat>>)
    requires GigShuffles(cat, roleId, skills, secs, orders)
    ensures forall f :: f in GigQuestions(cat, roleId, skills, secs, orders) ==> FromQuestionSection(f, cat.questions, secs)
    decreases |secs|
  {
    if secs != [] {
      var n := |secs| - 1;
      GigShufflesPrefix(cat, roleId, skills, secs, orders, n);
      GigQuestionsEligible(cat, roleId, skills, secs[..n], orders[..n]);
      var front := GigQuestions(cat, roleId, skills, secs[..n], orders[..n]);
      var last := SectionQuestions(cat, secs[n], orders[n]);
      assert GigQuestions(cat, roleId, skills, secs, orders) == front + last;
      forall f | f in front + last
        ensures FromQuestionSection(f, cat.questions, secs)
      {
        if f in front {
          var k :| 0 <= k < n && IsQuestionSection(secs[..n][k]) &&
                   FrozenFrom(f, SectionQuestionPool(cat.questions, secs[..n][k]));
          assert secs[..n][k] == secs[k];
        } else {
          var pool := SectionQuestionPool(cat.questions, secs[n]);
          var drawn := Sample(pool, orders[n], SectionCount(secs[n]));
          assert IsQuestionSection(secs[n]);
          FreezeAllFrom(drawn, pool);
          var j :| 0 <= j < |last| && last[j] == f;
          assert FrozenFrom(last[j], pool);
        }
      }
    }
  }

  /** Every gig task is the frozen copy of a task that passes the filters of
      some upload or critique section (type, role, skills). */
  lemma {:induction false} GigTasksEligible(cat: Catalog, roleId: Option<nat>, skills: set<string>, secs: seq<Section>, orders: seq<seq<nat>>)
    requires GigShuffles(cat, roleId, skills, secs, orders)
    ensures forall f :: f in GigTasks(cat, roleId, skills, secs, orders) ==> FromTaskSection(f, cat.tasks, roleId, skills, secs)
    decreases |secs|
  {
    if secs != [] {
      var n := |secs| - 1;
      GigShufflesPrefix(cat, roleId, skills, secs, orders, n);
      GigTasksEligible(cat, roleId, skills, secs[..n], orders[..n]);
      var front := GigTasks(cat, roleId, skills, secs[..n], orders[..n]);
      var last := SectionTasks(cat, roleId, skills, secs[n], orders[n]);
      assert GigTasks(cat, roleId, skills, secs, orders) == front + last;
      forall f | f in front + last
        ensures FromTaskSection(f, cat.tasks, roleId, skills, secs)
      {
        if f in front {
          var k :| 0 <= k < n && IsTaskSection(secs[..n][k]) &&
                   FrozenTaskFrom(f, TaskPool(cat.tasks, secs[..n][k], roleId, skills));
          assert secs[..n][k] == secs[k];
        } else {
          var pool := TaskPool(cat.tasks, secs[n], roleId, skills);
          var drawn := Sample(pool, orders[n], SectionCount(secs[n]));
          assert IsTaskSection(secs[n]);
          var j :| 0 <= j < |last| && last[j] == f;
          assert last[j] == FreezeTask(drawn[j]) && drawn[j] in drawn;
          assert FrozenTaskFrom(f, pool);
        }
      }
    }
  }

  /** A task in a section's pool passes every filter of that section. */
  lemma TaskPoolMembers(tasks: seq<Task>, sec: Section, roleId: Option<nat>, skills: set<string>, t: Task)
    ensures t in TaskPool(tasks, sec, roleId, skills) <==> t in tasks && IsEligibleTask(t, sec.typ, roleId, skills)
  {
  }

  // ---------------------------------------------------------------- session creation

  function ChosenNames(rows: seq<ChosenSkill>, applicationId: nat): set<string> {
    set c | c in rows && c.applicationId == applicationId :: c.skill
  }

  /** The number of chosen-skill rows of one application. */
  function ChosenCount(rows: seq<ChosenSkill>, applicationId: nat): nat
    decreases |rows|
  {
    if rows == [] then 0
    else ChosenCount(rows[..|rows| - 1], applicationId) + (if rows[|rows| - 1].applicationId == applicationId then 1 else 0)
  }

  /** Under the table's uniqueness of (application, skill), every chosen row
      of an application contributes its own skill name: the name set has as
      many members as the application has rows. */
  lemma {:induction false} ChosenNamesDistinct(rows: seq<ChosenSkill>, applicationId: nat)
    requires UniqueChosenSkills(rows)
    ensures |ChosenNames(rows, applicationId)| == ChosenCount(rows, applicationId)
    decreases |rows|
  {
    if rows != [] {
      var n := |rows| - 1;
      var init, last := rows[..n], rows[n];
      assert UniqueChosenSkills(init);
      ChosenNamesDistinct(init, applicationId);
      assert rows == init + [last];
      if last.applicationId == applicationId {
        assert ChosenNames(rows, applicationId) == ChosenNames(init, applicationId) + {last.skill};
        assert last.skill !in ChosenNames(init, applicationId);
      } else {
        assert ChosenNames(rows, applicationId) == ChosenNames(init, applicationId);
      }
    }
  }

  predicate HasChosenSkills(rows: seq<ChosenSkill>, applicationId: nat) {
    exists c :: c in rows && c.applicationId == applicationId
  }

  /** The skill set that drives selection: the application's chosen
      assessment skills, looked up in the Skill table by name, when any row
      exists; otherwise the student profile's skills. */
  function ResolveSkills(cat: Catalog, applicationId: nat, profileSkills: set<string>): set<string> {
    if HasChosenSkills(cat.chosenSkills, applicationId) then ChosenNames(cat.chosenSkills, applicationId) * cat.skills
    else profileSkills
  }

  /** Chosen rows take precedence: when any exist the profile is ignored and
      only chosen names that are Skill rows are used; otherwise the profile's
      skills are used as they are. */
  lemma ChosenSkillsTakePrecedence(cat: Catalog, applicationId: nat, profileSkills: set<string>, otherProfile: set<string>)
    ensures HasChosenSkills(cat.chosenSkills, applicationId) ==>
              && ResolveSkills(cat, applicationId, profileSkills) == ResolveSkills(cat, applicationId, otherProfile)
              && (forall s :: s in ResolveSkills(cat, applicationId, profileSkills) <==>
                    s in cat.skills && exists c :: c in cat.chosenSkills && c.applicationId == applicationId && c.skill == s)
    ensures !HasChosenSkills(cat.chosenSkills, applicationId) ==> ResolveSkills(cat, applicationId, profileSkills) == profileSkills
  {
  }

  /** The permutations the chosen path consumes. */
  predicate ShufflesFor(cat: Catalog, bp: Blueprint, skills: set<string>, sh: Shuffles) {
    if bp.kind == "internship" then InternshipShuffles(cat.questions, skills, bp.rules, sh)
    else GigShuffles(cat, bp.roleId, skills, bp.rules.sections, sh.sections)
  }

  /** How `create_assessment_for_application` raises: `Assessment.objects.create`
      refuses the row (token or application already taken), or `send_mail`
      raises after the row `row` was created. */
  datatype CreateError = IntegrityError | InviteFailed(row: Assessment)

  /** The row a creation stored, if any. */
  function Created(res: Result<Assessment, CreateError>): Option<Assessment> {
    match res
    case Success(a) => Some(a)
    case Failure(e) => if e.InviteFailed? then Some(e.row) else None
  }

  /** `create_assessment_for_application` without the token signing: the
      token is an input, and so is whether `send_mail` for the invitation
      returns (`inviteSent`); when it raises, the created row stays. */
  method CreateAssessmentForApplication(db: Store, cat: Catalog, applicationId: nat, profileSkills: set<string>,
                                        bp: Blueprint, token: string, sh: Shuffles, inviteSent: bool)
    returns (res: Result<Assessment, CreateError>)
    requires db.Valid()
    requires ShufflesFor(cat, bp, ResolveSkills(cat, applicationId, profileSkills), sh)
    modifies db
    ensures db.Valid()
    ensures Created(res).Some? <==> !TokenTaken(old(db.assessments), token) && !ApplicationTaken(old(db.assessments), applicationId)
    ensures res.Success? <==> Created(res).Some? && inviteSent
    ensures db.assessments == if Created(res).Some? then old(db.assessments) + [Created(res).value] else old(db.assessments)
    ensures db.responses == old(db.responses) && db.reports == old(db.reports)
    ensures Created(res).Some? ==>
              var a := Created(res).value;
              var skills := ResolveSkills(cat, applicationId, profileSkills);
              && a.applicationId == applicationId && a.blueprintId == bp.id && a.token == token
              && a.status == Invited && a.startedAt.None? && a.submittedAt.None?
              && a.durationMinutes == bp.durationMinutes
              && (bp.kind == "internship" ==>
                    a.questions == PickForInternship(cat.questions, skills, bp.rules, sh) && a.tasks.None?)
              && (bp.kind != "internship" ==>
                    && a.questions == GigQuestions(cat, bp.roleId, skills, bp.rules.sections, sh.sections)
                    && a.tasks == Some(GigTasks(cat, bp.roleId, skills, bp.rules.sections, sh.sections)))
  {
    var skills := ResolveSkills(cat, applicationId, profileSkills);
    var questions: seq<FrozenQuestion>;
    var tasks: Option<seq<FrozenTask>>;
    if bp.kind == "internship" {
      questions := PickForInternship(cat.questions, skills, bp.rules, sh);
      tasks := None;
    } else {
      var qs, ts := PickForGig(cat, skills, bp, sh.sections);
      questions, tasks := qs, Some(ts);
    }
    var a := Assessment(NextAssessmentId(db.assessments), applicationId, bp.id, questions, tasks,
                        token, bp.durationMinutes, Invited, None, None);
    var ok := db.InsertAssessment(a);
    if !ok {
      return Failure(IntegrityError);
    }
    res := if inviteSent then Success(a) else Failure(InviteFailed(a));
  }
}
