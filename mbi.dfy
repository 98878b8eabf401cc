/**
 * The burnout questionnaire bot (mbi-bot/src/index.js): a user fills in a profile through a
 * three-step wizard, then answers the 22 questions of the Maslach Burnout Inventory one
 * button at a time; the last answer appends a result with the three scale sums.
 *
 * The session of one user is the class `Chat`; each handler is proved against a function
 * on `ChatState` values, and the properties of the flow are lemmas about those functions.
 */
module Mbi {
  import opened Opt
  import opened Text

  const QuestionCount: nat := 22

  /** The values the answer buttons send. */
  const Offered: seq<nat> := [0, 1, 3, 4, 5, 6]

  /** The question indices of the three scales. */
  const PaIndices: seq<nat> := [0, 1, 2, 3, 18, 19, 20, 21]
  const EexIndices: seq<nat> := [4, 5, 6, 7, 8, 9, 10, 11, 12]
  const DpIndices: seq<nat> := [13, 14, 15, 16, 17]

  const PaMax: nat := 48
  const EexMax: nat := 54
  const DpMax: nat := 30

  // ───────────── computeMbiScores ─────────────

  /** The three scale sums (the rounded percentages are not modelled). */
  datatype Scores = Scores(eex: nat, dp: nat, pa: nat)

  /** `answers[idx] ?? 0`: a missing or unanswered question counts as zero. */
  function AnswerAt(answers: seq<Option<nat>>, idx: nat): nat {
    if idx < |answers| && answers[idx].Some? then answers[idx].value else 0
  }

  /** `indices.reduce((acc, idx) => acc + (answers[idx] ?? 0), 0)`. */
  function SumBy(answers: seq<Option<nat>>, indices: seq<nat>): nat
    decreases |indices|
  {
    if indices == [] then 0 else SumBy(answers, indices[..|indices| - 1]) + AnswerAt(answers, indices[|indices| - 1])
  }

  function ComputeScores(answers: seq<Option<nat>>): Scores {
    Scores(SumBy(answers, EexIndices), SumBy(answers, DpIndices), SumBy(answers, PaIndices))
  }

  lemma {:induction false} SumByAppend(answers: seq<Option<nat>>, xs: seq<nat>, ys: seq<nat>)
    ensures SumBy(answers, xs + ys) == SumBy(answers, xs) + SumBy(answers, ys)
    decreases |ys|
  {
    if ys != [] {
      var zs := ys[..|ys| - 1];
      assert (xs + ys)[..|xs + ys| - 1] == xs + zs;
      assert (xs + ys)[|xs + ys| - 1] == ys[|ys| - 1];
      assert SumBy(answers, xs + ys) == SumBy(answers, xs + zs) + AnswerAt(answers, ys[|ys| - 1]);
      SumByAppend(answers, xs, zs);
    } else {
      assert xs + ys == xs;
    }
  }

  /** `0, 1, …, n - 1`. */
  function Range(n: nat): (r: seq<nat>)
    ensures |r| == n && forall i :: 0 <= i < n ==> r[i] == i
  {
    seq(n, i requires 0 <= i => i as nat)
  }

  /** The three scales share no question and together cover exactly the 22 questions. */
  lemma ScalesPartition()
    ensures forall i: nat :: i < QuestionCount <==> i in PaIndices || i in EexIndices || i in DpIndices
    ensures forall i :: i in PaIndices ==> i !in EexIndices && i !in DpIndices
    ensures forall i :: i in EexIndices ==> i !in DpIndices
    ensures |PaIndices| + |EexIndices| + |DpIndices| == QuestionCount
  {
  }

  /** Every answer counts towards exactly one scale: the three sums add up to the sum of
      all 22 answers. */
  lemma ScoresTotal(answers: seq<Option<nat>>)
    ensures var s := ComputeScores(answers); s.eex + s.dp + s.pa == SumBy(answers, Range(QuestionCount))
  {
    var a: seq<nat>, b: seq<nat> := [0, 1, 2, 3], [18, 19, 20, 21];
    assert PaIndices == a + b;
    assert Range(QuestionCount) == a + EexIndices + DpIndices + b;
    SumByAppend(answers, a, b);
    SumByAppend(answers, a, EexIndices);
    SumByAppend(answers, a + EexIndices, DpIndices);
    SumByAppend(answers, a + EexIndices + DpIndices, b);
  }

  /** A sum of answers no larger than six is at most six per index. */
  lemma {:induction false} SumByBound(answers: seq<Option<nat>>, indices: seq<nat>)
    requires forall k :: 0 <= k < |answers| && answers[k].Some? ==> answers[k].value <= 6
    ensures SumBy(answers, indices) <= 6 * |indices|
    decreases |indices|
  {
    if indices != [] {
      SumByBound(answers, indices[..|indices| - 1]);
    }
  }

  /** With every answer one of the offered values, each scale stays within its maximum,
      which is six times its number of questions. */
  lemma ScoresBounded(answers: seq<Option<nat>>)
    requires forall k :: 0 <= k < |answers| && answers[k].Some? ==> answers[k].value in Offered
    ensures var s := ComputeScores(answers); s.eex <= EexMax && s.dp <= DpMax && s.pa <= PaMax
    ensures EexMax == 6 * |EexIndices| && DpMax == 6 * |DpIndices| && PaMax == 6 * |PaIndices|
  {
    SumByBound(answers, EexIndices);
    SumByBound(answers, DpIndices);
    SumByBound(answers, PaIndices);
  }

  // ───────────── the session ─────────────

  /** `profileWizard`: the step it is at, with the draft so far. */
  datatype Wizard = AskFirst | AskLast(first: string) | AskPos(first: string, last: string)

  datatype Profile = Profile(first: string, last: string, pos: string)

  /** A result appended to the results file (ids, user details and times are not modelled). */
  datatype Record = Record(answers: seq<Option<nat>>, scores: Scores)

  /** One user's session (`flow`, `profileWizard`, `resumeAfterProfile`), the user's saved
      profile, and the results file. */
  datatype ChatState = ChatState(inFlow: bool, index: nat, answers: seq<Option<nat>>,
                                 wizard: Option<Wizard>, resumeMbi: bool,
                                 profile: Option<Profile>, results: seq<Record>)

  /** `hasProfile`: a saved profile with a first name, last name and position. */
  predicate HasProfile(p: Option<Profile>) {
    p.Some? && p.value.first != [] && p.value.last != [] && p.value.pos != []
  }

  function Nulls(n: nat): (r: seq<Option<nat>>)
    ensures |r| == n && forall k :: 0 <= k < n ==> r[k].None?
  {
    seq(n, k => None)
  }

  /** `mbiInit`: a new flow at the first question with no answers. */
  function Init(st: ChatState): ChatState {
    st.(inFlow := true, index := 0, answers := Nulls(QuestionCount))
  }

  /** The flow answers the questions in order: while it runs, exactly the questions before
      the current one are answered. */
  predicate FlowValid(inFlow: bool, index: nat, answers: seq<Option<nat>>) {
    inFlow ==> index < QuestionCount && |answers| == QuestionCount
               && forall k :: 0 <= k < QuestionCount ==> (answers[k].Some? <==> k < index)
  }

  /** Every stored result has all 22 answers. */
  predicate RecordsValid(results: seq<Record>) {
    forall r :: r in results ==> |r.answers| == QuestionCount && forall k :: 0 <= k < QuestionCount ==> r.answers[k].Some?
  }

  predicate ValidState(st: ChatState) {
    FlowValid(st.inFlow, st.index, st.answers) && RecordsValid(st.results)
  }

  // ───────────── answers ─────────────

  /** `answers[q] = value` on a JavaScript array: past the end, the array grows with holes. */
  function Store(answers: seq<Option<nat>>, q: nat, v: nat): (r: seq<Option<nat>>)
    ensures |r| == if q < |answers| then |answers| else q + 1
    ensures r[q] == Some(v) && forall k :: 0 <= k < |answers| && k != q ==> r[k] == answers[k]
  {
    if q < |answers| then answers[q := Some(v)] else answers + Nulls(q - |answers|) + [Some(v)]
  }

  datatype AnswerReply = Stale | NextQuestion(index: nat) | Finished(scores: Scores)

  /** The `mbi:<q>:<v>` handler: a flow is started if there is none; a button for another
      question than the current one changes nothing more; otherwise the answer is stored, and
      after the last question the result is appended and the flow ends. */
  function Answer(st: ChatState, q: nat, v: nat): (ChatState, AnswerReply) {
    var st1 := if st.inFlow then st else Init(st);
    if q != st1.index then (st1, Stale)
    else
      var answers := Store(st1.answers, q, v);
      var index := st1.index + 1;
      if index >= QuestionCount then
        var scores := ComputeScores(answers);
        (st1.(inFlow := false, index := index, answers := answers, results := st1.results + [Record(answers, scores)]),
         Finished(scores))
      else (st1.(index := index, answers := answers), NextQuestion(index))
  }

  /** A stale button changes nothing but a missing flow; an accepted one stores the value at
      its question, moves to the next and keeps the other answers; a result is appended, with
      the scores of the stored answers, exactly when the last question is answered. */
  lemma AnswerFacts(st: ChatState, q: nat, v: nat)
    requires ValidState(st)
    ensures var (st', reply) := Answer(st, q, v);
      var st1 := if st.inFlow then st else Init(st);
      ValidState(st') && st'.profile == st.profile && st'.wizard == st.wizard
      && (reply.Stale? <==> q != st1.index)
      && (reply.Stale? ==> st' == st1)
      && (!reply.Stale? ==> (st'.answers[q] == Some(v) && st'.index == q + 1
            && forall k :: 0 <= k < QuestionCount && k != q ==> st'.answers[k] == st1.answers[k]))
      && (reply.Finished? <==> q == st1.index && q == QuestionCount - 1)
      && (reply.Finished? ==> (!st'.inFlow && st'.results == st.results + [Record(st'.answers, reply.scores)]
            && reply.scores == ComputeScores(st'.answers)))
      && (!reply.Finished? ==> st'.results == st.results && st'.inFlow)
  {
    var st1 := if st.inFlow then st else Init(st);
    assert FlowValid(st1.inFlow, st1.index, st1.answers);
    if q == st1.index {
      var answers := Store(st1.answers, q, v);
      assert FlowValid(true, q + 1, answers) || q + 1 >= QuestionCount;
    }
  }

  // ───────────── profile wizard ─────────────

  /** `ensureProfile`: with no complete profile, remember whether to start the test after
      it and start the wizard. */
  function EnsureProfile(st: ChatState, resumeMbi: bool): (ChatState, bool) {
    if HasProfile(st.profile) then (st, true)
    else (st.(resumeMbi := resumeMbi, wizard := Some(AskFirst)), false)
  }

  /** `handleProfileInput`: the trimmed text fills the step the wizard is at; after the
      position the profile is saved, the wizard ends, and the test starts if it was waiting. */
  function ProfileInput(st: ChatState, text: Option<string>): (ChatState, bool) {
    if st.wizard.None? then (st, false)
    else
      var t := Trim(text.GetOr(""));
      match st.wizard.value
      case AskFirst => (st.(wizard := Some(AskLast(t))), true)
      case AskLast(first) => (st.(wizard := Some(AskPos(first, t))), true)
      case AskPos(first, last) =>
        var saved := st.(profile := Some(Profile(first, last, t)), wizard := None, resumeMbi := false);
        (if st.resumeMbi then Init(saved) else saved, true)
  }

  /** The wizard asks the first name, the last name and the position in that order and then
      saves exactly those answers, trimmed; the profile then counts as complete exactly when
      none of them is blank, and a test that was waiting for the profile starts. */
  lemma WizardSteps(st: ChatState, a: Option<string>, b: Option<string>, c: Option<string>)
    requires st.wizard == Some(AskFirst)
    ensures var s1 := ProfileInput(st, a).0;
      var s2 := ProfileInput(s1, b).0;
      var s3 := ProfileInput(s2, c).0;
      s1.wizard == Some(AskLast(Trim(a.GetOr("")))) && s1.profile == st.profile
      && s2.wizard == Some(AskPos(Trim(a.GetOr("")), Trim(b.GetOr("")))) && s2.profile == st.profile
      && s3.wizard.None? && s3.profile == Some(Profile(Trim(a.GetOr("")), Trim(b.GetOr("")), Trim(c.GetOr(""))))
      && (HasProfile(s3.profile) <==> Trim(a.GetOr("")) != [] && Trim(b.GetOr("")) != [] && Trim(c.GetOr("")) != [])
      && (st.resumeMbi ==> s3.inFlow && s3.index == 0 && s3.answers == Nulls(QuestionCount))
      && (!st.resumeMbi ==> s3.inFlow == st.inFlow && s3.index == st.index && s3.answers == st.answers)
      && !s3.resumeMbi && s3.results == st.results
  {
  }

  /** Text outside the wizard is not taken by it; every step keeps the state valid. */
  lemma ProfileInputFacts(st: ChatState, text: Option<string>)
    requires ValidState(st)
    ensures var (st', handled) := ProfileInput(st, text);
      ValidState(st') && (handled <==> st.wizard.Some?) && (!handled ==> st' == st)
      && st'.results == st.results
  {
  }

  /** `ensureProfile` lets the caller go on exactly when the profile is complete. */
  lemma EnsureProfileFacts(st: ChatState, resumeMbi: bool)
    requires ValidState(st)
    ensures var (st', ok) := EnsureProfile(st, resumeMbi);
      ValidState(st') && (ok <==> HasProfile(st.profile))
      && (ok ==> st' == st) && (!ok ==> st'.wizard == Some(AskFirst) && st'.resumeMbi == resumeMbi)
  {
  }

  // ───────────── text routing ─────────────

  /** `w` occurs at position `i` of `t`, letters compared without case (the `i` flag). */
  predicate MatchAt(t: string, i: nat, w: string) {
    i + |w| <= |t| && forall k :: 0 <= k < |w| ==> LowerChar(t[i + k]) == LowerChar(w[k])
  }

  /** The regular-expression alternative `w`: it occurs somewhere in `t`. */
  predicate HasWord(t: string, w: string) {
    exists i :: 0 <= i <= |t| && MatchAt(t, i, w)
  }

  /** The alternative `w1\s*w2`: `w1`, white space only, then `w2`. */
  predicate HasSpaced(t: string, w1: string, w2: string) {
    exists i, j :: 0 <= i && i + |w1| <= j <= |t| && MatchAt(t, i, w1) && MatchAt(t, j, w2)
                   && forall k :: i + |w1| <= k < j ==> IsSpace(t[k])
  }

  /** `bot.start`: the `/start` command, alone or with a payload. */
  predicate IsStartCommand(t: string) {
    t == "/start" || (|t| > 6 && t[..7] == "/start ")
  }

  predicate ReStartMbi(t: string) {
    HasWord(t, "Начать") || HasWord(t, "Boshlash") || HasWord(t, "boshlash")
    || HasSpaced(t, "Эмоциональное", "выгорание") || HasWord(t, "MBI") || HasWord(t, "/start")
    || (|t| == 5 && MatchAt(t, 0, "start"))
  }

  predicate ReResults(t: string) {
    HasSpaced(t, "Мои", "результаты") || HasWord(t, "Natijalarim")
  }

  predicate ReExport(t: string) {
    HasSpaced(t, "Экспорт", "JSON") || HasSpaced(t, "JSON", "eksport")
  }

  predicate ReExportX(t: string) {
    HasSpaced(t, "Экспорт", "Excel") || HasSpaced(t, "Excel", "eksport")
  }

  predicate ReRestart(t: string) {
    HasSpaced(t, "Начать", "заново") || HasSpaced(t, "Qayta", "boshlash")
  }

  predicate ReLang(t: string) {
    HasWord(t, "Язык") || HasWord(t, "Til")
  }

  predicate ReProfile(t: string) {
    HasWord(t, "Профиль") || HasWord(t, "Profil")
  }

  /** The handler a text message reaches. */
  datatype Command = StartCmd | StartTest | MyResults | ExportJson | ExportXlsx | RestartFlow
                   | Language | ProfileCmd | NotACommand

  /** The handlers in the order they are registered: `bot.start`, then each `bot.hears`
      pattern; the first that matches takes the message, and only text matching none of them
      reaches the wizard. */
  function Hears(t: string): Command {
    if IsStartCommand(t) then StartCmd
    else if ReStartMbi(t) then StartTest
    else if ReResults(t) then MyResults
    else if ReExport(t) then ExportJson
    else if ReExportX(t) then ExportXlsx
    else if ReRestart(t) then RestartFlow
    else if ReLang(t) then Language
    else if ReProfile(t) then ProfileCmd
    else NotACommand
  }

  /** The routing the restart button evidently needs: the restart pattern is tried before
      the start-the-test pattern. */
  function HearsIntended(t: string): Command {
    if IsStartCommand(t) then StartCmd
    else if ReRestart(t) then RestartFlow
    else if ReStartMbi(t) then StartTest
    else if ReResults(t) then MyResults
    else if ReExport(t) then ExportJson
    else if ReExportX(t) then ExportXlsx
    else if ReLang(t) then Language
    else if ReProfile(t) then ProfileCmd
    else NotACommand
  }

  /** Every text the restart pattern matches also matches the start-the-test pattern, which
      is registered first: as written the restart handler is never reached. */
  lemma RestartUnreachable(t: string)
    ensures ReRestart(t) ==> ReStartMbi(t)
    ensures Hears(t) != RestartFlow
  {
    if HasSpaced(t, "Начать", "заново") {
      var i, j :| 0 <= i && i + |"Начать"| <= j <= |t| && MatchAt(t, i, "Начать") && MatchAt(t, j, "заново")
                  && forall k :: i + |"Начать"| <= k < j ==> IsSpace(t[k]);
      assert HasWord(t, "Начать");
    } else if HasSpaced(t, "Qayta", "boshlash") {
      var i, j :| 0 <= i && i + |"Qayta"| <= j <= |t| && MatchAt(t, i, "Qayta") && MatchAt(t, j, "boshlash")
                  && forall k :: i + |"Qayta"| <= k < j ==> IsSpace(t[k]);
      assert HasWord(t, "boshlash");
    }
  }

  /** The two routings differ only on texts that match both patterns, and there the
      intended one reaches the restart handler. */
  lemma IntendedDiffersOnRestart(t: string)
    ensures HearsIntended(t) == Hears(t) || (ReRestart(t) && ReStartMbi(t) && HearsIntended(t) == RestartFlow)
  {
    RestartUnreachable(t);
  }

  /** The restart pattern matched by its words with white space between them. */
  lemma SpacedWitness(t: string, w1: string, w2: string, i: nat, j: nat)
    requires i + |w1| <= j <= |t| && MatchAt(t, i, w1) && MatchAt(t, j, w2)
    requires forall k :: i + |w1| <= k < j ==> IsSpace(t[k])
    ensures HasSpaced(t, w1, w2)
  {
  }

  /** A text that does not begin with `/` is not the `/start` command. */
  lemma NotStartCommand(t: string)
    requires t != [] && t[0] != '/'
    ensures !IsStartCommand(t)
  {
    assert t != "/start" by { assert "/start"[0] == '/'; }
    if |t| > 6 {
      assert t[..7][0] == t[0];
      assert "/start "[0] == '/';
    }
  }

  /** The Russian restart button ('Начать заново') starts a new test as written, and reaches
      the restart handler under the intended routing. */
  lemma RestartButtonRu()
    ensures Hears("Начать заново") == StartTest && HearsIntended("Начать заново") == RestartFlow
  {
    var t := "Начать заново";
    assert MatchAt(t, 0, "Начать") && MatchAt(t, 7, "заново") && IsSpace(t[6]);
    SpacedWitness(t, "Начать", "заново", 0, 7);
    NotStartCommand(t);
    RestartUnreachable(t);
  }

  /** The Uzbek restart button ('Qayta boshlash') likewise. */
  lemma RestartButtonUz()
    ensures Hears("Qayta boshlash") == StartTest && HearsIntended("Qayta boshlash") == RestartFlow
  {
    var t := "Qayta boshlash";
    assert MatchAt(t, 0, "Qayta") && MatchAt(t, 6, "boshlash") && IsSpace(t[5]);
    SpacedWitness(t, "Qayta", "boshlash", 0, 6);
    NotStartCommand(t);
    RestartUnreachable(t);
  }

  /** The state a text message leaves, routed by `HearsIntended`: the command handlers as
      above; results, export and language only reply; other text goes to the wizard. */
  function OnTextState(st: ChatState, t: string): ChatState {
    match HearsIntended(t)
    case StartCmd => EnsureProfile(st, false).0
    case StartTest =>
      var (st1, ok) := EnsureProfile(st, true);
      if ok then Init(st1) else st1
    case RestartFlow => st.(inFlow := false)
    case ProfileCmd => st.(wizard := Some(AskFirst))
    case NotACommand => ProfileInput(st, Some(t)).0
    case _ => st
  }

  /** A text that is a menu command never feeds the wizard: typed while the wizard asks for
      the first name, 'Начать' is taken as the start-the-test command, which keeps the wizard at
      its first step and notes that the test follows the profile. */
  lemma CommandNotWizardInput(st: ChatState)
    requires st.wizard == Some(AskFirst) && !HasProfile(st.profile)
    ensures OnTextState(st, "Начать").wizard == Some(AskFirst)
    ensures OnTextState(st, "Начать").resumeMbi
  {
    assert MatchAt("Начать", 0, "Начать");
    assert !IsStartCommand("Начать");
    assert !HasSpaced("Начать", "Начать", "заново");
    assert !HasSpaced("Начать", "Qayta", "boshlash");
  }

  // ───────────── the chat ─────────────

  class Chat {
    var inFlow: bool
    var index: nat
    var answers: seq<Option<nat>>
    var wizard: Option<Wizard>
    var resumeMbi: bool
    var profile: Option<Profile>
    var results: seq<Record>

    function State(): ChatState
      reads this
    {
      ChatState(inFlow, index, answers, wizard, resumeMbi, profile, results)
    }

    ghost predicate Valid()
      reads this
    {
      ValidState(State())
    }

    constructor ()
      ensures State() == ChatState(false, 0, [], None, false, None, []) && Valid()
    {
      inFlow, index, answers := false, 0, [];
      wizard, resumeMbi, profile, results := None, false, None, [];
    }

    method MbiInit()
      modifies this
      ensures State() == Init(old(State()))
    {
      inFlow, index, answers := true, 0, Nulls(QuestionCount);
    }

    /** The answer button handler. */
    method OnAnswer(q: nat, v: nat) returns (reply: AnswerReply)
      requires Valid()
      modifies this
      ensures (State(), reply) == Answer(old(State()), q, v) && Valid()
    {
      AnswerFacts(State(), q, v);
      if !inFlow {
        MbiInit();
      }
      if q != index {
        return Stale;
      }
      answers := Store(answers, q, v);
      index := index + 1;
      if index >= QuestionCount {
        var scores := ComputeScores(answers);
        results := results + [Record(answers, scores)];
        inFlow := false;
        return Finished(scores);
      }
      return NextQuestion(index);
    }

    /** The start-the-test text: go on only with a complete profile. */
    method StartMbi() returns (started: bool)
      requires Valid()
      modifies this
      ensures var (st1, ok) := EnsureProfile(old(State()), true);
        started == ok && State() == (if ok then Init(st1) else st1) && Valid()
    {
      EnsureProfileFacts(State(), true);
      if !HasProfile(profile) {
        resumeMbi := true;
        wizard := Some(AskFirst);
        return false;
      }
      MbiInit();
      return true;
    }

    /** `/start`: the menu only with a complete profile, else the wizard (with nothing to
        resume after it). */
    method OnStart() returns (menu: bool)
      requires Valid()
      modifies this
      ensures (State(), menu) == EnsureProfile(old(State()), false) && Valid()
    {
      EnsureProfileFacts(State(), false);
      if HasProfile(profile) {
        return true;
      }
      resumeMbi := false;
      wizard := Some(AskFirst);
      return false;
    }

    /** The handler of the restart pattern: the flow is dropped. As written the restart button
        never reaches it (see `RestartUnreachable`); `OnText` routes it here. */
    method Restart()
      requires Valid()
      modifies this
      ensures State() == old(State()).(inFlow := false) && Valid()
    {
      inFlow := false;
    }

    /** The profile text: the wizard starts over with an empty draft. */
    method StartProfileWizard()
      requires Valid()
      modifies this
      ensures State() == old(State()).(wizard := Some(AskFirst)) && Valid()
    {
      wizard := Some(AskFirst);
    }

    method OnProfileText(text: Option<string>) returns (handled: bool)
      requires Valid()
      modifies this
      ensures (State(), handled) == ProfileInput(old(State()), text) && Valid()
    {
      ProfileInputFacts(State(), text);
      if wizard.None? {
        return false;
      }
      var t := Trim(text.GetOr(""));
      match wizard.value {
        case AskFirst =>
          wizard := Some(AskLast(t));
        case AskLast(first) =>
          wizard := Some(AskPos(first, t));
        case AskPos(first, last) =>
          profile := Some(Profile(first, last, t));
          wizard := None;
          var resume := resumeMbi;
          resumeMbi := false;
          if resume {
            MbiInit();
          }
      }
      return true;
    }

    /** A text message, routed by `HearsIntended` to its handler. */
    method OnText(t: string) returns (cmd: Command)
      requires Valid()
      modifies this
      ensures cmd == HearsIntended(t)
      ensures State() == OnTextState(old(State()), t) && Valid()
    {
      cmd := HearsIntended(t);
      match cmd {
        case StartCmd =>
          var _ := OnStart();
        case StartTest =>
          var _ := StartMbi();
        case RestartFlow =>
          Restart();
        case ProfileCmd =>
          StartProfileWizard();
        case NotACommand =>
          var _ := OnProfileText(Some(t));
        case _ =>
      }
    }
  }
}
