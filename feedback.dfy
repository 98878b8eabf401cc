/**
 * The furniture feedback bot's questionnaire (feedback/index.js): a chat first collects up
 * to five photos or videos, then walks through nine questions answered by buttons or text,
 * with an extra free-text quality note after a low quality score, and finally sends the
 * report and starts over.
 *
 * The session of one chat is the class `Chat`, whose handlers change its fields in place as
 * the bot's handlers change `ctx.session`; each handler is proved against a function on
 * `Session` values, and the properties of the questionnaire are lemmas about those functions.
 */
module Feedback {
  import opened Opt
  import opened Text
  import opened BotCommon
  import LeadsUtils
  import FeedbackText

  datatype Stage = MediaStage | QaStage

  datatype QType = Rating5 | Multi | Single | Rating10 | FreeText

  datatype Question = Question(key: string, qtype: QType)

  /** `QUESTIONS`, without their texts and button labels. */
  const Questions: seq<Question> := [
    Question("impressions", Rating5), Question("liked", Multi), Question("pain", Single),
    Question("quality", Rating10), Question("match", Single), Question("pro", Single),
    Question("wish", Single), Question("reco", Single), Question("free", FreeText)
  ]

  const QualityIndex: nat := 3
  const MatchIndex: nat := 4
  const MaxMedia: nat := 5

  datatype MediaKind = Photo | Video

  datatype MediaItem = MediaItem(kind: MediaKind, id: string)

  /** What the bot asks next: the 4.1 quality note, "press send", or a question. */
  datatype Prompt = NotePrompt | DonePrompt | QuestionPrompt(index: nat)

  /** `ctx.session`; `_tgFullName` is `fullName` and `answers.liked` is `liked`. */
  datatype Session = Session(stage: Stage, step: nat, answers: map<string, string>, liked: seq<string>,
                             fullName: string, media: seq<MediaItem>, needNote: bool, expectingNote: bool)

  /** The session `/start` and a submission leave behind (flags not set read as false). */
  function Fresh(fullName: string): Session {
    Session(MediaStage, 0, map[], [], fullName, [], false, false)
  }

  /** The states between two updates. */
  predicate ValidSession(s: Session) {
    s.step <= |Questions| && |s.media| <= MaxMedia && Distinct(s.liked) && !s.needNote
    && (s.expectingNote ==> s.stage == QaStage)
    && (s.stage == MediaStage ==> s.step == 0 && s.answers == map[] && s.liked == [])
  }

  // ───────────── askQuestion ─────────────

  /** `askQuestion`: the quality note if it is due and the current question is 'match';
      "done" past the last question; otherwise the current question. */
  function AskNext(s: Session): (Session, Prompt) {
    if s.needNote && s.step < |Questions| && Questions[s.step].key == "match" then
      (s.(needNote := false, expectingNote := true), NotePrompt)
    else if s.step >= |Questions| then (s, DonePrompt)
    else (s, QuestionPrompt(s.step))
  }

  function Asked(r: (Session, Prompt)): (Session, Option<Prompt>) {
    (r.0, Some(r.1))
  }

  /** Only 'match' is at MatchIndex, and only 'quality' is scored out of ten. */
  lemma QuestionsFacts()
    ensures Questions[MatchIndex].key == "match" && Questions[QualityIndex].qtype == Rating10
    ensures forall i :: 0 <= i < |Questions| && Questions[i].key == "match" ==> i == MatchIndex
    ensures forall i :: 0 <= i < |Questions| && Questions[i].qtype == Rating10 ==> i == QualityIndex
  {
  }

  // ───────────── media stage ─────────────

  datatype MediaReply = Ignored | TooMany | Accepted(count: nat)

  /** The photo and video handlers: only in the media stage, at most five files. */
  function AddMedia(s: Session, item: MediaItem): (Session, MediaReply) {
    if s.stage != MediaStage then (s, Ignored)
    else if |s.media| >= MaxMedia then (s, TooMany)
    else (s.(media := s.media + [item]), Accepted(|s.media| + 1))
  }

  /** A file is kept exactly when the chat is collecting media and has fewer than five; the
      list never exceeds five and nothing else changes. */
  lemma AddMediaFacts(s: Session, item: MediaItem)
    requires ValidSession(s)
    ensures var (s', reply) := AddMedia(s, item);
      ValidSession(s') && |s'.media| <= MaxMedia
      && (reply.Accepted? <==> s.stage == MediaStage && |s.media| < MaxMedia)
      && (reply.Accepted? ==> s'.media == s.media + [item] && reply.count == |s'.media|)
      && (!reply.Accepted? ==> s' == s)
      && s'.(media := s.media) == s
  {
  }

  /** 'media_next': from the media stage to the questions, asking the first; otherwise nothing. */
  function MediaNext(s: Session): (Session, Option<Prompt>) {
    if s.stage != MediaStage then (s, None)
    else Asked(AskNext(s.(stage := QaStage)))
  }

  lemma MediaNextFacts(s: Session)
    requires ValidSession(s)
    ensures var (s', p) := MediaNext(s);
      ValidSession(s')
      && (s.stage == MediaStage ==> s'.stage == QaStage && p == Some(QuestionPrompt(0)) && s'.media == s.media)
      && (s.stage != MediaStage ==> s' == s && p == None)
  {
  }

  // ───────────── answers by button ─────────────

  /** Text after the first `:` up to the next one: `data.split(':')[1]`. */
  lemma {:induction false} SplitOnTwo(s: string, c: char)
    requires c in s
    ensures |SplitOn(s, c)| >= 2
    decreases |s|
  {
    if s[0] != c {
      assert c in s[1..] by {
        var k :| 0 <= k < |s| && s[k] == c;
        assert s[1..][k - 1] == c;
      }
      SplitOnTwo(s[1..], c);
    }
  }

  function ArgOf(data: string): string
    requires ':' in data
  {
    SplitOnTwo(data, ':');
    SplitOn(data, ':')[1]
  }

  /** The argument of a button `prefix:value`. */
  lemma ArgOfButton(prefix: string, value: string)
    requires ':' !in prefix && ':' !in value
    ensures ':' in prefix + ":" + value && ArgOf(prefix + ":" + value) == value
  {
    var data := prefix + ":" + value;
    assert data[|prefix|] == ':';
    SplitOnFirst(prefix, ':', value);
    SplitOnNone(value, ':');
    assert prefix + [':'] + value == data;
  }

  predicate Tagged(data: string, tag: string) {
    StartsWith(data, tag + ":")
  }

  lemma TaggedHasColon(data: string, tag: string)
    requires Tagged(data, tag)
    ensures ':' in data
  {
    assert data[|tag|] == (tag + ":")[|tag|] == ':';
  }

  function IndexOf(arr: seq<string>, v: string): (i: nat)
    requires v in arr
    ensures i < |arr| && arr[i] == v && v !in arr[..i]
    decreases |arr|
  {
    if arr[0] == v then 0
    else
      var j := IndexOf(arr[1..], v);
      assert arr[..j + 1] == [arr[0]] + arr[1..][..j];
      j + 1
  }

  /** The multi-select toggle: `splice` the value out where it first occurs, else `push` it. */
  function Toggle(arr: seq<string>, v: string): seq<string> {
    if v in arr then arr[..IndexOf(arr, v)] + arr[IndexOf(arr, v) + 1..] else arr + [v]
  }

  /** Toggling keeps the list free of repeats and flips the value's membership only. */
  lemma ToggleFacts(arr: seq<string>, v: string)
    requires Distinct(arr)
    ensures Distinct(Toggle(arr, v))
    ensures forall x :: x in Toggle(arr, v) <==> (x in arr) != (x == v)
  {
    if v in arr {
      var i := IndexOf(arr, v);
      var r := arr[..i] + arr[i + 1..];
      assert forall k :: 0 <= k < |r| ==> r[k] == (if k < i then arr[k] else arr[k + 1]);
      forall x ensures x in r <==> (x in arr && x != v) {
        if x in arr && x != v {
          var k :| 0 <= k < |arr| && arr[k] == x;
          assert k != i;
          if k < i { assert r[k] == x; } else { assert r[k - 1] == x; }
        }
      }
    }
  }

  /** Toggling a value twice leaves the same values picked; a value that was not picked
      leaves the very same list, one that was is moved to the end. */
  lemma ToggleTwice(arr: seq<string>, v: string)
    requires Distinct(arr)
    ensures forall x :: x in Toggle(Toggle(arr, v), v) <==> x in arr
    ensures v !in arr ==> Toggle(Toggle(arr, v), v) == arr
    ensures v in arr ==> Toggle(Toggle(arr, v), v) == Toggle(arr, v) + [v]
  {
    ToggleFacts(arr, v);
    ToggleFacts(Toggle(arr, v), v);
    if v !in arr {
      var t := arr + [v];
      var i := IndexOf(t, v);
      forall k | 0 <= k < |arr| ensures t[k] != v {
        assert t[k] == arr[k];
      }
      assert t[..i] == arr;
    }
  }

  /** `Number(val) <= 8`: NaN compares false, -Infinity true. */
  predicate NoteWanted(v: string) {
    match LeadsUtils.JsNumberOf(v)
    case NaN => false
    case Infinity(negative) => negative
    case Num(x) => x <= 8.0
  }

  /** A score written as digits asks for the note exactly when it is at most eight. */
  lemma NoteWantedOfScore(n: nat)
    ensures NoteWanted(NatToString(n)) <==> n <= 8
  {
    LeadsUtils.NumberOfNat(n);
  }

  /** The `callback_query` handler past its stage and submit checks: the current question
      takes the button meant for its type; any other button changes nothing. */
  function Answer(s: Session, data: string): (Session, Option<Prompt>) {
    if s.step >= |Questions| then (s, None)
    else
      var q := Questions[s.step];
      if q.qtype == Multi && data == "multi_done" then Asked(AskNext(s.(step := s.step + 1)))
      else if q.qtype == Multi && Tagged(data, "multi") then
        TaggedHasColon(data, "multi");
        (s.(liked := Toggle(s.liked, ArgOf(data))), None)
      else if q.qtype == Rating10 && Tagged(data, "rate10") then
        TaggedHasColon(data, "rate10");
        var v := ArgOf(data);
        Asked(AskNext(s.(answers := s.answers[q.key := v], needNote := NoteWanted(v), step := s.step + 1)))
      else if (q.qtype == Rating5 || q.qtype == Single) && Tagged(data, "single") then
        TaggedHasColon(data, "single");
        Asked(AskNext(s.(answers := s.answers[q.key := ArgOf(data)], step := s.step + 1)))
      else (s, None)
  }

  /** The branches of `Answer` one by one, as the handler takes them. */
  lemma AnswerBranches(s: Session, data: string)
    requires s.step < |Questions|
    ensures var q := Questions[s.step];
      q.qtype == Multi && data == "multi_done" ==> Answer(s, data) == Asked(AskNext(s.(step := s.step + 1)))
    ensures var q := Questions[s.step];
      q.qtype == Multi && data != "multi_done" && Tagged(data, "multi") ==>
        (':' in data && Answer(s, data) == (s.(liked := Toggle(s.liked, ArgOf(data))), None))
    ensures var q := Questions[s.step];
      q.qtype == Rating10 && Tagged(data, "rate10") ==>
        (':' in data && Answer(s, data) == Asked(AskNext(s.(answers := s.answers[q.key := ArgOf(data)],
                                                             needNote := NoteWanted(ArgOf(data)), step := s.step + 1))))
    ensures var q := Questions[s.step];
      (q.qtype == Rating5 || q.qtype == Single) && Tagged(data, "single") ==>
        (':' in data && Answer(s, data) == Asked(AskNext(s.(answers := s.answers[q.key := ArgOf(data)], step := s.step + 1))))
  {
    var q := Questions[s.step];
    if q.qtype == Multi && data != "multi_done" && Tagged(data, "multi") {
      TaggedHasColon(data, "multi");
    }
    if q.qtype == Rating10 && Tagged(data, "rate10") {
      TaggedHasColon(data, "rate10");
    }
    if (q.qtype == Rating5 || q.qtype == Single) && Tagged(data, "single") {
      TaggedHasColon(data, "single");
    }
  }

  /** Answering by button keeps the session valid, and the quality note is asked for exactly
      when the quality score is answered with a value of at most eight. */
  lemma AnswerFacts(s: Session, data: string)
    requires ValidSession(s) && s.stage == QaStage
    ensures ValidSession(Answer(s, data).0)
    ensures var s' := Answer(s, data).0; s'.stage == QaStage && s'.media == s.media && s'.fullName == s.fullName
    ensures Answer(s, data).1 == Some(NotePrompt) <==>
              s.step == QualityIndex && Tagged(data, "rate10") && ':' in data && NoteWanted(ArgOf(data))
    ensures Answer(s, data).1 == Some(NotePrompt) ==> Answer(s, data).0.expectingNote && Answer(s, data).0.step == MatchIndex
  {
    QuestionsFacts();
    if s.step < |Questions| {
      var q := Questions[s.step];
      if q.qtype == Multi && data != "multi_done" && Tagged(data, "multi") {
        TaggedHasColon(data, "multi");
        ToggleFacts(s.liked, ArgOf(data));
      } else if q.qtype == Rating10 && Tagged(data, "rate10") {
        assert s.step == QualityIndex;
        TaggedHasColon(data, "rate10");
        var v := ArgOf(data);
        var s1 := s.(answers := s.answers[q.key := v], needNote := NoteWanted(v), step := s.step + 1);
        assert Questions[s1.step].key == "match";
        assert Answer(s, data) == Asked(AskNext(s1));
      }
    }
  }

  // ───────────── answers by text ─────────────

  /** The text handler: in the question stage, the awaited quality note, else the answer to a
      text question; the step after the note stays on 'match' so that it is asked next. */
  function ReadText(s: Session, text: Option<string>): (Session, Option<Prompt>) {
    if s.stage != QaStage then (s, None)
    else if s.expectingNote then
      Asked(AskNext(s.(answers := s.answers["quality_note" := Trim(text.GetOr(""))], expectingNote := false)))
    else if s.step >= |Questions| || Questions[s.step].qtype != FreeText then (s, None)
    else Asked(AskNext(s.(answers := s.answers[Questions[s.step].key := Trim(text.GetOr(""))], step := s.step + 1)))
  }

  /** The text handler as written: the quality-note branch also advances the step. */
  function ReadTextAsWritten(s: Session, text: Option<string>): (Session, Option<Prompt>) {
    if s.stage != QaStage then (s, None)
    else if s.expectingNote then
      Asked(AskNext(s.(answers := s.answers["quality_note" := Trim(text.GetOr(""))], expectingNote := false,
                       step := s.step + 1)))
    else if s.step >= |Questions| || Questions[s.step].qtype != FreeText then (s, None)
    else Asked(AskNext(s.(answers := s.answers[Questions[s.step].key := Trim(text.GetOr(""))], step := s.step + 1)))
  }

  /** Text is stored only as the awaited note or as the answer to a text question; any other
      text changes nothing. The note is stored trimmed and never asked for again. */
  lemma ReadTextFacts(s: Session, text: Option<string>)
    requires ValidSession(s)
    ensures var (s', p) := ReadText(s, text);
      ValidSession(s') && s'.media == s.media && s'.stage == s.stage && p != Some(NotePrompt)
      && ((s.stage != QaStage || (!s.expectingNote && (s.step >= |Questions| || Questions[s.step].qtype != FreeText)))
            ==> s' == s && p == None)
      && (s.stage == QaStage && s.expectingNote ==>
            s'.answers == s.answers["quality_note" := Trim(text.GetOr(""))] && !s'.expectingNote && s'.step == s.step)
  {
  }

  /** After a quality score of at most eight the note is asked for; once it is written, the
      code as written asks question 6 ('pro'), so 'match' is never asked, while the corrected
      handler asks 'match'. */
  lemma QualityNoteSkipsMatch(s: Session, v: string, note: Option<string>)
    requires ValidSession(s) && s.stage == QaStage && s.step == QualityIndex && !s.expectingNote
    requires ':' !in v && NoteWanted(v)
    ensures ':' in "rate10:" + v
    ensures var (s1, p1) := Answer(s, "rate10:" + v);
      p1 == Some(NotePrompt)
      && ReadTextAsWritten(s1, note).1 == Some(QuestionPrompt(MatchIndex + 1))
      && ReadText(s1, note).1 == Some(QuestionPrompt(MatchIndex))
  {
    ArgOfButton("rate10", v);
    assert "rate10" + ":" + v == "rate10:" + v;
    var data := "rate10:" + v;
    assert Tagged(data, "rate10") by { assert data[..7] == "rate10:"; }
    QuestionsFacts();
  }

  // ───────────── submit ─────────────

  /** What a submission sends: the answers, the liked list and the client's name. */
  datatype Submission = Submission(answers: map<string, string>, liked: seq<string>, fullName: string)

  /** The message sent to the owner channel for a submission. */
  function Report(sub: Submission): string {
    "\n<b>Отзыв от клиента:</b>\n" + FeedbackText.AnswersToHtml(sub.answers, sub.liked, sub.fullName) + "\n"
  }

  function SubmissionOf(s: Session): Submission {
    Submission(s.answers, s.liked, s.fullName)
  }

  /** `handleSubmit`: only in the question stage; the submission, whose `Report` goes to the
      owner channel, then a fresh session that keeps the display name (the default "Клиент"
      when there was none). */
  function Submit(s: Session): (Session, Option<Submission>) {
    if s.stage != QaStage then (s, None)
    else (Fresh(DisplayName(s.fullName)), Some(SubmissionOf(s)))
  }

  function DisplayName(fullName: string): string {
    if fullName == [] then "Клиент" else fullName
  }

  lemma SubmitFacts(s: Session)
    requires ValidSession(s)
    ensures var (s', r) := Submit(s);
      ValidSession(s')
      && (r.Some? <==> s.stage == QaStage)
      && (r.Some? ==> s'.stage == MediaStage && s'.step == 0 && s'.answers == map[] && s'.liked == []
                      && s'.media == [] && s'.fullName != [] && (s.fullName != [] ==> s'.fullName == s.fullName))
      && (r.None? ==> s' == s)
  {
  }

  // ───────────── dispatch ─────────────

  datatype CallbackReply = WaitForMedia | Submitted(sent: Submission) | SubmitRefused | Prompted(prompt: Prompt) | NoReply

  /** A button press: 'media_next' has its own handler; otherwise the general handler, which
      during the media stage only asks for media, sends 'submit' to `handleSubmit`, and gives
      any other button to the current question. */
  function Callback(s: Session, data: string): (Session, CallbackReply) {
    if data == "media_next" then
      var (s', p) := MediaNext(s);
      (s', if p.Some? then Prompted(p.value) else NoReply)
    else if s.stage == MediaStage then (s, WaitForMedia)
    else if data == "submit" then
      var (s', r) := Submit(s);
      (s', if r.Some? then Submitted(r.value) else SubmitRefused)
    else
      var (s', p) := Answer(s, data);
      (s', if p.Some? then Prompted(p.value) else NoReply)
  }

  lemma CallbackFacts(s: Session, data: string)
    requires ValidSession(s)
    ensures var (s', reply) := Callback(s, data);
      ValidSession(s')
      && (s.stage == MediaStage && data != "media_next" ==> s' == s && reply == WaitForMedia)
      && (reply.Submitted? ==> s' == Fresh(DisplayName(s.fullName)))
  {
    if data == "media_next" {
      MediaNextFacts(s);
    } else if s.stage == QaStage && data == "submit" {
      SubmitFacts(s);
    } else if s.stage == QaStage {
      AnswerFacts(s, data);
    }
  }

  /** `[first_name, last_name].filter(Boolean).join(' ') || first_name || 'Клиент'`. */
  function FullName(first: Option<string>, last: Option<string>): (r: string)
    ensures r != []
  {
    var parts := (if first.Some? && first.value != [] then [first.value] else [])
      + (if last.Some? && last.value != [] then [last.value] else []);
    var joined := JoinWith(parts, ' ');
    if joined != [] then joined
    else if first.Some? && first.value != [] then first.value
    else "Клиент"
  }

  // ───────────── the chat session ─────────────

  class Chat {
    var stage: Stage
    var step: nat
    var answers: map<string, string>
    var liked: seq<string>
    var fullName: string
    var media: seq<MediaItem>
    var needNote: bool
    var expectingNote: bool

    function State(): Session
      reads this
    {
      Session(stage, step, answers, liked, fullName, media, needNote, expectingNote)
    }

    ghost predicate Valid()
      reads this
    {
      ValidSession(State())
    }

    /** `defaultSession`. */
    constructor ()
      ensures State() == Fresh("") && Valid()
    {
      stage, step, answers, liked := MediaStage, 0, map[], [];
      fullName, media, needNote, expectingNote := "", [], false, false;
    }

    /** `/start`: a fresh session under the user's name. */
    method Start(first: Option<string>, last: Option<string>)
      modifies this
      ensures State() == Fresh(FullName(first, last)) && Valid()
    {
      var full := FullName(first, last);
      stage, step, answers, liked := MediaStage, 0, map[], [];
      fullName, media, needNote, expectingNote := full, [], false, false;
    }

    method AskQuestion() returns (p: Prompt)
      modifies this
      ensures (State(), p) == AskNext(old(State()))
    {
      if needNote && step < |Questions| && Questions[step].key == "match" {
        needNote := false;
        expectingNote := true;
        return NotePrompt;
      }
      if step >= |Questions| {
        return DonePrompt;
      }
      return QuestionPrompt(step);
    }

    /** The photo and video handlers. */
    method OnMedia(item: MediaItem) returns (reply: MediaReply)
      requires Valid()
      modifies this
      ensures (State(), reply) == AddMedia(old(State()), item) && Valid()
    {
      AddMediaFacts(State(), item);
      if stage != MediaStage {
        return Ignored;
      }
      if |media| >= MaxMedia {
        return TooMany;
      }
      media := media + [item];
      return Accepted(|media|);
    }

    method HandleSubmit() returns (sent: Option<Submission>)
      modifies this
      ensures (State(), sent) == Submit(old(State()))
    {
      if stage != QaStage {
        return None;
      }
      sent := Some(Submission(answers, liked, fullName));
      var name := DisplayName(fullName);
      stage, step, answers, liked := MediaStage, 0, map[], [];
      fullName, media, needNote, expectingNote := name, [], false, false;
    }

    /** Record an answer (or none) and move on to the next question. */
    method RecordAndAsk(key: string, v: string, record: bool, note: bool) returns (p: Prompt)
      modifies this
      ensures (State(), p) == AskNext(old(State()).(answers := if record then old(answers)[key := v] else old(answers),
                                                      needNote := note, step := old(step) + 1))
    {
      if record {
        answers := answers[key := v];
      }
      needNote := note;
      step := step + 1;
      p := AskQuestion();
    }

    /** The general button handler, past the media stage and 'submit'. */
    method AnswerButton(data: string) returns (p: Option<Prompt>)
      modifies this
      ensures (State(), p) == Answer(old(State()), data)
    {
      if step >= |Questions| {
        return None;
      }
      AnswerBranches(State(), data);
      var q := Questions[step];
      var asked: Prompt;
      if q.qtype == Multi && data == "multi_done" {
        asked := RecordAndAsk(q.key, "", false, needNote);
      } else if q.qtype == Multi && Tagged(data, "multi") {
        liked := Toggle(liked, ArgOf(data));
        return None;
      } else if q.qtype == Rating10 && Tagged(data, "rate10") {
        var v := ArgOf(data);
        asked := RecordAndAsk(q.key, v, true, NoteWanted(v));
      } else if (q.qtype == Rating5 || q.qtype == Single) && Tagged(data, "single") {
        asked := RecordAndAsk(q.key, ArgOf(data), true, needNote);
      } else {
        return None;
      }
      return Some(asked);
    }

    method OnCallback(data: string) returns (reply: CallbackReply)
      requires Valid()
      modifies this
      ensures (State(), reply) == Callback(old(State()), data) && Valid()
    {
      CallbackFacts(State(), data);
      if data == "media_next" {
        if stage != MediaStage {
          return NoReply;
        }
        stage := QaStage;
        var asked := AskQuestion();
        return Prompted(asked);
      }
      if stage == MediaStage {
        return WaitForMedia;
      }
      if data == "submit" {
        var sent := HandleSubmit();
        return if sent.Some? then Submitted(sent.value) else SubmitRefused;
      }
      var p := AnswerButton(data);
      return if p.Some? then Prompted(p.value) else NoReply;
    }

    /** The text handler. */
    method OnText(text: Option<string>) returns (p: Option<Prompt>)
      requires Valid()
      modifies this
      ensures (State(), p) == ReadText(old(State()), text) && Valid()
    {
      ReadTextFacts(State(), text);
      if stage != QaStage {
        return None;
      }
      if expectingNote {
        answers := answers["quality_note" := Trim(text.GetOr(""))];
        expectingNote := false;
        var asked := AskQuestion();
        return Some(asked);
      }
      if step >= |Questions| || Questions[step].qtype != FreeText {
        return None;
      }
      answers := answers[Questions[step].key := Trim(text.GetOr(""))];
      step := step + 1;
      var asked := AskQuestion();
      return Some(asked);
    }
  }
}
