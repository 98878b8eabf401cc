/**
 * The pure text helpers of the furniture feedback bot (feedback/index.js): HTML escaping,
 * the human labels of the answer codes, the report built from the answers, and the
 * normalisation and classification of the owner channel's address.
 */
module FeedbackText {
  import opened Opt
  import opened Text

  // ───────────── esc ─────────────

  /** `s.replace(/c/g, rep)` for one character `c`. */
  function ReplaceChar(s: string, c: char, rep: string): string
    decreases |s|
  {
    if s == [] then [] else (if s[0] == c then rep else [s[0]]) + ReplaceChar(s[1..], c, rep)
  }

  /** `esc`: `String(s || '')`, then `&`, `<` and `>` replaced in that order. */
  function Esc(s: Option<string>): string {
    var t := s.GetOr("");
    ReplaceChar(ReplaceChar(ReplaceChar(t, '&', "&amp;"), '<', "&lt;"), '>', "&gt;")
  }

  /** The escape of one character. */
  function EscChar(c: char): string {
    if c == '&' then "&amp;" else if c == '<' then "&lt;" else if c == '>' then "&gt;" else [c]
  }

  /** Escaping character by character: the reference `Esc` is proved against. */
  function EscEach(t: string): (r: string)
    ensures '<' !in r && '>' !in r
    decreases |t|
  {
    if t == [] then [] else EscChar(t[0]) + EscEach(t[1..])
  }

  lemma {:induction false} ReplaceCharAppend(a: string, b: string, c: char, rep: string)
    ensures ReplaceChar(a + b, c, rep) == ReplaceChar(a, c, rep) + ReplaceChar(b, c, rep)
    decreases |a|
  {
    if a == [] {
      assert a + b == b;
    } else {
      assert (a + b)[0] == a[0] && (a + b)[1..] == a[1..] + b;
      ReplaceCharAppend(a[1..], b, c, rep);
    }
  }

  lemma {:induction false} ReplaceCharAbsent(s: string, c: char, rep: string)
    requires c !in s
    ensures ReplaceChar(s, c, rep) == s
    decreases |s|
  {
    if s != [] {
      assert s[0] in s;
      assert forall x :: x in s[1..] ==> x in s;
      ReplaceCharAbsent(s[1..], c, rep);
    }
  }

  lemma ReplaceSingle(c: char, d: char, rep: string)
    ensures ReplaceChar([c], d, rep) == if c == d then rep else [c]
  {
    assert [c][1..] == [];
  }

  /** The three passes of `esc` on one character give its escape. */
  lemma EscOne(c: char)
    ensures ReplaceChar(ReplaceChar(ReplaceChar([c], '&', "&amp;"), '<', "&lt;"), '>', "&gt;") == EscChar(c)
  {
    ReplaceSingle(c, '&', "&amp;");
    if c == '&' {
      assert '<' !in "&amp;" && '>' !in "&amp;";
      ReplaceCharAbsent("&amp;", '<', "&lt;");
      ReplaceCharAbsent("&amp;", '>', "&gt;");
    } else {
      ReplaceSingle(c, '<', "&lt;");
      if c == '<' {
        assert '>' !in "&lt;";
        ReplaceCharAbsent("&lt;", '>', "&gt;");
      } else {
        ReplaceSingle(c, '>', "&gt;");
      }
    }
  }

  /** The three global replacements escape each character on its own: `&` goes first, so
      the `&` of `&lt;` and `&gt;` is never escaped twice. */
  lemma {:induction false} EscIsEach(t: string)
    ensures Esc(Some(t)) == EscEach(t)
    decreases |t|
  {
    if t != [] {
      var c, rest := t[0], t[1..];
      assert t == [c] + rest;
      ReplaceCharAppend([c], rest, '&', "&amp;");
      ReplaceCharAppend(ReplaceChar([c], '&', "&amp;"), ReplaceChar(rest, '&', "&amp;"), '<', "&lt;");
      ReplaceCharAppend(ReplaceChar(ReplaceChar([c], '&', "&amp;"), '<', "&lt;"),
                        ReplaceChar(ReplaceChar(rest, '&', "&amp;"), '<', "&lt;"), '>', "&gt;");
      EscOne(c);
      EscIsEach(rest);
    }
  }

  /** Reading the three entities back. */
  function Unescape(s: string): string
    decreases |s|
  {
    if s == [] then []
    else if StartsWith(s, "&amp;") then "&" + Unescape(s[5..])
    else if StartsWith(s, "&lt;") then "<" + Unescape(s[4..])
    else if StartsWith(s, "&gt;") then ">" + Unescape(s[4..])
    else [s[0]] + Unescape(s[1..])
  }

  lemma UnescapeAmp(rest: string)
    ensures Unescape("&amp;" + rest) == "&" + Unescape(rest)
  {
    var s := "&amp;" + rest;
    assert s[..5] == "&amp;" && s[5..] == rest;
  }

  lemma UnescapeLt(rest: string)
    ensures Unescape("&lt;" + rest) == "<" + Unescape(rest)
  {
    var s := "&lt;" + rest;
    assert s[1] == 'l';
    assert !StartsWith(s, "&amp;") by { if |s| >= 5 { assert s[..5][1] == 'l'; } }
    assert s[..4] == "&lt;" && s[4..] == rest;
  }

  lemma UnescapeGt(rest: string)
    ensures Unescape("&gt;" + rest) == ">" + Unescape(rest)
  {
    var s := "&gt;" + rest;
    assert s[1] == 'g';
    assert !StartsWith(s, "&amp;") by { if |s| >= 5 { assert s[..5][1] == 'g'; } }
    assert !StartsWith(s, "&lt;") by { assert s[..4][1] == 'g'; }
    assert s[..4] == "&gt;" && s[4..] == rest;
  }

  lemma UnescapeOne(c: char, rest: string)
    ensures Unescape(EscChar(c) + rest) == [c] + Unescape(rest)
  {
    if c == '&' {
      UnescapeAmp(rest);
    } else if c == '<' {
      UnescapeLt(rest);
    } else if c == '>' {
      UnescapeGt(rest);
    } else {
      var s := [c] + rest;
      assert s[0] == c && s[1..] == rest;
      assert !StartsWith(s, "&amp;") && !StartsWith(s, "&lt;") && !StartsWith(s, "&gt;") by {
        if |s| >= 4 { assert s[..4][0] == c; }
        if |s| >= 5 { assert s[..5][0] == c; }
      }
    }
  }

  /** Escaped text contains no `<` or `>`, and unescaping gives the text back. */
  lemma {:induction false} EscRoundTrip(t: string)
    ensures '<' !in Esc(Some(t)) && '>' !in Esc(Some(t))
    ensures Unescape(Esc(Some(t))) == t
    decreases |t|
  {
    EscIsEach(t);
    EachRoundTrip(t);
  }

  lemma {:induction false} EachRoundTrip(t: string)
    ensures Unescape(EscEach(t)) == t
    decreases |t|
  {
    if t != [] {
      UnescapeOne(t[0], EscEach(t[1..]));
      EachRoundTrip(t[1..]);
      assert t == [t[0]] + t[1..];
    }
  }

  // ───────────── friendly ─────────────

  /** The answer codes of `MAP` and their labels; `None` for a code the table lacks. */
  function Label(k: string, v: string): Option<string> {
    if k == "impressions" then
      if v == "great" then Some("Отличные") else if v == "good" then Some("Хорошие")
      else if v == "ok" then Some("Нормальные") else if v == "bad" then Some("Нужно улучшить (укажу в комментарии)")
      else None
    else if k == "liked" then
      if v == "quality" then Some("Качество") else if v == "timing" then Some("Сроки")
      else if v == "comms" then Some("Коммуникация") else if v == "tidy" then Some("Аккуратность")
      else if v == "price" then Some("Цена") else if v == "other" then Some("Другое (укажу в комментарии)")
      else None
    else if k == "pain" then
      if v == "no" then Some("Нет") else if v == "yes_comment" then Some("Да (укажу в комментарии)") else None
    else if k == "match" then
      if v == "full" then Some("Полностью соответствует")
      else if v == "mostly" then Some("В целом нормально, есть нюансы")
      else if v == "not" then Some("Не совсем соответствует")
      else None
    else if k == "pro" then
      if v == "great" then Some("Отлично") else if v == "good" then Some("Хорошо")
      else if v == "meh" then Some("Можно лучше (укажу в комментарии)")
      else None
    else if k == "wish" then
      if v == "ok" then Some("Все устроило") else if v == "ideas" then Some("Есть идеи (укажу в комментарии)") else None
    else if k == "reco" then
      if v == "def_yes" then Some("Да, безусловно") else if v == "yes" then Some("Скорее да")
      else if v == "unsure" then Some("Не уверен(а)") else if v == "no" then Some("Скорее нет")
      else None
    else None
  }

  /** The questions `MAP` has a table for. */
  const MapKeys: seq<string> := ["impressions", "liked", "pain", "match", "pro", "wish", "reco"]

  /** Only the tables of `MAP` have labels. */
  lemma LabelKeys(k: string, v: string)
    ensures Label(k, v).Some? ==> k in MapKeys
  {
  }

  /** `friendly(k, v)`: a quality score as `v/10`, a coded answer by its label (empty for an
      unknown code), any other answer as itself; an absent or empty answer is empty. */
  function Friendly(k: string, v: Option<string>): (r: string)
    ensures v.None? || v.value == [] ==> r == []
  {
    if k == "quality" then (if v.Some? && v.value != [] then v.value + "/10" else "")
    else if k in MapKeys then Label(k, v.GetOr("undefined")).GetOr("")
    else v.GetOr("")
  }

  // ───────────── answersToHtml ─────────────

  /** `x || "—"`. */
  function OrDash(x: string): string {
    if x == [] then "—" else x
  }

  /** `parts.join(sep)` for a separator of several characters. */
  function JoinStr(parts: seq<string>, sep: string): string
    decreases |parts|
  {
    if parts == [] then [] else if |parts| == 1 then parts[0] else parts[0] + sep + JoinStr(parts[1..], sep)
  }

  /** `a.liked.map(x => MAP.liked[x]).filter(Boolean)`. */
  function LikedLabels(liked: seq<string>): (r: seq<string>)
    ensures |r| <= |liked| && forall i :: 0 <= i < |r| ==> r[i] != []
    decreases |liked|
  {
    if liked == [] then []
    else
      var l := Label("liked", liked[0]);
      (if l.Some? then [l.value] else []) + LikedLabels(liked[1..])
  }

  function Get(answers: map<string, string>, key: string): Option<string> {
    if key in answers then Some(answers[key]) else None
  }

  /** `a.key?.trim()`, empty when absent. */
  function TrimmedAnswer(answers: map<string, string>, key: string): string {
    Trim(Get(answers, key).GetOr(""))
  }

  /** The rows of the report. */
  datatype Field = ClientName | Impressions | Liked | Pain | Quality | QualityNote | Match | Pro | Wish | Reco | Comment

  /** The rows in report order: the client, the eight answers, and the liked list (2),
      quality note (4.1) and comment (9), which are left out when empty. */
  const Layout: seq<Field> := [ClientName, Impressions, Liked, Pain, Quality, QualityNote, Match, Pro, Wish, Reco, Comment]

  function Heading(f: Field): string {
    match f
    case ClientName => "Имя"
    case Impressions => "1. Впечатления"
    case Liked => "2. Понравилось"
    case Pain => "3. Неудобства"
    case Quality => "4. Качество"
    case QualityNote => "4.1 Пояснение к качеству"
    case Match => "5. Соответствие"
    case Pro => "6. Профессионализм"
    case Wish => "7. Пожелания"
    case Reco => "8. Рекомендации"
    case Comment => "9. Комментарий"
  }

  /** A coded answer by its label, or a dash. */
  function Coded(answers: map<string, string>, k: string): string {
    OrDash(Friendly(k, Get(answers, k)))
  }

  /** A trimmed free-text answer, or nothing when it is blank. */
  function NonBlank(answers: map<string, string>, k: string): Option<string> {
    var t := TrimmedAnswer(answers, k);
    if t != [] then Some(t) else None
  }

  /** The value of one row; `None` drops an optional row whose value is empty. */
  function CellValue(f: Field, answers: map<string, string>, liked: seq<string>, fullName: string): (r: Option<string>)
    ensures !(f.Liked? || f.QualityNote? || f.Comment?) ==> r.Some?
    ensures r.Some? ==> r.value != []
  {
    match f
    case ClientName => Some(if fullName == [] then "Клиент" else fullName)
    case Impressions => Some(Coded(answers, "impressions"))
    case Liked =>
      var likedHuman := JoinStr(LikedLabels(liked), ", ");
      if likedHuman != [] then Some(likedHuman) else None
    case Pain => Some(Coded(answers, "pain"))
    case Quality =>
      var quality := Get(answers, "quality");
      Some(if quality.Some? && quality.value != [] then quality.value + "/10" else "—")
    case QualityNote => NonBlank(answers, "quality_note")
    case Match => Some(Coded(answers, "match"))
    case Pro => Some(Coded(answers, "pro"))
    case Wish => Some(Coded(answers, "wish"))
    case Reco => Some(Coded(answers, "reco"))
    case Comment => NonBlank(answers, "free")
  }

  /** The rows of `layout` from its `i`-th on. */
  function RowsFrom(layout: seq<Field>, i: nat, answers: map<string, string>, liked: seq<string>, fullName: string): seq<(string, string)>
    decreases |layout| - i
  {
    if i >= |layout| then []
    else
      var v := CellValue(layout[i], answers, liked, fullName);
      (if v.Some? then [(Heading(layout[i]), v.value)] else []) + RowsFrom(layout, i + 1, answers, liked, fullName)
  }

  function Rows(answers: map<string, string>, liked: seq<string>, fullName: string): seq<(string, string)> {
    RowsFrom(Layout, 0, answers, liked, fullName)
  }

  /** How many rows of `layout` from its `i`-th on are not dropped. */
  function Shown(layout: seq<Field>, i: nat, answers: map<string, string>, liked: seq<string>, fullName: string): nat
    decreases |layout| - i
  {
    if i >= |layout| then 0
    else (if CellValue(layout[i], answers, liked, fullName).Some? then 1 else 0) + Shown(layout, i + 1, answers, liked, fullName)
  }

  lemma {:induction false} RowsFromShape(layout: seq<Field>, i: nat, answers: map<string, string>, liked: seq<string>, fullName: string)
    ensures |RowsFrom(layout, i, answers, liked, fullName)| == Shown(layout, i, answers, liked, fullName)
    ensures forall k :: 0 <= k < |RowsFrom(layout, i, answers, liked, fullName)| ==> RowsFrom(layout, i, answers, liked, fullName)[k].1 != []
    decreases |layout| - i
  {
    if i < |layout| {
      RowsFromShape(layout, i + 1, answers, liked, fullName);
    }
  }

  /** One report line: the escaped label in bold, then the escaped value. */
  function Line(row: (string, string)): string {
    "<b>" + Esc(Some(row.0)) + ":</b> " + Esc(Some(row.1))
  }

  function Lines(rows: seq<(string, string)>): (r: seq<string>)
    ensures |r| == |rows|
  {
    seq(|rows|, i requires 0 <= i < |rows| => Line(rows[i]))
  }

  /** `answersToHtml`. */
  function AnswersToHtml(answers: map<string, string>, liked: seq<string>, fullName: string): string {
    JoinWith(Lines(Rows(answers, liked, fullName)), '\n')
  }

  /** The report always names the client first and has the eight fixed rows, plus one for
      each of the liked list, the quality note and the comment that is not blank; no value
      in it is empty. */
  lemma RowsShape(answers: map<string, string>, liked: seq<string>, fullName: string)
    ensures var rows := Rows(answers, liked, fullName);
      |rows| == 8 + (if JoinStr(LikedLabels(liked), ", ") != [] then 1 else 0)
        + (if TrimmedAnswer(answers, "quality_note") != [] then 1 else 0)
        + (if TrimmedAnswer(answers, "free") != [] then 1 else 0)
      && rows[0] == ("Имя", if fullName == [] then "Клиент" else fullName)
      && forall i :: 0 <= i < |rows| ==> rows[i].1 != []
  {
    RowsFromShape(Layout, 0, answers, liked, fullName);
    ShownHead(answers, liked, fullName);
    ShownTail(answers, liked, fullName);
  }

  lemma ShownHead(a: map<string, string>, l: seq<string>, n: string)
    ensures Shown(Layout, 0, a, l, n) == 4 + (if JoinStr(LikedLabels(l), ", ") != [] then 1 else 0)
      + (if TrimmedAnswer(a, "quality_note") != [] then 1 else 0) + Shown(Layout, 6, a, l, n)
  {
    assert |Layout| == 11;
    assert Shown(Layout, 5, a, l, n) == (if TrimmedAnswer(a, "quality_note") != [] then 1 else 0) + Shown(Layout, 6, a, l, n);
    assert Shown(Layout, 3, a, l, n) == 2 + Shown(Layout, 5, a, l, n) by {
      assert Shown(Layout, 4, a, l, n) == 1 + Shown(Layout, 5, a, l, n);
    }
    assert Shown(Layout, 2, a, l, n) == (if JoinStr(LikedLabels(l), ", ") != [] then 1 else 0) + Shown(Layout, 3, a, l, n);
    assert Shown(Layout, 1, a, l, n) == 1 + Shown(Layout, 2, a, l, n);
  }

  lemma ShownTail(a: map<string, string>, l: seq<string>, n: string)
    ensures Shown(Layout, 6, a, l, n) == 4 + (if TrimmedAnswer(a, "free") != [] then 1 else 0)
  {
    assert |Layout| == 11;
    assert Shown(Layout, 10, a, l, n) == (if TrimmedAnswer(a, "free") != [] then 1 else 0) by {
      assert Shown(Layout, 11, a, l, n) == 0;
    }
    assert Shown(Layout, 9, a, l, n) == 1 + Shown(Layout, 10, a, l, n);
    assert Shown(Layout, 8, a, l, n) == 1 + Shown(Layout, 9, a, l, n);
    assert Shown(Layout, 7, a, l, n) == 1 + Shown(Layout, 8, a, l, n);
  }

  /** Every value in the report is escaped: what the client typed cannot open or close a tag. */
  lemma LinesEscaped(rows: seq<(string, string)>, i: int)
    requires 0 <= i < |rows|
    ensures Lines(rows)[i] == "<b>" + Esc(Some(rows[i].0)) + ":</b> " + Esc(Some(rows[i].1))
    ensures '<' !in Esc(Some(rows[i].1)) && '>' !in Esc(Some(rows[i].1))
    ensures Unescape(Esc(Some(rows[i].1))) == rows[i].1
  {
    EscRoundTrip(rows[i].1);
  }

  // ───────────── normalizeRawTarget ─────────────

  /** `t.me/` (any case) at `i`, followed by at least one `\w` character. */
  predicate TmeAt(s: string, i: nat) {
    i + 6 <= |s| && LowerChar(s[i]) == 't' && s[i + 1] == '.' && LowerChar(s[i + 2]) == 'm'
    && LowerChar(s[i + 3]) == 'e' && s[i + 4] == '/' && IsAsciiWordChar(s[i + 5])
  }

  /** The first position at or after `i` where `t.me/<name>` matches. */
  function FindTme(s: string, i: nat): (r: Option<nat>)
    ensures r.Some? ==> i <= r.value && TmeAt(s, r.value) && forall k :: i <= k < r.value ==> !TmeAt(s, k)
    ensures r.None? ==> forall k :: i <= k ==> !TmeAt(s, k)
    decreases |s| - i
  {
    if i + 6 > |s| then None else if TmeAt(s, i) then Some(i) else FindTme(s, i + 1)
  }

  /** Length of the run of `\w` characters starting at `j`. */
  function WordRun(s: string, j: nat): (n: nat)
    ensures j + n <= |s| || (j > |s| && n == 0)
    ensures forall k :: j <= k < j + n ==> IsAsciiWordChar(s[k])
    ensures j + n < |s| ==> !IsAsciiWordChar(s[j + n])
    decreases |s| - j
  {
    if j < |s| && IsAsciiWordChar(s[j]) then 1 + WordRun(s, j + 1) else 0
  }

  /** `normalizeRawTarget`: empty for a missing address; otherwise trimmed, and a `t.me/name`
      link anywhere in it becomes `@name` (the name as long as `\w+` reaches). */
  function NormalizeRawTarget(str: Option<string>): (r: string)
    ensures str.None? || str.value == [] ==> r == []
  {
    if str.None? || str.value == [] then ""
    else
      var s := Trim(str.value);
      match FindTme(s, 0)
      case None => s
      case Some(i) => "@" + s[i + 5..i + 5 + WordRun(s, i + 5)]
  }

  /** A result of the form `@name` holds no `.`, so no link is found in it again. */
  lemma NoTmeWithoutDot(s: string)
    requires '.' !in s
    ensures FindTme(s, 0) == None
  {
    forall k | 0 <= k ensures !TmeAt(s, k) {
      if k + 6 <= |s| {
        assert s[k + 1] in s;
      }
    }
  }

  /** `@name` normalises to itself. */
  lemma AtNameFixed(name: string)
    requires forall k :: 0 <= k < |name| ==> IsAsciiWordChar(name[k])
    ensures NormalizeRawTarget(Some("@" + name)) == "@" + name
  {
    var r := "@" + name;
    assert forall k :: 1 <= k < |r| ==> r[k] == name[k - 1];
    assert Trimmed(r);
    TrimmedFixed(r);
    assert '.' !in r;
    NoTmeWithoutDot(r);
  }

  /** Normalising twice is normalising once. */
  lemma NormalizeIdempotent(str: Option<string>)
    ensures NormalizeRawTarget(Some(NormalizeRawTarget(str))) == NormalizeRawTarget(str)
  {
    if str.Some? && str.value != [] {
      var s := Trim(str.value);
      TrimIdempotent(str.value);
      match FindTme(s, 0)
      case None =>
      case Some(i) =>
        AtNameFixed(s[i + 5..i + 5 + WordRun(s, i + 5)]);
    }
  }

  /** What `resolveTargetChatId` accepts without asking Telegram: a chat id `-100` followed by
      at least five digits, or `@` followed by at least five `\w` characters. */
  datatype TargetForm = NoTarget | ChatId | Username | BadFormat

  function TargetFormOf(raw: string): (f: TargetForm)
    ensures f == NoTarget <==> raw == []
  {
    if raw == [] then NoTarget
    else if |raw| >= 9 && raw[..4] == "-100" && forall k :: 4 <= k < |raw| ==> IsDigit(raw[k]) then ChatId
    else if |raw| >= 6 && raw[0] == '@' && forall k :: 1 <= k < |raw| ==> IsAsciiWordChar(raw[k]) then Username
    else BadFormat
  }

  /** The first link in a text is found where it stands. */
  lemma FindFirst(s: string, i: nat)
    requires TmeAt(s, i) && forall k :: 0 <= k < i ==> !TmeAt(s, k)
    ensures FindTme(s, 0) == Some(i)
  {
  }

  /** In `pre + "t.me/" + name + post` the link is found after `pre`, with the whole name. */
  lemma LinkFound(pre: string, name: string, post: string)
    requires '.' !in pre
    requires |name| >= 1 && forall k :: 0 <= k < |name| ==> IsAsciiWordChar(name[k])
    requires post == [] || !IsAsciiWordChar(post[0])
    ensures var s := pre + "t.me/" + name + post; var j := |pre| + 5;
      FindTme(s, 0) == Some(|pre|) && WordRun(s, j) == |name| && s[j..j + |name|] == name
  {
    var a := pre + "t.me/";
    var s := a + name + post;
    var i := |pre|;
    assert s[i] == a[i] == 't' && s[i + 1] == a[i + 1] == '.' && s[i + 2] == a[i + 2] == 'm';
    assert s[i + 3] == a[i + 3] == 'e' && s[i + 4] == a[i + 4] == '/';
    assert forall k :: 0 <= k < |name| ==> s[i + 5 + k] == name[k];
    assert TmeAt(s, i);
    forall k | 0 <= k < i ensures !TmeAt(s, k) {
      if k + 1 < i {
        assert s[k + 1] == pre[k + 1];
        assert pre[k + 1] in pre;
      }
    }
    FindFirst(s, i);
    assert i + 5 + |name| < |s| ==> s[i + 5 + |name|] == post[0];
    RunOfName(s, i + 5, name);
  }

  /** A channel link with a name of five or more `\w` characters resolves to a username. */
  lemma LinkGivesUsername(pre: string, name: string, post: string)
    requires Trimmed(pre + "t.me/" + name + post) && '.' !in pre
    requires |name| >= 5 && forall k :: 0 <= k < |name| ==> IsAsciiWordChar(name[k])
    requires post == [] || !IsAsciiWordChar(post[0])
    ensures NormalizeRawTarget(Some(pre + "t.me/" + name + post)) == "@" + name
    ensures TargetFormOf("@" + name) == Username
  {
    var s := pre + "t.me/" + name + post;
    TrimmedFixed(s);
    LinkFound(pre, name, post);
    UsernameForm(name);
  }

  /** `@` and five or more `\w` characters is a username. */
  lemma UsernameForm(name: string)
    requires |name| >= 5 && forall k :: 0 <= k < |name| ==> IsAsciiWordChar(name[k])
    ensures TargetFormOf("@" + name) == Username
  {
    var r := "@" + name;
    assert r[..4][0] == '@';
    assert forall k :: 1 <= k < |r| ==> r[k] == name[k - 1];
  }

  /** The `\w+` run at `j` is exactly a name of word characters written there. */
  lemma {:induction false} RunOfName(s: string, j: nat, name: string)
    requires j + |name| <= |s| && forall k :: 0 <= k < |name| ==> s[j + k] == name[k]
    requires forall k :: 0 <= k < |name| ==> IsAsciiWordChar(name[k])
    requires j + |name| < |s| ==> !IsAsciiWordChar(s[j + |name|])
    ensures WordRun(s, j) == |name| && s[j..j + |name|] == name
    decreases |name|
  {
    if name != [] {
      assert s[j] == name[0];
      RunOfName(s, j + 1, name[1..]);
      assert s[j..j + |name|] == [s[j]] + s[j + 1..j + |name|];
    }
  }
}
