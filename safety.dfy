/**
 * mamacare's answer guard (mamacare/src/validators.js): the triage zone a model answer
 * opens with, the dosage detector built on one regular expression, and the rule that an
 * empty answer or one naming a dose is replaced by a fixed safe text.
 *
 * The regular expression
 *   /\b\d+(?:[\.,]\d+)?\s?(?:mg|мг|ml|мл|кап(?:ель|)|капли|таб(?:летк|)|дозы?)\b/i
 * is modelled by its set of matches: every choice the backtracking matcher may make (how many
 * digits, whether the fraction, the space and which unit) is an existential witness, and a
 * word boundary `\b` is judged by a word-character class. JavaScript's `\b` without the `u`
 * flag knows only [A-Za-z0-9_] as word characters (`Ascii`); the detector the rest of the
 * model uses also counts Cyrillic letters (`Letters`), see `CyrillicUnitMissed`.
 */
module Safety {
  import opened Opt
  import opened Text

  // ───────────── extractZone ─────────────

  const Zones: seq<string> := ["RED", "AMBER", "GREEN"]

  /** `t` opens with `[z]`, the letters of `z` in any case. */
  predicate TagAt(t: string, z: string) {
    |z| + 2 <= |t| && t[0] == '[' && t[|z| + 1] == ']'
    && forall k :: 0 <= k < |z| ==> LowerChar(t[k + 1]) == LowerChar(z[k])
  }

  /** `/^\s*\[(RED|AMBER|GREEN)\]/i`, upper-cased, or "UNKNOWN". */
  function ExtractZone(text: string): (r: string)
    ensures r in Zones || r == "UNKNOWN"
  {
    var t := text[LeadLen(text)..];
    if TagAt(t, "RED") then "RED"
    else if TagAt(t, "AMBER") then "AMBER"
    else if TagAt(t, "GREEN") then "GREEN"
    else "UNKNOWN"
  }

  lemma {:induction false} LeadLenPrefix(ws: string, t: string)
    requires AllSpace(ws) && t != [] && !IsSpace(t[0])
    ensures LeadLen(ws + t) == |ws|
    decreases |ws|
  {
    if ws == [] {
      assert ws + t == t;
    } else {
      assert (ws + t)[0] == ws[0];
      assert (ws + t)[1..] == ws[1..] + t;
      LeadLenPrefix(ws[1..], t);
    }
  }

  /** Leading white space, then a zone tag written in any case: the zone, upper-cased,
      whatever follows. */
  lemma ZoneOfTag(ws: string, z: string, w: string, rest: string)
    requires AllSpace(ws) && z in Zones
    requires |w| == |z| && forall k :: 0 <= k < |z| ==> LowerChar(w[k]) == LowerChar(z[k])
    ensures ExtractZone(ws + "[" + w + "]" + rest) == z
  {
    var t := "[" + w + "]" + rest;
    assert ws + "[" + w + "]" + rest == ws + t;
    LeadLenPrefix(ws, t);
    assert (ws + t)[|ws|..] == t;
    TagOfWord(w, z, rest);
    TagsExclusive(t);
  }

  /** A text that opens with a zone tag, written in any case, has that zone. */
  lemma ZoneAtStart(z: string, w: string, rest: string)
    requires z in Zones
    requires |w| == |z| && forall k :: 0 <= k < |z| ==> LowerChar(w[k]) == LowerChar(z[k])
    ensures ExtractZone("[" + w + "]" + rest) == z
  {
    var t := "[" + w + "]" + rest;
    assert t[0] == '[' && !IsSpace(t[0]);
    assert LeadLen(t) == 0;
    assert t[0..] == t;
    TagOfWord(w, z, rest);
    TagsExclusive(t);
  }

  lemma TagOfWord(w: string, z: string, rest: string)
    requires |w| == |z| && forall k :: 0 <= k < |z| ==> LowerChar(w[k]) == LowerChar(z[k])
    ensures TagAt("[" + w + "]" + rest, z)
  {
    var t := "[" + w + "]" + rest;
    assert forall k :: 0 <= k < |w| ==> t[k + 1] == w[k];
    assert t[|w| + 1] == ']';
  }

  /** A text opens with at most one of the zone tags. */
  lemma TagsExclusive(t: string)
    ensures TagAt(t, "AMBER") ==> !TagAt(t, "RED")
    ensures TagAt(t, "GREEN") ==> !TagAt(t, "RED") && !TagAt(t, "AMBER")
  {
    if TagAt(t, "AMBER") {
      assert LowerChar(t[4]) == LowerChar("AMBER"[3]);
    }
    if TagAt(t, "GREEN") {
      assert LowerChar(t[4]) == LowerChar("GREEN"[3]) == 'e';
      assert LowerChar(t[1]) == LowerChar("GREEN"[0]) == 'g';
      assert LowerChar("AMBER"[0]) == 'a';
    }
  }

  /** No zone unless the first character after the white space is `[`. */
  lemma ZoneNeedsBracket(text: string)
    requires LeadLen(text) == |text| || text[LeadLen(text)] != '['
    ensures ExtractZone(text) == "UNKNOWN"
  {
    var t := text[LeadLen(text)..];
    assert t == [] || t[0] == text[LeadLen(text)];
    NoBracketNoTag(t, "RED");
    NoBracketNoTag(t, "AMBER");
    NoBracketNoTag(t, "GREEN");
  }

  lemma NoBracketNoTag(t: string, z: string)
    requires t == [] || t[0] != '['
    ensures !TagAt(t, z)
  {
  }

  // ───────────── containsDosage ─────────────

  /** Which characters `\b` counts as word characters. */
  datatype WordClass = Ascii | Letters

  predicate IsCyrillic(c: char) {
    '\U{400}' <= c <= '\U{4FF}'
  }

  predicate IsWordChar(w: WordClass, c: char) {
    IsAsciiWordChar(c) || (w == Letters && IsCyrillic(c))
  }

  /** `\b` at position `i`: a word character on exactly one side. */
  predicate Boundary(w: WordClass, s: string, i: int)
    requires 0 <= i <= |s|
  {
    (i > 0 && IsWordChar(w, s[i - 1])) != (i < |s| && IsWordChar(w, s[i]))
  }

  predicate Digits(s: string, a: int, b: int)
    requires 0 <= a <= b <= |s|
  {
    forall k :: a <= k < b ==> IsDigit(s[k])
  }

  /** The unit alternatives, lower case; `кап(?:ель|)`, `таб(?:летк|)` and `дозы?` each
      give two. */
  predicate IsUnit(u: string) {
    u == "mg" || u == "мг" || u == "ml" || u == "мл" || u == "капель" || u == "кап" || u == "капли"
    || u == "таблетк" || u == "таб" || u == "дозы" || u == "доз"
  }

  /** The text from `l` to `e` with its letters lower-cased: `/i` compares it with the
      lower-case units. */
  function Folded(s: string, l: int, e: int): (f: string)
    requires 0 <= l <= e <= |s|
    ensures |f| == e - l
  {
    seq(e - l, t requires 0 <= t < e - l => LowerChar(s[l + t]))
  }

  /** `(?:[\.,]\d+)?` can take the text from `j` to `k`. */
  predicate FracStep(s: string, j: int, k: int)
    requires 0 <= j <= k <= |s|
  {
    k == j || (j < |s| && (s[j] == '.' || s[j] == ',') && j + 1 < k && Digits(s, j + 1, k))
  }

  /** `\s?` can take the text from `k` to `l`. */
  predicate SpaceStep(s: string, k: int, l: int)
    requires 0 <= k <= l <= |s|
  {
    l == k || (l == k + 1 && IsSpace(s[k]))
  }

  /** One of the units can take the text from `l` to `e`. */
  predicate UnitStep(s: string, l: int, e: int)
    requires 0 <= l <= e <= |s|
  {
    IsUnit(Folded(s, l, e))
  }

  /** The expression matches starting at `i`: some choice of digit run, fraction, space and
      unit ends at a word boundary. */
  predicate MatchAt(w: WordClass, s: string, i: int) {
    0 <= i <= |s| && Boundary(w, s, i)
    && exists j, k, l, e :: (i < j <= k <= l <= e <= |s| && Digits(s, i, j) && FracStep(s, j, k)
                             && SpaceStep(s, k, l) && UnitStep(s, l, e) && Boundary(w, s, e))
  }

  /** `RegExp.prototype.test`: a match starts somewhere. */
  predicate Matches(w: WordClass, s: string) {
    exists i :: 0 <= i <= |s| && MatchAt(w, s, i)
  }

  /** `containsDosage` as written: `\b` with ASCII word characters, on `text || ""`. */
  predicate ContainsDosageAsWritten(text: Option<string>) {
    Matches(Ascii, text.GetOr(""))
  }

  /** `containsDosage` as intended: Cyrillic letters are word characters too. */
  predicate ContainsDosage(text: Option<string>) {
    Matches(Letters, text.GetOr(""))
  }

  /** A dose needs a digit: a text without one never contains a dose, under either reading
      of `\b`. */
  lemma NoDigitNoDosage(w: WordClass, s: string)
    requires forall k :: 0 <= k < |s| ==> !IsDigit(s[k])
    ensures !Matches(w, s)
  {
    forall i | 0 <= i <= |s| && Boundary(w, s, i)
      ensures !MatchAt(w, s, i)
    {
      if i < |s| {
        assert !IsDigit(s[i]);
      }
    }
  }

  /** Each unit is already lower case and ends in a letter; all but `mg` and `ml` are
      Cyrillic throughout. */
  lemma UnitsFacts(u: string)
    requires IsUnit(u)
    ensures |u| >= 2
    ensures forall t :: 0 <= t < |u| ==> LowerChar(u[t]) == u[t]
    ensures IsWordChar(Letters, u[|u| - 1])
    ensures u == "mg" || u == "ml" || forall t :: 0 <= t < |u| ==> IsCyrillic(u[t])
  {
  }

  /** The choices that make a match: digits from `i` to `j`, no fraction, an optional space
      up to `l`, the unit `u`, word boundaries at both ends. */
  lemma MatchWitness(w: WordClass, s: string, i: int, j: int, l: int, u: string)
    requires 0 <= i < j <= l <= |s| && Digits(s, i, j)
    requires l == j || (l == j + 1 && IsSpace(s[j]))
    requires IsUnit(u) && l + |u| <= |s| && Folded(s, l, l + |u|) == u
    requires Boundary(w, s, i) && Boundary(w, s, l + |u|)
    ensures Matches(w, s)
  {
    assert FracStep(s, j, j) && SpaceStep(s, j, l) && UnitStep(s, l, l + |u|);
    assert MatchAt(w, s, i);
  }

  /** The number part of a text `p + d + sp + u + r`: digits, with a word boundary before
      them, then the optional space. */
  lemma NumberPart(w: WordClass, p: string, d: string, sp: string, u: string, r: string)
    requires p == [] || !IsWordChar(w, p[|p| - 1])
    requires d != [] && forall k :: 0 <= k < |d| ==> IsDigit(d[k])
    requires sp == [] || sp == " "
    ensures var s := p + d + sp + u + r;
      Digits(s, |p|, |p| + |d|) && Boundary(w, s, |p|) && (sp == [] || IsSpace(s[|p| + |d|]))
  {
    var s := p + d + sp + u + r;
    assert sp == " " ==> s[|p| + |d|] == ' ';
    assert forall k :: |p| <= k < |p| + |d| ==> s[k] == d[k - |p|];
    assert |p| > 0 ==> s[|p| - 1] == p[|p| - 1];
  }

  /** The unit part of a text `a + u + r`: the unit, with a word boundary after it. */
  lemma UnitPart(w: WordClass, a: string, u: string, r: string)
    requires IsUnit(u) && (w == Letters || u == "mg" || u == "ml")
    requires r == [] || !IsWordChar(w, r[0])
    ensures var s := a + u + r; Folded(s, |a|, |a| + |u|) == u && Boundary(w, s, |a| + |u|)
  {
    UnitsFacts(u);
    var s := a + u + r;
    assert forall t :: 0 <= t < |u| ==> s[|a| + t] == u[t];
    assert Folded(s, |a|, |a| + |u|) == u;
    assert |a| + |u| < |s| ==> s[|a| + |u|] == r[0];
  }

  /** A number, an optional space and a unit, standing as a word of its own (nothing or a
      non-word character on both sides), is a dose: under the intended word class for every
      unit, under the ASCII one only for `mg` and `ml`. */
  lemma DosageDetected(w: WordClass, p: string, d: string, sp: string, u: string, r: string)
    requires p == [] || !IsWordChar(w, p[|p| - 1])
    requires d != [] && forall k :: 0 <= k < |d| ==> IsDigit(d[k])
    requires sp == [] || sp == " "
    requires IsUnit(u) && (w == Letters || u == "mg" || u == "ml")
    requires r == [] || !IsWordChar(w, r[0])
    ensures Matches(w, p + d + sp + u + r)
  {
    var a := p + d + sp;
    var s := p + d + sp + u + r;
    NumberPart(w, p, d, sp, u, r);
    UnitPart(w, a, u, r);
    MatchWitness(w, s, |p|, |p| + |d|, |a|, u);
  }

  /** Under the ASCII reading of `\b`, a unit that ends in a Cyrillic letter has no word
      character before its end, so it closes a match only when an ASCII letter, digit or `_`
      follows it. */
  lemma CyrillicUnitEnd(s: string, l: int, e: int)
    requires 0 <= l <= e <= |s| && UnitStep(s, l, e)
    requires !('a' <= LowerChar(s[e - 1]) <= 'z') || e == 0
    requires e < |s| ==> !IsAsciiWordChar(s[e])
    ensures !Boundary(Ascii, s, e)
  {
    var u := Folded(s, l, e);
    UnitsFacts(u);
    assert u[|u| - 1] == LowerChar(s[e - 1]);
    assert u != "mg" && u != "ml";
    assert IsCyrillic(u[|u| - 1]);
    assert !IsAsciiWordChar(s[e - 1]);
  }

  /** As written, the Cyrillic units never close a match that ends the text or is followed by
      anything but an ASCII letter, digit or `_`: in a text without Latin letters where no
      Cyrillic letter is followed by an ASCII word character, no dose is ever found. */
  lemma AsWrittenMissesCyrillicUnits(s: string)
    requires forall k :: 0 <= k < |s| ==> !('a' <= LowerChar(s[k]) <= 'z')
    requires forall k :: 0 <= k < |s| - 1 ==> IsCyrillic(s[k]) ==> !IsAsciiWordChar(s[k + 1])
    ensures !ContainsDosageAsWritten(Some(s))
  {
    forall l, e | 0 <= l <= e <= |s| && UnitStep(s, l, e)
      ensures !Boundary(Ascii, s, e)
    {
      var u := Folded(s, l, e);
      UnitsFacts(u);
      if e < |s| {
        assert u[|u| - 1] == LowerChar(s[e - 1]);
        assert IsCyrillic(LowerChar(s[e - 1]));
        assert IsCyrillic(s[e - 1]);
      }
      CyrillicUnitEnd(s, l, e);
    }
  }

  /** "5 мг" is not detected as written, although "5 mg" is and the intended detector finds
      "5 мг" too. */
  lemma CyrillicUnitMissed()
    ensures !ContainsDosageAsWritten(Some("5 мг"))
    ensures ContainsDosageAsWritten(Some("5 mg"))
    ensures ContainsDosage(Some("5 мг"))
  {
    AsWrittenMissesCyrillicUnits("5 мг");
    assert "5 mg" == [] + "5" + " " + "mg" + [];
    DosageDetected(Ascii, [], "5", " ", "mg", []);
    assert "5 мг" == [] + "5" + " " + "мг" + [];
    DosageDetected(Letters, [], "5", " ", "мг", []);
  }

  // ───────────── enforceSafety ─────────────

  /** `SAFE_FALLBACK` after its zone tag. */
  const FallbackAdvice: string :=
    " Я не могу давать дозировки и назначения. Если состояние вызывает сомнения — обратитесь к врачу в ближайшие 24 часа.\n"
    + "**Что сделать сейчас:**\n• Обеспечьте питьё маленькими порциями\n• Поддерживайте прохладный влажный воздух\n• Наблюдайте за дыханием и активностью\n"
    + "**На что наблюдать:**\n• Тяжёлое дыхание, вялость, отказ от питья\n• Сыпь с точечными кровоизлияниями\n• Лихорадка у младенца до 3 мес ≥38.0°C\n"
    + "**Пояснение:** дозировки назначает только врач с учётом возраста/веса/сопутствующих состояний.\n"
    + "**Напоминание:** Я не заменяю врача."

  /** `SAFE_FALLBACK`: an AMBER-zone refusal to give doses, with general advice. */
  const SafeFallback: string := "[" + "AMBER" + "]" + FallbackAdvice

  /** The safe text opens with the AMBER tag. */
  lemma FallbackZone()
    ensures ExtractZone(SafeFallback) == "AMBER"
  {
    ZoneAtStart("AMBER", "AMBER", FallbackAdvice);
  }

  /** `enforceSafety` with the corrected detector: a falsy answer or one naming a dose gives
      the safe text; any other answer passes unchanged. */
  function EnforceSafety(text: Option<string>): (r: string)
    ensures r == SafeFallback || (text.Some? && r == text.value)
  {
    if text.None? || text.value == [] then SafeFallback
    else if ContainsDosage(text) then SafeFallback
    else text.value
  }

  /** What reaches the user is either an answer with no dose in it, or a text whose zone is
      AMBER; a non-empty answer is kept exactly when it names no dose. */
  lemma EnforceSafetyGuards(text: Option<string>)
    ensures var r := EnforceSafety(text);
      (text.Some? && text.value != [] && !ContainsDosage(text) && r == text.value)
      || ExtractZone(r) == "AMBER"
    ensures text.Some? && text.value != [] && !ContainsDosage(text) ==> EnforceSafety(text) == text.value
    ensures text.None? || text.value == [] || ContainsDosage(text) ==> EnforceSafety(text) == SafeFallback
  {
    FallbackZone();
  }

  /** `enforceSafety` as written: the same guard over the detector as written. */
  function EnforceSafetyAsWritten(text: Option<string>): (r: string)
    ensures r == SafeFallback || (text.Some? && r == text.value)
    ensures text.Some? && text.value != [] && !ContainsDosageAsWritten(text) ==> r == text.value
  {
    if text.None? || text.value == [] then SafeFallback
    else if ContainsDosageAsWritten(text) then SafeFallback
    else text.value
  }

  /** As written, an answer stating "5 мг" reaches the user unchanged, while "5 mg" is
      replaced; the corrected guard replaces both. */
  lemma CyrillicDosePassesAsWritten()
    ensures EnforceSafetyAsWritten(Some("5 мг")) == "5 мг"
    ensures EnforceSafetyAsWritten(Some("5 mg")) == SafeFallback
    ensures EnforceSafety(Some("5 мг")) == SafeFallback
  {
    CyrillicUnitMissed();
  }

  /** A dose written as a word of its own inside an answer never reaches the user. */
  lemma DoseReplaced(p: string, d: string, sp: string, u: string, r: string)
    requires p == [] || !IsWordChar(Letters, p[|p| - 1])
    requires d != [] && forall k :: 0 <= k < |d| ==> IsDigit(d[k])
    requires sp == [] || sp == " "
    requires IsUnit(u)
    requires r == [] || !IsWordChar(Letters, r[0])
    ensures EnforceSafety(Some(p + d + sp + u + r)) == SafeFallback
  {
    DosageDetected(Letters, p, d, sp, u, r);
  }
}
