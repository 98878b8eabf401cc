/**
 * The two `parseLines` helpers that turn a pasted message into task titles, one per line:
 * intl-dept-rolebot/src/utils.js trims each line and tolerates a missing text, while
 * Suply/src/utils.js also strips a leading run of bullet marks and has no such guard.
 */
module ParseLines {
  import opened Opt
  import opened Text

  /** Lemma: `s.split(c)` of two pieces joined by `c` is the split of each, one after the other. */
  lemma {:induction false} SplitOnJoin(a: string, b: string, c: char)
    ensures SplitOn(a + [c] + b, c) == SplitOn(a, c) + SplitOn(b, c)
    decreases |a|
  {
    if a == [] {
      assert [c] + b == [] + [c] + b;
      assert ([c] + b)[1..] == b;
    } else {
      var u := a + [c] + b;
      assert u[0] == a[0] && u[1..] == a[1..] + [c] + b;
      SplitOnJoin(a[1..], b, c);
    }
  }

  /** Clean every line with `clean` and keep the ones that are not empty, in order. */
  function Keep(clean: string -> string, lines: seq<string>): seq<string>
    decreases |lines|
  {
    if lines == [] then []
    else
      var x := clean(lines[0]);
      (if x == [] then [] else [x]) + Keep(clean, lines[1..])
  }

  lemma {:induction false} KeepAppend(clean: string -> string, p: seq<string>, q: seq<string>)
    ensures Keep(clean, p + q) == Keep(clean, p) + Keep(clean, q)
    decreases |p|
  {
    if p == [] {
      assert p + q == q;
    } else {
      assert (p + q)[0] == p[0] && (p + q)[1..] == p[1..] + q;
      KeepAppend(clean, p[1..], q);
      assert p + q != [];
    }
  }

  /** Lines that clean to the same text give the same result. */
  lemma {:induction false} KeepPointwise(clean: string -> string, p: seq<string>, q: seq<string>)
    requires |p| == |q|
    requires forall i :: 0 <= i < |p| ==> clean(p[i]) == clean(q[i])
    ensures Keep(clean, p) == Keep(clean, q)
    decreases |p|
  {
    if p != [] {
      KeepPointwise(clean, p[1..], q[1..]);
    }
  }

  /** Every kept element is a non-empty cleaned line, and there are no more of them than lines. */
  lemma {:induction false} KeepFacts(clean: string -> string, p: seq<string>)
    ensures |Keep(clean, p)| <= |p|
    ensures forall x :: x in Keep(clean, p) ==> x != [] && exists i :: 0 <= i < |p| && x == clean(p[i])
    decreases |p|
  {
    if p != [] {
      KeepFacts(clean, p[1..]);
      forall x | x in Keep(clean, p[1..]) ensures exists i :: 0 <= i < |p| && x == clean(p[i]) {
        var i :| 0 <= i < |p[1..]| && x == clean(p[1..][i]);
        assert p[i + 1] == p[1..][i];
      }
    }
  }

  /** Splitting on `\r?\n` instead of `\n` changes nothing once each line is cleaned, provided
      the cleaning ignores a carriage return at the end. */
  lemma KeepIgnoresCR(clean: string -> string, s: string)
    requires forall p :: clean(DropCR(p)) == clean(p)
    ensures Keep(clean, SplitLines(s)) == Keep(clean, SplitOn(s, '\n'))
  {
    var parts := SplitOn(s, '\n');
    var lines := SplitLines(s);
    forall i | 0 <= i < |lines| ensures clean(lines[i]) == clean(parts[i]) {
      assert clean(DropCR(parts[i])) == clean(parts[i]);
    }
    KeepPointwise(clean, lines, parts);
  }

  // ───────────── intl-dept-rolebot/src/utils.js ─────────────

  /** `parseLines`: nothing for a missing or empty text; otherwise the trimmed, non-empty lines.
      `None` stands for a missing (`null` or `undefined`) text. */
  function IntlParseLines(text: Option<string>): seq<string> {
    if text.None? || text.value == [] then []
    else Keep(Trim, SplitLines(text.value))
  }

  lemma TrimIgnoresCR()
    ensures forall p :: Trim(DropCR(p)) == Trim(p)
  {
    forall p { TrimDropCR(p); }
  }

  /** The result for a present text is its lines, split on `\n` alone, trimmed and kept when not empty. */
  lemma IntlByLines(s: string)
    ensures IntlParseLines(Some(s)) == Keep(Trim, SplitOn(s, '\n'))
  {
    TrimIgnoresCR();
    KeepIgnoresCR(Trim, s);
  }

  /** Falsy input gives nothing; every line returned is trimmed, non-empty and free of line
      breaks, and there are no more of them than line-separated segments. */
  lemma IntlParseLinesFacts(text: Option<string>)
    ensures text.None? || text == Some([]) ==> IntlParseLines(text) == []
    ensures text.Some? ==> |IntlParseLines(text)| <= |SplitOn(text.value, '\n')|
    ensures forall x :: x in IntlParseLines(text) ==> x != [] && Trimmed(x) && '\n' !in x
  {
    if text.Some? {
      var s := text.value;
      var parts := SplitOn(s, '\n');
      IntlByLines(s);
      KeepFacts(Trim, parts);
      SplitJoin(s, '\n');
      forall x | x in IntlParseLines(text) ensures Trimmed(x) && '\n' !in x {
        var i :| 0 <= i < |parts| && x == Trim(parts[i]);
        assert parts[i] in parts;
        var a, b := TrimSlice(parts[i]);
        assert forall c :: c in x ==> c in parts[i];
      }
    }
  }

  /** Lines are taken in order: the lines of a text joined from two by a line feed are the
      lines of the first followed by those of the second. */
  lemma IntlParseLinesAppend(a: string, b: string)
    ensures IntlParseLines(Some(a + "\n" + b)) == IntlParseLines(Some(a)) + IntlParseLines(Some(b))
  {
    IntlByLines(a + "\n" + b);
    IntlByLines(a);
    IntlByLines(b);
    SplitOnJoin(a, b, '\n');
    KeepAppend(Trim, SplitOn(a, '\n'), SplitOn(b, '\n'));
  }

  /** A single line gives its trimmed text, or nothing when it is blank. */
  lemma IntlParseOneLine(s: string)
    requires '\n' !in s
    ensures IntlParseLines(Some(s)) == if Trim(s) == [] then [] else [Trim(s)]
  {
    IntlByLines(s);
    SplitOnNoSep(s, '\n');
  }

  lemma {:induction false} SplitOnNoSep(s: string, c: char)
    requires c !in s
    ensures SplitOn(s, c) == [s]
    decreases |s|
  {
    if s != [] {
      assert forall d :: d in s[1..] ==> d in s;
      assert s[0] in s;
      SplitOnNoSep(s[1..], c);
      assert s == [s[0]] + s[1..];
    }
  }

  // ───────────── Suply/src/utils.js ─────────────

  /** The bullet marks: hyphen-minus, minus sign, en dash, em dash, bullet and asterisk. */
  predicate IsBullet(c: char) {
    c == '-' || c == '\U{2212}' || c == '\U{2013}' || c == '\U{2014}' || c == '\U{2022}' || c == '*'
  }

  /** Length of the leading run of bullet marks and white space. */
  function BulletLead(s: string): (k: nat)
    ensures k <= |s|
    ensures k < |s| ==> !IsBullet(s[k]) && !IsSpace(s[k])
    ensures forall i :: 0 <= i < k ==> IsBullet(s[i]) || IsSpace(s[i])
    decreases |s|
  {
    if s != [] && (IsBullet(s[0]) || IsSpace(s[0])) then
      var k := 1 + BulletLead(s[1..]);
      assert forall i :: 1 <= i < k ==> s[i] == s[1..][i - 1];
      k
    else 0
  }

  /** One line: the bullet run removed, then trimmed. */
  function CleanBulletLine(s: string): string {
    Trim(s[BulletLead(s)..])
  }

  /** A cleaned line has no white space at its ends and does not start with a bullet mark. */
  lemma CleanBulletLineFacts(s: string)
    ensures Trimmed(CleanBulletLine(s))
    ensures CleanBulletLine(s) != [] ==> !IsBullet(CleanBulletLine(s)[0])
    ensures forall c :: c in CleanBulletLine(s) ==> c in s
  {
    var k := BulletLead(s);
    var u := s[k..];
    var a, b := TrimSlice(u);
    if u != [] {
      assert !IsSpace(u[0]);
      assert a == 0;
    }
    assert forall c :: c in u[a..b] ==> c in u;
    assert forall c :: c in u ==> c in s;
  }

  lemma BulletLeadSnocCR(q: string)
    ensures CleanBulletLine(q + ['\r']) == CleanBulletLine(q)
  {
    var p := q + ['\r'];
    if q != [] && (IsBullet(q[0]) || IsSpace(q[0])) {
      assert p[1..] == q[1..] + ['\r'];
      BulletLeadSnocCR(q[1..]);
      assert BulletLead(p) == 1 + BulletLead(p[1..]);
      assert BulletLead(q) == 1 + BulletLead(q[1..]);
      assert p[BulletLead(p)..] == p[1..][BulletLead(p[1..])..];
      assert q[BulletLead(q)..] == q[1..][BulletLead(q[1..])..];
    } else if q == [] {
      assert BulletLead(p) == 1;
    } else {
      assert p[0..] == q + ['\r'];
      TrimSnocSpace(q, '\r');
    }
  }

  lemma CleanBulletIgnoresCR()
    ensures forall p :: CleanBulletLine(DropCR(p)) == CleanBulletLine(p)
  {
    forall p ensures CleanBulletLine(DropCR(p)) == CleanBulletLine(p) {
      if p != [] && p[|p| - 1] == '\r' {
        assert p == p[..|p| - 1] + ['\r'];
        BulletLeadSnocCR(p[..|p| - 1]);
      }
    }
  }

  /** `parseLines`: the bullet-stripped, trimmed, non-empty lines. A missing text is not
      guarded against: `text.split` throws, shown here as `None`. */
  function SuplyParseLines(text: Option<string>): Option<seq<string>> {
    if text.None? then None
    else Some(Keep(CleanBulletLine, SplitLines(text.value)))
  }

  lemma SuplyByLines(s: string)
    ensures SuplyParseLines(Some(s)) == Some(Keep(CleanBulletLine, SplitOn(s, '\n')))
  {
    CleanBulletIgnoresCR();
    KeepIgnoresCR(CleanBulletLine, s);
  }

  /** A missing text is an error; otherwise every line returned is non-empty, trimmed, free of
      line breaks and starts with something other than a bullet mark. */
  lemma SuplyParseLinesFacts(text: Option<string>)
    ensures SuplyParseLines(text).None? <==> text.None?
    ensures text.Some? ==> |SuplyParseLines(text).value| <= |SplitOn(text.value, '\n')|
    ensures text.Some? ==> forall x :: x in SuplyParseLines(text).value ==>
      x != [] && Trimmed(x) && !IsBullet(x[0]) && '\n' !in x
  {
    if text.Some? {
      var s := text.value;
      var parts := SplitOn(s, '\n');
      SuplyByLines(s);
      KeepFacts(CleanBulletLine, parts);
      SplitJoin(s, '\n');
      forall x | x in SuplyParseLines(text).value ensures Trimmed(x) && !IsBullet(x[0]) && '\n' !in x {
        var i :| 0 <= i < |parts| && x == CleanBulletLine(parts[i]);
        assert parts[i] in parts;
        CleanBulletLineFacts(parts[i]);
      }
    }
  }

  /** Lines are taken in order, as in the other variant. */
  lemma SuplyParseLinesAppend(a: string, b: string)
    ensures SuplyParseLines(Some(a + "\n" + b)).value
      == SuplyParseLines(Some(a)).value + SuplyParseLines(Some(b)).value
  {
    SuplyByLines(a + "\n" + b);
    SuplyByLines(a);
    SuplyByLines(b);
    SplitOnJoin(a, b, '\n');
    KeepAppend(CleanBulletLine, SplitOn(a, '\n'), SplitOn(b, '\n'));
  }

  /** A single line gives its cleaned text, or nothing when only bullets and blanks remain. */
  lemma SuplyParseOneLine(s: string)
    requires '\n' !in s
    ensures SuplyParseLines(Some(s)).value == if CleanBulletLine(s) == [] then [] else [CleanBulletLine(s)]
  {
    SuplyByLines(s);
    SplitOnNoSep(s, '\n');
  }

  lemma SpaceFacts()
    ensures !IsSpace('a') && !IsSpace('-') && IsSpace(' ')
  {
  }

  /** The variants differ on a bulleted line: one keeps the bullet, the other strips it ... */
  lemma VariantsDifferOnBullets()
    ensures IntlParseLines(Some("- a")) == ["- a"]
    ensures SuplyParseLines(Some("- a")) == Some(["a"])
  {
    SpaceFacts();
    assert '\n' !in "- a";
    IntlParseOneLine("- a");
    SuplyParseOneLine("- a");
    var s := "- a";
    assert s[1..] == " a" && s[1..][1..] == "a";
    assert BulletLead("a") == 0;
    assert BulletLead(s) == 2;
    assert Trimmed(s) && Trimmed("a");
    TrimmedFixed(s);
    TrimmedFixed("a");
  }

  /** ... and on a missing text, which one variant treats as empty and the other rejects. */
  lemma VariantsDifferOnMissing()
    ensures IntlParseLines(None) == [] && SuplyParseLines(None) == None
  {
  }
}
