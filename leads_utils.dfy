/**
 * The lead form's validators and normalisers (kelajack-leads-bot/src/utils.js): the admin-id
 * list read from the environment, white-space cleaning, the name and age checks and the phone
 * normaliser. JavaScript's `Number(string)` is modelled on exact reals.
 */
module LeadsUtils {
  import opened Opt
  import opened Text
  import opened BotCommon

  // ───────────── Number(string) ─────────────

  /** A JavaScript number as far as these helpers look at it: not a number, an infinity, or a
      finite value (`Number.isFinite` holds exactly for `Num`). Values are exact reals, so a
      literal too large for a double is a `Num` here rather than an infinity. */
  datatype JsNumber = NaN | Infinity(negative: bool) | Num(value: real)

  function Pow10(e: nat): (p: nat)
    ensures p >= 1
  {
    if e == 0 then 1 else 10 * Pow10(e - 1)
  }

  /** The value of an unsigned decimal literal: digits, optionally a point and more digits (at
      least one digit in all), optionally `e` or `E`, a sign and exponent digits. */
  function DecimalLiteral(s: string): Option<real> {
    DecimalFrom(s[..DigitRun(s)], s[DigitRun(s)..])
  }

  /** After the whole digits: an optional point with more digits, then the exponent part. */
  function DecimalFrom(whole: string, afterWhole: string): Option<real>
    requires forall i :: 0 <= i < |whole| ==> IsDigit(whole[i])
  {
    if afterWhole != [] && afterWhole[0] == '.' then
      var rest := afterWhole[1..];
      Mantissa(whole, rest[..DigitRun(rest)], rest[DigitRun(rest)..])
    else Mantissa(whole, [], afterWhole)
  }

  /** At least one digit in all, then the exponent part. */
  function Mantissa(whole: string, frac: string, tail: string): Option<real>
    requires forall i :: 0 <= i < |whole| ==> IsDigit(whole[i])
    requires forall i :: 0 <= i < |frac| ==> IsDigit(frac[i])
  {
    if whole == [] && frac == [] then None
    else WithExponent(DigitsValue(whole) as real + FractionValue(frac), tail)
  }

  /** The value of the digits after the point. */
  function FractionValue(frac: string): (r: real)
    requires forall i :: 0 <= i < |frac| ==> IsDigit(frac[i])
    ensures frac == [] ==> r == 0.0
  {
    if frac == [] then 0.0 else DigitsValue(frac) as real / Pow10(|frac|) as real
  }

  /** The optional exponent after the mantissa: nothing, or `e`/`E`, a sign and digits. */
  function WithExponent(mantissa: real, tail: string): (r: Option<real>)
    ensures tail == [] ==> r == Some(mantissa)
  {
    if tail == [] then Some(mantissa)
    else if tail[0] != 'e' && tail[0] != 'E' then None
    else
      var e := tail[1..];
      var ed := if e != [] && (e[0] == '-' || e[0] == '+') then e[1..] else e;
      if ed == [] || DigitRun(ed) != |ed| then None
      else if e[0] == '-' then Some(mantissa / Pow10(DigitsValue(ed)) as real)
      else Some(mantissa * Pow10(DigitsValue(ed)) as real)
  }

  /** The base a `0x`, `0o` or `0b` prefix letter selects, 0 for any other letter. */
  function RadixOf(c: char): nat {
    if c == 'x' || c == 'X' then 16
    else if c == 'o' || c == 'O' then 8
    else if c == 'b' || c == 'B' then 2
    else 0
  }

  /** The value of a hexadecimal digit; 16 for a character that is none. */
  function HexValue(c: char): nat {
    if '0' <= c <= '9' then c as nat - '0' as nat
    else if 'a' <= c <= 'f' then c as nat - 'a' as nat + 10
    else if 'A' <= c <= 'F' then c as nat - 'A' as nat + 10
    else 16
  }

  function RadixValue(s: string, radix: nat): nat
    decreases |s|
  {
    if s == [] then 0 else RadixValue(s[..|s| - 1], radix) * radix + HexValue(s[|s| - 1])
  }

  /** A `0x`, `0o` or `0b` literal with at least one digit of its base, unsigned. */
  function RadixLiteral(s: string): Option<real> {
    if |s| >= 3 && s[0] == '0' && RadixOf(s[1]) > 0
      && forall i :: 2 <= i < |s| ==> HexValue(s[i]) < RadixOf(s[1])
    then Some(RadixValue(s[2..], RadixOf(s[1])) as real)
    else None
  }

  /** A signed decimal literal; NaN when the rest is not one. */
  function SignedDecimal(t: string): JsNumber
    requires t != []
  {
    var body := if t[0] == '-' || t[0] == '+' then t[1..] else t;
    match DecimalLiteral(body)
    case None => NaN
    case Some(v) => Num(if t[0] == '-' then -v else v)
  }

  /** `Number` of a trimmed string: the empty string is 0, then the infinities, the prefixed
      literals, and a signed decimal literal. */
  function NumberOfTrimmed(t: string): JsNumber {
    if t == [] then Num(0.0)
    else if t == "Infinity" || t == "+Infinity" then Infinity(false)
    else if t == "-Infinity" then Infinity(true)
    else if RadixLiteral(t).Some? then Num(RadixLiteral(t).value)
    else SignedDecimal(t)
  }

  /** `Number(s)` for a string: white space around is ignored; anything that is not a literal
      is NaN. */
  function JsNumberOf(s: string): JsNumber {
    NumberOfTrimmed(Trim(s))
  }

  /** A run of digits is an unsigned decimal literal worth its digits. */
  lemma DecimalOfDigits(s: string)
    requires |s| >= 1 && DigitRun(s) == |s|
    ensures DecimalLiteral(s) == Some(DigitsValue(s) as real)
  {
    assert s[..DigitRun(s)] == s && s[DigitRun(s)..] == [];
    assert DecimalLiteral(s) == Mantissa(s, [], []);
  }

  /** A digit is not white space. */
  lemma DigitNotSpace(c: char)
    requires IsDigit(c)
    ensures !IsSpace(c)
  {
  }

  /** A run of digits is its own trim. */
  lemma DigitsTrimmed(s: string)
    requires |s| >= 1 && forall i :: 0 <= i < |s| ==> IsDigit(s[i])
    ensures Trim(s) == s
  {
    DigitNotSpace(s[0]);
    DigitNotSpace(s[|s| - 1]);
    TrimmedFixed(s);
  }

  /** A run of digits is neither an infinity nor a prefixed literal. */
  lemma DigitsNotSpecial(s: string)
    requires |s| >= 1 && forall i :: 0 <= i < |s| ==> IsDigit(s[i])
    ensures s != "Infinity" && s != "+Infinity" && s != "-Infinity" && RadixLiteral(s).None?
  {
    assert IsDigit(s[0]);
    if |s| >= 3 {
      assert IsDigit(s[1]);
    }
  }

  /** A run of digits is read as its digits. */
  lemma NumberOfDigits(s: string)
    requires |s| >= 1 && forall i :: 0 <= i < |s| ==> IsDigit(s[i])
    ensures JsNumberOf(s) == Num(DigitsValue(s) as real)
  {
    DigitsTrimmed(s);
    DigitsNotSpecial(s);
    assert DigitRun(s) == |s|;
    DecimalOfDigits(s);
    assert NumberOfTrimmed(s) == SignedDecimal(s);
  }

  /** The digits `String(n)` writes read back as `n`. */
  lemma NumberOfNat(n: nat)
    ensures JsNumberOf(NatToString(n)) == Num(n as real)
  {
    NumberOfDigits(NatToString(n));
    NatToStringRoundTrip(n);
  }

  // ───────────── cleanText, isValidName ─────────────

  /** `cleanText`: a missing text is empty; trim, then turn every white-space run into one space. */
  function CleanText(s: Option<string>): string {
    Collapse(Trim(s.GetOr("")))
  }

  /** The cleaned text has no white space at its ends, no run of white space and no white space
      but plain spaces; it is empty exactly when the input is all white space; and cleaning it
      again changes nothing. */
  lemma CleanTextFacts(s: Option<string>)
    ensures Trimmed(CleanText(s)) && SingleSpaced(CleanText(s))
    ensures CleanText(s) == [] <==> AllSpace(s.GetOr(""))
    ensures CleanText(Some(CleanText(s))) == CleanText(s)
  {
    var t := Trim(s.GetOr(""));
    var _, _ := TrimSlice(s.GetOr(""));
    TrimEmptyIff(s.GetOr(""));
    CollapseEnds(t);
    CollapseSingleSpaced(t);
    var r := Collapse(t);
    TrimmedFixed(r);
    CollapseFixed(r);
  }

  /** `isValidName`: the cleaned name has 3 to 80 characters. */
  function IsValidName(name: Option<string>): bool {
    3 <= |CleanText(name)| <= 80
  }

  /** The handler checks a name it has already cleaned: the verdict is the same as on the raw
      text, and a valid name is not blank. */
  lemma ValidNameOfCleaned(name: Option<string>)
    ensures IsValidName(Some(CleanText(name))) == IsValidName(name)
    ensures IsValidName(name) ==> !AllSpace(name.GetOr(""))
  {
    CleanTextFacts(name);
  }

  // ───────────── parseAge ─────────────

  /** `parseAge`: the number the trimmed text denotes (a missing text reads as "", which is 0);
      nothing unless it is finite and between 1 and 99; otherwise its floor. */
  function ParseAge(text: Option<string>): (r: Option<int>)
    ensures r.Some? ==> 1 <= r.value <= 99
    ensures r.Some? ==> var n := JsNumberOf(Trim(text.GetOr("")));
      n.Num? && r.value as real <= n.value < r.value as real + 1.0
  {
    var n := JsNumberOf(Trim(text.GetOr("")));
    if !n.Num? then None
    else if n.value < 1.0 || n.value > 99.0 then None
    else Some(n.value.Floor)
  }

  /** A whole age written in digits is read back exactly when it is between 1 and 99. */
  lemma ParseAgeOfNat(n: nat)
    ensures ParseAge(Some(NatToString(n))) == if 1 <= n <= 99 then Some(n) else None
  {
    var s := NatToString(n);
    DigitsTrimmed(s);
    NumberOfNat(n);
    assert JsNumberOf(Trim(s)) == Num(n as real);
  }

  /** Letters are not a number: "abc" gives no age. */
  lemma ParseAgeRejectsWord()
    ensures ParseAge(Some("abc")) == None
  {
    var s := "abc";
    assert !IsSpace(s[0]) && !IsSpace(s[2]);
    TrimmedFixed(s);
    assert DigitRun(s) == 0;
    assert s[0..] == s;
    assert DecimalLiteral(s).None?;
    assert RadixLiteral(s).None?;
    assert NumberOfTrimmed(s) == NaN;
  }

  /** An infinity is not finite, and a missing text reads as 0: neither gives an age. */
  lemma ParseAgeRejectsNonFinite()
    ensures ParseAge(Some("Infinity")) == None
    ensures ParseAge(None) == None
  {
    var s := "Infinity";
    assert !IsSpace(s[0]) && !IsSpace(s[7]);
    TrimmedFixed(s);
    assert NumberOfTrimmed(s) == Infinity(false);
  }

  // ───────────── parseAdminIds ─────────────

  /** The admin ids the comma-separated pieces hold: trimmed, blanks dropped, read as numbers,
      and kept when finite and positive. */
  function AdminIdsOf(parts: seq<string>): (r: seq<real>)
    ensures forall x :: x in r ==> x > 0.0
    ensures |r| <= |parts|
    decreases |parts|
  {
    if parts == [] then []
    else
      var t := Trim(parts[0]);
      var n := JsNumberOf(t);
      (if t != [] && n.Num? && n.value > 0.0 then [n.value] else []) + AdminIdsOf(parts[1..])
  }

  /** `parseAdminIds`: a missing variable is the empty string. */
  function ParseAdminIds(raw: Option<string>): (r: seq<real>)
    ensures forall x :: x in r ==> x > 0.0
  {
    AdminIdsOf(SplitOn(raw.GetOr(""), ','))
  }

  function NatStrings(ids: seq<nat>): (r: seq<string>)
    ensures |r| == |ids|
  {
    seq(|ids|, i requires 0 <= i < |ids| => NatToString(ids[i]))
  }

  function AsReals(ids: seq<nat>): (r: seq<real>)
    ensures |r| == |ids|
  {
    seq(|ids|, i requires 0 <= i < |ids| => ids[i] as real)
  }

  /** Joining pieces without the separator and splitting again gives the pieces back. */
  lemma {:induction false} SplitOfJoin(ps: seq<string>, c: char)
    requires |ps| >= 1
    requires forall i :: 0 <= i < |ps| ==> c !in ps[i]
    ensures SplitOn(JoinWith(ps, c), c) == ps
    decreases |ps|
  {
    if |ps| == 1 {
      SplitOnNone(ps[0], c);
    } else {
      SplitOfJoin(ps[1..], c);
      SplitOnFirst(ps[0], c, JoinWith(ps[1..], c));
      assert ps == [ps[0]] + ps[1..];
    }
  }

  /** Pieces that are the digits of positive numbers read back as those numbers. */
  lemma {:induction false} AdminIdsOfNats(ids: seq<nat>)
    requires forall i :: 0 <= i < |ids| ==> ids[i] > 0
    ensures AdminIdsOf(NatStrings(ids)) == AsReals(ids)
    decreases |ids|
  {
    if ids != [] {
      DigitsTrimmed(NatToString(ids[0]));
      NumberOfNat(ids[0]);
      assert NatStrings(ids)[1..] == NatStrings(ids[1..]);
      assert AsReals(ids) == [ids[0] as real] + AsReals(ids[1..]);
      AdminIdsOfNats(ids[1..]);
    }
  }

  /** A comma-separated list of positive ids, as the environment variable holds it, is read
      back as those ids in order; an empty variable gives no ids. */
  lemma ParseAdminIdsRoundTrip(ids: seq<nat>)
    requires forall i :: 0 <= i < |ids| ==> ids[i] > 0
    ensures ParseAdminIds(Some(JoinWith(NatStrings(ids), ','))) == AsReals(ids)
  {
    if ids == [] {
      assert JoinWith(NatStrings(ids), ',') == [];
    } else {
      forall i | 0 <= i < |ids| ensures ',' !in NatStrings(ids)[i] {
        var s := NatToString(ids[i]);
        assert forall k :: 0 <= k < |s| ==> IsDigit(s[k]);
      }
      SplitOfJoin(NatStrings(ids), ',');
      AdminIdsOfNats(ids);
    }
  }

  // ───────────── normalizePhone ─────────────

  /** The characters of `s` that `keep` accepts, in order (`replace(/[^…]/g, "")`). */
  function Filter(s: string, keep: char -> bool): (r: string)
    ensures |r| <= |s|
    ensures forall i :: 0 <= i < |r| ==> keep(r[i])
    decreases |s|
  {
    if s == [] then [] else (if keep(s[0]) then [s[0]] else []) + Filter(s[1..], keep)
  }

  predicate IsDigitOrPlus(c: char) {
    IsDigit(c) || c == '+'
  }

  lemma {:induction false} FilterAppend(a: string, b: string, keep: char -> bool)
    ensures Filter(a + b, keep) == Filter(a, keep) + Filter(b, keep)
    decreases |a|
  {
    if a == [] {
      assert a + b == b;
    } else {
      assert (a + b)[1..] == a[1..] + b;
      FilterAppend(a[1..], b, keep);
    }
  }

  /** Filtering with a weaker test first changes nothing. */
  lemma {:induction false} FilterTwice(s: string, first: char -> bool, then_: char -> bool)
    requires forall c :: then_(c) ==> first(c)
    ensures Filter(Filter(s, first), then_) == Filter(s, then_)
    decreases |s|
  {
    if s != [] {
      FilterTwice(s[1..], first, then_);
      FilterAppend(if first(s[0]) then [s[0]] else [], Filter(s[1..], first), then_);
    }
  }

  /** A string all of whose characters pass is its own filter. */
  lemma {:induction false} FilterAll(s: string, keep: char -> bool)
    requires forall i :: 0 <= i < |s| ==> keep(s[i])
    ensures Filter(s, keep) == s
    decreases |s|
  {
    if s != [] {
      FilterAll(s[1..], keep);
      assert s == [s[0]] + s[1..];
    }
  }

  /** A filter that drops white space sees the same characters with or without the trim. */
  lemma FilterTrim(s: string, keep: char -> bool)
    requires forall c :: IsSpace(c) ==> !keep(c)
    ensures Filter(Trim(s), keep) == Filter(s, keep)
  {
    var a, b := TrimSlice(s);
    assert s == s[..a] + s[a..b] + s[b..];
    FilterAppend(s[..a] + s[a..b], s[b..], keep);
    FilterAppend(s[..a], s[a..b], keep);
    FilterNone(s[..a], keep);
    FilterNone(s[b..], keep);
  }

  lemma {:induction false} FilterNone(s: string, keep: char -> bool)
    requires forall i :: 0 <= i < |s| ==> !keep(s[i])
    ensures Filter(s, keep) == []
    decreases |s|
  {
    if s != [] {
      FilterNone(s[1..], keep);
    }
  }

  /** `normalizePhone`: keep digits and plus signs of the trimmed text; the number is its digits,
      9 to 15 of them, with a "+" in front when the kept text started with one. */
  function NormalizePhone(input: Option<string>): Option<string> {
    var raw := Trim(input.GetOr(""));
    var digits := Filter(raw, IsDigitOrPlus);
    var p := if StartsWith(digits, "+") then digits else Filter(digits, IsDigit);
    var justDigits := Filter(p, IsDigit);
    if |justDigits| < 9 || |justDigits| > 15 then None
    else if StartsWith(digits, "+") then Some("+" + justDigits)
    else Some(justDigits)
  }

  /** A number comes out exactly when the input holds 9 to 15 ASCII digits; it is those digits
      in order, with a "+" in front exactly when the first digit-or-plus of the input is "+". */
  lemma NormalizePhoneFacts(input: Option<string>)
    ensures var ds := Filter(input.GetOr(""), IsDigit);
      var r := NormalizePhone(input);
      (r.Some? <==> 9 <= |ds| <= 15)
      && (r.Some? ==> (r.value != []
        && (r.value[0] == '+' <==> StartsWith(Filter(input.GetOr(""), IsDigitOrPlus), "+"))
        && (r.value[0] == '+' ==> r.value[1..] == ds)
        && (r.value[0] != '+' ==> r.value == ds)))
    ensures var plus := StartsWith(Filter(input.GetOr(""), IsDigitOrPlus), "+");
      NormalizePhone(input).Some? ==> NormalizePhone(input).value == (if plus then "+" else "") + Filter(input.GetOr(""), IsDigit)
  {
    var s := input.GetOr("");
    var raw := Trim(s);
    FilterTrim(s, IsDigit);
    FilterTrim(s, IsDigitOrPlus);
    FilterTwice(raw, IsDigitOrPlus, IsDigit);
    var digits := Filter(raw, IsDigitOrPlus);
    if !StartsWith(digits, "+") {
      FilterTwice(digits, IsDigit, IsDigit);
      FilterAll(Filter(digits, IsDigit), IsDigit);
    }
    var ds := Filter(s, IsDigit);
    if |ds| > 0 {
      assert IsDigit(ds[0]);
    }
  }

  /** A number in the normal form, with or without its "+", is left as it is. */
  lemma NormalFormFixed(ds: string, plus: bool)
    requires 9 <= |ds| <= 15 && forall i :: 0 <= i < |ds| ==> IsDigit(ds[i])
    ensures var out := (if plus then "+" else "") + ds; NormalizePhone(Some(out)) == Some(out)
  {
    var out := (if plus then "+" else "") + ds;
    assert !IsSpace('+');
    DigitNotSpace(out[|out| - 1]);
    if !plus {
      DigitNotSpace(out[0]);
    }
    TrimmedFixed(out);
    FilterAll(out, IsDigitOrPlus);
    FilterAll(ds, IsDigit);
    if plus {
      FilterAppend("+", ds, IsDigit);
      assert Filter("+", IsDigit) == [];
      assert StartsWith(out, "+");
    } else {
      assert out == ds && out[0] != '+';
      assert !StartsWith(out, "+");
    }
    assert Filter(out, IsDigit) == ds;
  }

  /** The form `normalizePhone` returns: 9 to 15 ASCII digits, perhaps after a "+". */
  predicate IsNormalPhone(p: string) {
    var ds := if p != [] && p[0] == '+' then p[1..] else p;
    9 <= |ds| <= 15 && forall i :: 0 <= i < |ds| ==> IsDigit(ds[i])
  }

  /** Every number `normalizePhone` returns is in the normal form. */
  lemma NormalizeGivesNormal(input: Option<string>)
    requires NormalizePhone(input).Some?
    ensures IsNormalPhone(NormalizePhone(input).value)
  {
    NormalizePhoneFacts(input);
    var ds := Filter(input.GetOr(""), IsDigit);
    assert forall i :: 0 <= i < |ds| ==> IsDigit(ds[i]);
  }

  /** A number in the normal form is returned unchanged. */
  lemma NormalPhoneFixed(p: string)
    requires IsNormalPhone(p)
    ensures NormalizePhone(Some(p)) == Some(p)
  {
    if p != [] && p[0] == '+' {
      var ds := p[1..];
      assert forall i :: 0 <= i < |ds| ==> IsDigit(ds[i]);
      NormalFormFixed(ds, true);
      assert "+" + ds == p;
    } else {
      NormalFormFixed(p, false);
      assert "" + p == p;
    }
  }

  /** Normalising a normalised number gives it back. */
  lemma NormalizePhoneIdempotent(input: Option<string>)
    requires NormalizePhone(input).Some?
    ensures NormalizePhone(NormalizePhone(input)) == NormalizePhone(input)
  {
    NormalizeGivesNormal(input);
    NormalPhoneFixed(NormalizePhone(input).value);
  }
}
