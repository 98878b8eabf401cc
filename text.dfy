/**
 * Character classes, case mapping and the small string helpers that the bots call through
 * JavaScript's String methods: `trim`, `toLowerCase`, `split`, `includes`, `/\s+/g`.
 */
module Text {
  /** The characters that JavaScript's `\s` and `String.prototype.trim` treat as white space. */
  const Spaces: set<char> := {
    ' ', '\t', '\n', '\r', '\U{B}', '\U{C}', '\U{A0}', '\U{1680}',
    '\U{2000}', '\U{2001}', '\U{2002}', '\U{2003}', '\U{2004}', '\U{2005}', '\U{2006}',
    '\U{2007}', '\U{2008}', '\U{2009}', '\U{200A}',
    '\U{2028}', '\U{2029}', '\U{202F}', '\U{205F}', '\U{3000}', '\U{FEFF}'
  }

  predicate IsSpace(c: char) {
    c in Spaces
  }

  predicate IsDigit(c: char) {
    '0' <= c <= '9'
  }

  /** The characters of `\w`, which are also the word characters of `\b` without the `u` flag. */
  predicate IsAsciiWordChar(c: char) {
    ('a' <= c <= 'z') || ('A' <= c <= 'Z') || ('0' <= c <= '9') || c == '_'
  }

  /** `toLowerCase` on one character, for the Latin and Cyrillic alphabets the bots use. */
  function LowerChar(c: char): char {
    if 'A' <= c <= 'Z' then (c as int + 32) as char
    else if '\U{410}' <= c <= '\U{42F}' then (c as int + 32) as char
    else if '\U{400}' <= c <= '\U{40F}' then (c as int + 80) as char
    else c
  }

  lemma LowerCharFacts(c: char)
    ensures LowerChar(LowerChar(c)) == LowerChar(c)
    ensures IsSpace(LowerChar(c)) <==> IsSpace(c)
    ensures IsDigit(LowerChar(c)) <==> IsDigit(c)
  {
  }

  function Lower(s: string): string
    decreases |s|
  {
    if s == [] then [] else [LowerChar(s[0])] + Lower(s[1..])
  }

  /** Lower-casing maps each character on its own. */
  lemma {:induction false} LowerAt(s: string)
    ensures |Lower(s)| == |s|
    ensures forall i :: 0 <= i < |s| ==> Lower(s)[i] == LowerChar(s[i])
    decreases |s|
  {
    if s != [] {
      LowerAt(s[1..]);
      assert forall i :: 1 <= i < |s| ==> Lower(s)[i] == Lower(s[1..])[i - 1];
    }
  }

  /** Number of white-space characters at the front of `s`. */
  function LeadLen(s: string): (k: nat)
    ensures k <= |s|
  {
    if s == [] || !IsSpace(s[0]) then 0 else 1 + LeadLen(s[1..])
  }

  /** LeadLen counts exactly the leading run of white space. */
  lemma {:induction false} LeadLenFacts(s: string)
    ensures forall i :: 0 <= i < LeadLen(s) ==> IsSpace(s[i])
    ensures LeadLen(s) == |s| || !IsSpace(s[LeadLen(s)])
  {
    if s != [] && IsSpace(s[0]) {
      LeadLenFacts(s[1..]);
      assert forall i :: 1 <= i < LeadLen(s) ==> s[i] == s[1..][i - 1];
    }
  }

  /** `String.prototype.trim`: drop the white space at the front, then at the end. */
  function Trim(s: string): string
    decreases |s|
  {
    if s != [] && IsSpace(s[0]) then Trim(s[1..])
    else if s != [] && IsSpace(s[|s| - 1]) then Trim(s[..|s| - 1])
    else s
  }

  /** No white space at either end. */
  predicate Trimmed(s: string) {
    s == [] || (!IsSpace(s[0]) && !IsSpace(s[|s| - 1]))
  }

  predicate AllSpace(s: string) {
    forall i :: 0 <= i < |s| ==> IsSpace(s[i])
  }

  /** Trimming leaves a contiguous piece of the input with no white space at its ends,
      and removes white space only. */
  lemma {:induction false} TrimSlice(s: string) returns (a: nat, b: nat)
    ensures a <= b <= |s| && Trim(s) == s[a..b]
    ensures forall i :: 0 <= i < a ==> IsSpace(s[i])
    ensures forall i :: b <= i < |s| ==> IsSpace(s[i])
    ensures Trimmed(Trim(s))
    decreases |s|
  {
    if s != [] && IsSpace(s[0]) {
      var a', b' := TrimSlice(s[1..]);
      a, b := a' + 1, b' + 1;
      assert s[1..][a'..b'] == s[a..b];
      assert forall i :: 1 <= i < |s| ==> s[i] == s[1..][i - 1];
    } else if s != [] && IsSpace(s[|s| - 1]) {
      a, b := TrimSlice(s[..|s| - 1]);
      assert s[..|s| - 1][a..b] == s[a..b];
    } else {
      a, b := 0, |s|;
      assert s[a..b] == s;
    }
  }

  lemma TrimmedFixed(s: string)
    requires Trimmed(s)
    ensures Trim(s) == s
  {
  }

  lemma TrimIdempotent(s: string)
    ensures Trim(Trim(s)) == Trim(s)
  {
    var _, _ := TrimSlice(s);
    TrimmedFixed(Trim(s));
  }

  /** A string trims to nothing exactly when it is all white space. */
  lemma TrimEmptyIff(s: string)
    ensures Trim(s) == [] <==> AllSpace(s)
  {
    var a, b := TrimSlice(s);
    if Trim(s) == [] {
      assert a == b;
      forall i | 0 <= i < |s| ensures IsSpace(s[i]) {
        if i >= a { assert i >= b; }
      }
    } else {
      assert s[a..b][0] == s[a];
    }
  }

  /** The key under which two titles count as the same: trimmed, then lower-cased. */
  function Norm(s: string): string {
    Lower(Trim(s))
  }

  lemma LowerTrimmed(s: string)
    requires Trimmed(s)
    ensures Trimmed(Lower(s))
  {
    LowerAt(s);
    if s != [] {
      LowerCharFacts(s[0]);
      LowerCharFacts(s[|s| - 1]);
    }
  }

  lemma LowerIdempotent(s: string)
    ensures Lower(Lower(s)) == Lower(s)
  {
    LowerAt(s);
    LowerAt(Lower(s));
    forall i | 0 <= i < |s| ensures Lower(Lower(s))[i] == Lower(s)[i] {
      LowerCharFacts(s[i]);
    }
  }

  /** Norm is a normal form: normalising twice changes nothing, and trimming first changes nothing. */
  lemma NormFacts(s: string)
    ensures Norm(Trim(s)) == Norm(s)
    ensures Norm(Norm(s)) == Norm(s)
    ensures Norm(s) == [] <==> Trim(s) == []
  {
    TrimIdempotent(s);
    var _, _ := TrimSlice(s);
    LowerTrimmed(Trim(s));
    TrimmedFixed(Lower(Trim(s)));
    LowerIdempotent(Trim(s));
    LowerAt(Trim(s));
  }

  /** `/\s+/g` replaced by one space. */
  function Collapse(s: string): (r: string)
    ensures |r| <= |s|
    ensures r == [] <==> s == []
    ensures s != [] ==> (IsSpace(s[0]) <==> r[0] == ' ') && (IsSpace(s[0]) <==> IsSpace(r[0]))
    decreases |s|
  {
    if s == [] then []
    else if IsSpace(s[0]) then [' '] + Collapse(s[LeadLen(s)..])
    else [s[0]] + Collapse(s[1..])
  }

  /** Every white-space character is a plain space, and no two spaces are adjacent. */
  predicate SingleSpaced(s: string) {
    (forall i :: 0 <= i < |s| && IsSpace(s[i]) ==> s[i] == ' ')
    && (forall i :: 0 <= i < |s| - 1 && s[i] == ' ' ==> s[i + 1] != ' ')
  }

  lemma {:induction false} CollapseSingleSpaced(s: string)
    ensures SingleSpaced(Collapse(s))
    decreases |s|
  {
    if s == [] {
    } else if IsSpace(s[0]) {
      var rest := s[LeadLen(s)..];
      LeadLenFacts(s);
      CollapseSingleSpaced(rest);
      var r := Collapse(s);
      assert r == [' '] + Collapse(rest);
      assert rest != [] ==> !IsSpace(rest[0]);
    } else {
      CollapseSingleSpaced(s[1..]);
    }
  }

  /** Collapsing never moves white space to an end that had none. */
  lemma {:induction false} CollapseEnds(s: string)
    ensures s != [] ==> (IsSpace(s[|s| - 1]) <==> IsSpace(Collapse(s)[|Collapse(s)| - 1]))
    decreases |s|
  {
    if s == [] {
    } else if IsSpace(s[0]) {
      var rest := s[LeadLen(s)..];
      LeadLenFacts(s);
      CollapseEnds(rest);
      if rest == [] {
        assert IsSpace(s[|s| - 1]);
      } else {
        assert s[|s| - 1] == rest[|rest| - 1];
      }
    } else {
      CollapseEnds(s[1..]);
      if |s| > 1 {
        assert s[|s| - 1] == s[1..][|s[1..]| - 1];
      }
    }
  }

  /** Trimming keeps a string single-spaced (it only cuts a piece out of it). */
  lemma TrimKeepsSingleSpaced(s: string)
    requires SingleSpaced(s)
    ensures SingleSpaced(Trim(s)) && Trimmed(Trim(s))
  {
    var a, b := TrimSlice(s);
    var t := Trim(s);
    forall i | 0 <= i < |t| - 1 && t[i] == ' ' ensures t[i + 1] != ' ' {
      assert t[i] == s[a + i] && t[i + 1] == s[a + i + 1];
    }
    forall i | 0 <= i < |t| && IsSpace(t[i]) ensures t[i] == ' ' {
      assert t[i] == s[a + i];
    }
  }

  /** Collapsing writes only plain spaces and characters of its input. */
  lemma {:induction false} CollapseChars(s: string)
    ensures forall c :: c in Collapse(s) ==> c == ' ' || c in s
    decreases |s|
  {
    if s == [] {
    } else if IsSpace(s[0]) {
      var rest := s[LeadLen(s)..];
      CollapseChars(rest);
      forall c | c in rest ensures c in s {
        var j :| 0 <= j < |rest| && rest[j] == c;
        assert s[LeadLen(s) + j] == c;
      }
    } else {
      CollapseChars(s[1..]);
      assert forall c :: c in s[1..] ==> c in s;
    }
  }

  /** A single-spaced string is left as it is by collapsing. */
  lemma {:induction false} CollapseFixed(s: string)
    requires SingleSpaced(s)
    ensures Collapse(s) == s
    decreases |s|
  {
    if s != [] {
      var t := s[1..];
      assert SingleSpaced(t) by {
        forall i | 0 <= i < |t| - 1 && t[i] == ' ' ensures t[i + 1] != ' ' {
          assert t[i] == s[i + 1] && t[i + 1] == s[i + 2];
        }
        forall i | 0 <= i < |t| && IsSpace(t[i]) ensures t[i] == ' ' {
          assert t[i] == s[i + 1];
        }
      }
      CollapseFixed(t);
      if IsSpace(s[0]) {
        assert s[0] == ' ';
        if |s| > 1 {
          assert s[1] != ' ';
          assert !IsSpace(s[1]);
        }
        assert LeadLen(s) == 1;
      }
    }
  }

  predicate StartsWith(s: string, p: string) {
    |p| <= |s| && s[..|p|] == p
  }

  /** `String.prototype.includes`. */
  predicate Contains(s: string, p: string) {
    exists i :: 0 <= i <= |s| && StartsWith(s[i..], p)
  }

  lemma ContainsEmpty(s: string)
    ensures Contains(s, [])
  {
    assert StartsWith(s[0..], []);
  }

  /** `s.split(c)`: the pieces between the occurrences of `c`. */
  function SplitOn(s: string, c: char): (r: seq<string>)
    ensures |r| >= 1
    decreases |s|
  {
    if s == [] then [[]]
    else
      var rest := SplitOn(s[1..], c);
      if s[0] == c then [[]] + rest
      else [[s[0]] + rest[0]] + rest[1..]
  }

  /** `parts.join(c)`. */
  function JoinWith(parts: seq<string>, c: char): string
    decreases |parts|
  {
    if parts == [] then []
    else if |parts| == 1 then parts[0]
    else parts[0] + [c] + JoinWith(parts[1..], c)
  }

  /** Splitting and joining on the same character gives back the input, and no piece holds the separator. */
  lemma {:induction false} SplitJoin(s: string, c: char)
    ensures JoinWith(SplitOn(s, c), c) == s
    ensures forall p :: p in SplitOn(s, c) ==> c !in p
    decreases |s|
  {
    if s != [] {
      var rest := SplitOn(s[1..], c);
      SplitJoin(s[1..], c);
      if s[0] == c {
        assert SplitOn(s, c) == [[]] + rest;
        assert JoinWith([[]] + rest, c) == [] + [c] + JoinWith(rest, c);
      } else {
        var r := SplitOn(s, c);
        assert r == [[s[0]] + rest[0]] + rest[1..];
        assert rest[0] in rest;
        if |rest| == 1 {
          assert JoinWith(r, c) == [s[0]] + rest[0];
        } else {
          assert JoinWith(rest, c) == rest[0] + [c] + JoinWith(rest[1..], c);
          assert r[1..] == rest[1..];
          assert JoinWith(r, c) == ([s[0]] + rest[0]) + [c] + JoinWith(rest[1..], c);
        }
        forall p | p in r ensures c !in p {
          if p != [s[0]] + rest[0] { assert p in rest[1..]; }
        }
      }
    }
  }

  function DropCR(p: string): string {
    if p != [] && p[|p| - 1] == '\r' then p[..|p| - 1] else p
  }

  /** `s.split(/\r?\n/)`: split on line feeds, and a carriage return just before a line feed
      belongs to the separator. */
  function SplitLines(s: string): (r: seq<string>)
    ensures |r| == |SplitOn(s, '\n')|
  {
    var parts := SplitOn(s, '\n');
    seq(|parts|, i requires 0 <= i < |parts| => if i < |parts| - 1 then DropCR(parts[i]) else parts[i])
  }

  /** White space added at the end is trimmed away again. */
  lemma {:induction false} TrimSnocSpace(q: string, c: char)
    requires IsSpace(c)
    ensures Trim(q + [c]) == Trim(q)
    decreases |q|
  {
    var u := q + [c];
    if q != [] && IsSpace(q[0]) {
      assert u[1..] == q[1..] + [c];
      TrimSnocSpace(q[1..], c);
    } else {
      assert u[..|u| - 1] == q;
    }
  }

  /** Dropping a carriage return before trimming makes no difference. */
  lemma TrimDropCR(p: string)
    ensures Trim(DropCR(p)) == Trim(p)
  {
    if p != [] && p[|p| - 1] == '\r' {
      assert p == p[..|p| - 1] + ['\r'];
      TrimSnocSpace(p[..|p| - 1], '\r');
    }
  }

  /** Decimal digits of a natural number, as `String(n)` writes them. */
  function NatToString(n: nat): (r: string)
    ensures |r| >= 1
    ensures forall i :: 0 <= i < |r| ==> IsDigit(r[i])
    decreases n
  {
    if n < 10 then [('0' as int + n) as char]
    else NatToString(n / 10) + [('0' as int + n % 10) as char]
  }

  /** `String(n)` of an integer. */
  function IntToString(n: int): string {
    if n < 0 then "-" + NatToString(-n) else NatToString(n)
  }

  function DigitValue(c: char): nat
    requires IsDigit(c)
  {
    c as int - '0' as int
  }

  /** The value of a non-empty run of decimal digits. */
  function DigitsValue(s: string): nat
    requires forall i :: 0 <= i < |s| ==> IsDigit(s[i])
    decreases |s|
  {
    if s == [] then 0 else DigitsValue(s[..|s| - 1]) * 10 + DigitValue(s[|s| - 1])
  }

  /** Reading back the digits that NatToString writes gives the number. */
  lemma {:induction false} NatToStringRoundTrip(n: nat)
    ensures DigitsValue(NatToString(n)) == n
    decreases n
  {
    if n >= 10 {
      NatToStringRoundTrip(n / 10);
      var s := NatToString(n);
      assert s[..|s| - 1] == NatToString(n / 10);
    }
  }
}
