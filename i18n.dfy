/**
 * ai-health's message catalogue (ai-health/shared/utils/i18n.js): locale dictionaries read
 * from disk once and cached, a lookup that falls back to the default language and then to
 * the key itself, and `{{name}}` placeholder substitution.
 */
module I18n {
  import opened Opt

  type Dict = map<string, string>

  /** The dictionary a locale file yields: its contents, or empty when the file is missing,
      unreadable or not valid JSON (`None`). */
  function FileDict(files: map<string, Option<Dict>>, lang: string): Dict {
    if lang in files && files[lang].Some? then files[lang].value else map[]
  }

  /** `dict[key] ?? fallback[key] ?? key`. */
  function Lookup(dict: Dict, fallback: Dict, key: string): string {
    if key in dict then dict[key] else if key in fallback then fallback[key] else key
  }

  /** The replacement text for one match of `pat` at position `p` of `s`, as JavaScript's
      GetSubstitution builds it for a string pattern (there are no capture groups): `$$` is a
      dollar sign, `$&` the matched text, `` $` `` the text before the match and `$'` the text
      after it; any other `$` stands for itself. */
  function Expand(rep: string, s: string, p: nat, pat: string): string
    requires p + |pat| <= |s|
    decreases |rep|
  {
    if rep == [] then []
    else if rep[0] == '$' && |rep| >= 2 && rep[1] == '$' then "$" + Expand(rep[2..], s, p, pat)
    else if rep[0] == '$' && |rep| >= 2 && rep[1] == '&' then pat + Expand(rep[2..], s, p, pat)
    else if rep[0] == '$' && |rep| >= 2 && rep[1] == '`' then s[..p] + Expand(rep[2..], s, p, pat)
    else if rep[0] == '$' && |rep| >= 2 && rep[1] == '\'' then s[p + |pat|..] + Expand(rep[2..], s, p, pat)
    else [rep[0]] + Expand(rep[1..], s, p, pat)
  }

  /** A value without `$` is inserted as it is. */
  lemma {:induction false} ExpandPlain(rep: string, s: string, p: nat, pat: string)
    requires p + |pat| <= |s| && '$' !in rep
    ensures Expand(rep, s, p, pat) == rep
    decreases |rep|
  {
    if rep != [] {
      assert rep[0] != '$' by { assert rep[0] in rep; }
      assert '$' !in rep[1..] by { assert forall c :: c in rep[1..] ==> c in rep; }
      ExpandPlain(rep[1..], s, p, pat);
      assert rep == [rep[0]] + rep[1..];
    }
  }

  /** `str.replaceAll(pat, rep)` for a non-empty pattern, scanning `s` from position `i`: left
      to right, without overlaps, each match replaced by `Expand` of the value. */
  function ReplaceFrom(s: string, pat: string, rep: string, i: nat): string
    requires |pat| > 0 && i <= |s|
    decreases |s| - i
  {
    if |s| - i < |pat| then s[i..]
    else if s[i..i + |pat|] == pat then Expand(rep, s, i, pat) + ReplaceFrom(s, pat, rep, i + |pat|)
    else [s[i]] + ReplaceFrom(s, pat, rep, i + 1)
  }

  /** `str.replaceAll(pat, rep)`. */
  function ReplaceAll(s: string, pat: string, rep: string): string
    requires |pat| > 0
  {
    ReplaceFrom(s, pat, rep, 0)
  }

  function Placeholder(name: string): string {
    "{{" + name + "}}"
  }

  /** The loop over `Object.entries(vars)`, in order. */
  function SubstAll(s: string, vars: seq<(string, string)>): string
    decreases |vars|
  {
    if vars == [] then s
    else SubstAll(ReplaceAll(s, Placeholder(vars[0].0), vars[0].1), vars[1..])
  }

  /** From a position past which there is no `{`, nothing is replaced. */
  lemma {:induction false} ReplaceFromAbsent(s: string, pat: string, rep: string, i: nat)
    requires |pat| > 0 && pat[0] == '{' && i <= |s|
    requires forall k :: i <= k < |s| ==> s[k] != '{'
    ensures ReplaceFrom(s, pat, rep, i) == s[i..]
    decreases |s| - i
  {
    if |s| - i >= |pat| {
      assert s[i..i + |pat|][0] == s[i];
      ReplaceFromAbsent(s, pat, rep, i + 1);
      assert s[i..] == [s[i]] + s[i + 1..];
    }
  }

  /** Text without a `{` has no placeholder and is left alone. */
  lemma ReplaceAbsent(s: string, pat: string, rep: string)
    requires |pat| > 0 && pat[0] == '{' && '{' !in s
    ensures ReplaceAll(s, pat, rep) == s
  {
    assert forall k :: 0 <= k < |s| ==> s[k] != '{' by {
      forall k | 0 <= k < |s| ensures s[k] != '{' { assert s[k] in s; }
    }
    ReplaceFromAbsent(s, pat, rep, 0);
  }

  /** A match at `i` is replaced by its expansion and the scan goes on after it. */
  lemma ReplaceFromMatch(s: string, pat: string, rep: string, i: nat)
    requires |pat| > 0 && i + |pat| <= |s| && s[i..i + |pat|] == pat
    ensures ReplaceFrom(s, pat, rep, i) == Expand(rep, s, i, pat) + ReplaceFrom(s, pat, rep, i + |pat|)
  {
  }

  /** A character that cannot start a match is kept and the scan goes on after it. */
  lemma ReplaceFromSkip(s: string, pat: string, rep: string, i: nat)
    requires |pat| > 0 && i < |s| && s[i] != pat[0]
    ensures ReplaceFrom(s, pat, rep, i) == [s[i]] + ReplaceFrom(s, pat, rep, i + 1)
  {
    if |s| - i >= |pat| {
      assert s[i..i + |pat|][0] == s[i];
    } else {
      assert s[i..] == [s[i]] + s[i + 1..];
    }
  }

  /** One step of the scan before the placeholder: the character is kept in front. */
  lemma ReplaceFromBefore(s: string, pat: string, rep: string, i: nat, p: nat, tail: string)
    requires |pat| > 0 && i < p <= |s| && s[i] != pat[0]
    requires ReplaceFrom(s, pat, rep, i + 1) == s[i + 1..p] + tail
    ensures ReplaceFrom(s, pat, rep, i) == s[i..p] + tail
  {
    ReplaceFromSkip(s, pat, rep, i);
    assert s[i..p] == [s[i]] + s[i + 1..p];
  }

  /** Scanning from `i` over text with a single placeholder at `p` and no other `{`: the text
      before it, its expansion, and the text after it. */
  lemma {:induction false} ReplaceFromSingle(s: string, pat: string, rep: string, p: nat, i: nat)
    requires |pat| > 0 && pat[0] == '{' && i <= p && p + |pat| <= |s| && s[p..p + |pat|] == pat
    requires forall k :: i <= k < p ==> s[k] != '{'
    requires forall k :: p + |pat| <= k < |s| ==> s[k] != '{'
    ensures ReplaceFrom(s, pat, rep, i) == s[i..p] + (Expand(rep, s, p, pat) + s[p + |pat|..])
    decreases p - i
  {
    if i == p {
      ReplaceFromMatch(s, pat, rep, p);
      ReplaceFromAbsent(s, pat, rep, p + |pat|);
    } else {
      ReplaceFromSingle(s, pat, rep, p, i + 1);
      ReplaceFromBefore(s, pat, rep, i, p, Expand(rep, s, p, pat) + s[p + |pat|..]);
    }
  }

  lemma ReplaceFromOne(a: string, pat: string, rep: string, b: string)
    requires |pat| > 0 && pat[0] == '{' && '{' !in a && '{' !in b
    ensures ReplaceFrom(a + pat + b, pat, rep, 0) == a + Expand(rep, a + pat + b, |a|, pat) + b
  {
    var s := a + pat + b;
    assert s[|a|..|a| + |pat|] == pat;
    assert forall k :: 0 <= k < |a| ==> s[k] != '{' by {
      forall k | 0 <= k < |a| ensures s[k] != '{' {
        assert s[k] == a[k] && a[k] in a;
      }
    }
    assert forall k :: |a| + |pat| <= k < |s| ==> s[k] != '{' by {
      forall k | |a| + |pat| <= k < |s| ensures s[k] != '{' {
        assert s[k] == b[k - |a| - |pat|];
        assert b[k - |a| - |pat|] in b;
      }
    }
    ReplaceFromSingle(s, pat, rep, |a|, 0);
    assert s[0..|a|] == a;
    assert s[|a| + |pat|..] == b;
  }

  /** One placeholder between plain text is replaced by the expansion of its value; the text
      around it is kept. */
  lemma ReplaceOne(a: string, pat: string, rep: string, b: string)
    requires |pat| > 0 && pat[0] == '{' && '{' !in a && '{' !in b
    ensures ReplaceAll(a + pat + b, pat, rep) == a + Expand(rep, a + pat + b, |a|, pat) + b
    ensures '$' !in rep ==> ReplaceAll(a + pat + b, pat, rep) == a + rep + b
  {
    ReplaceFromOne(a, pat, rep, b);
    if '$' !in rep {
      ExpandPlain(rep, a + pat + b, |a|, pat);
    }
  }

  /** What each replacement pattern in a value becomes when it replaces a placeholder between
      `a` and `b`. */
  lemma DollarPatterns(a: string, pat: string, b: string)
    requires |pat| > 0 && pat[0] == '{' && '{' !in a && '{' !in b
    ensures ReplaceAll(a + pat + b, pat, "$$") == a + "$" + b
    ensures ReplaceAll(a + pat + b, pat, "$&") == a + pat + b
    ensures ReplaceAll(a + pat + b, pat, "$`") == a + a + b
    ensures ReplaceAll(a + pat + b, pat, "$'") == a + b + b
    ensures ReplaceAll(a + pat + b, pat, "$1") == a + "$1" + b
  {
    var s := a + pat + b;
    ReplaceOne(a, pat, "$$", b);
    ReplaceOne(a, pat, "$&", b);
    ReplaceOne(a, pat, "$`", b);
    ReplaceOne(a, pat, "$'", b);
    ReplaceOne(a, pat, "$1", b);
    assert s[..|a|] == a;
    assert s[|a| + |pat|..] == b;
    assert "$$"[2..] == [] && "$&"[2..] == [] && "$`"[2..] == [] && "$'"[2..] == [];
    assert "$1"[1..] == "1" && "1"[1..] == [];
  }

  /** Substitution leaves text without placeholders unchanged, whatever the variables. */
  lemma {:induction false} SubstPlain(s: string, vars: seq<(string, string)>)
    requires '{' !in s
    ensures SubstAll(s, vars) == s
    decreases |vars|
  {
    if vars != [] {
      ReplaceAbsent(s, Placeholder(vars[0].0), vars[0].1);
      SubstPlain(s, vars[1..]);
    }
  }

  /** What `t` returns. */
  function Translate(files: map<string, Option<Dict>>, defaultLang: string, lang: string, key: string,
                     vars: seq<(string, string)>): string
  {
    SubstAll(Lookup(FileDict(files, lang), FileDict(files, defaultLang), key), vars)
  }

  /** A language with no locale file reads as the default language; a key in neither
      dictionary comes back as itself when it has no placeholder. */
  lemma TranslateFallback(files: map<string, Option<Dict>>, defaultLang: string, lang: string, key: string,
                          vars: seq<(string, string)>)
    ensures lang !in files ==> Translate(files, defaultLang, lang, key, vars) == Translate(files, defaultLang, defaultLang, key, vars)
    ensures key !in FileDict(files, lang) && key !in FileDict(files, defaultLang) && '{' !in key ==>
      Translate(files, defaultLang, lang, key, vars) == key
  {
    if key !in FileDict(files, lang) && key !in FileDict(files, defaultLang) && '{' !in key {
      SubstPlain(key, vars);
    }
  }

  /** The catalogue of `createI18n`: the locale files on disk and the cache of parsed ones. */
  class Catalogue {
    const files: map<string, Option<Dict>>
    const defaultLang: string
    var cache: map<string, Dict>

    /** Every cached dictionary is what its file yields. */
    ghost predicate Valid()
      reads this
    {
      forall lang :: lang in cache ==> cache[lang] == FileDict(files, lang)
    }

    constructor (files: map<string, Option<Dict>>, defaultLang: string)
      ensures Valid() && this.files == files && this.defaultLang == defaultLang && cache == map[]
    {
      this.files := files;
      this.defaultLang := defaultLang;
      cache := map[];
    }

    /** `load`: the cached dictionary, or the file's, which is then cached. */
    method Load(lang: string) returns (d: Dict)
      requires Valid()
      modifies this
      ensures Valid()
      ensures d == FileDict(files, lang)
      ensures cache == old(cache)[lang := d]
      ensures lang in old(cache) ==> cache == old(cache)
    {
      if lang in cache {
        return cache[lang];
      }
      d := FileDict(files, lang);
      cache := cache[lang := d];
    }

    /** `t`: look the key up in the language, then in the default language, else use the key;
        then replace each variable's placeholder in turn. */
    method T(lang: string, key: string, vars: seq<(string, string)>) returns (s: string)
      requires Valid()
      modifies this
      ensures Valid()
      ensures s == Translate(files, defaultLang, lang, key, vars)
      ensures lang in cache && old(cache).Keys <= cache.Keys <= old(cache).Keys + {lang, defaultLang}
    {
      var dict := Load(lang);
      if key in dict {
        s := dict[key];
      } else {
        var fallback := Load(defaultLang);
        s := if key in fallback then fallback[key] else key;
      }
      var i := 0;
      while i < |vars|
        invariant 0 <= i <= |vars|
        invariant SubstAll(s, vars[i..]) == Translate(files, defaultLang, lang, key, vars)
      {
        assert vars[i..][0] == vars[i] && vars[i..][1..] == vars[i + 1..];
        s := ReplaceAll(s, Placeholder(vars[i].0), vars[i].1);
        i := i + 1;
      }
    }
  }
}
