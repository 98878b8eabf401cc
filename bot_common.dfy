/**
 * Helpers the Suply bot (Suply/src/index.js) and the international department bot
 * (intl-dept-rolebot/src/index.js) both define, with the same bodies: the daily template
 * table's keys, the filter against titles already present, the weekday and cron helpers,
 * button-text normalisation, the admin list and the reminder throttle.
 */
module BotCommon {
  import opened Opt
  import opened Text

  /** A key of `DAILY_TEMPLATES_BY_DAY`: "*" for every day, or an ISO weekday 1..7. */
  datatype DayKey = Star | Day(n: int)

  /** `DAILY_TEMPLATES_BY_DAY`: day key, then assignee id, then the titles of that day. */
  type Templates = map<DayKey, map<string, seq<string>>>

  /** `titles.filter(t => !have.has(norm(t)))`: the titles whose key is not yet present,
      in their order, repeats and blanks kept. */
  function FilterNew(titles: seq<string>, have: set<string>): seq<string>
    decreases |titles|
  {
    if titles == [] then []
    else (if Norm(titles[0]) in have then [] else [titles[0]]) + FilterNew(titles[1..], have)
  }

  /** A title survives the filter exactly when its key is not present. */
  lemma {:induction false} FilterNewMembers(titles: seq<string>, have: set<string>)
    ensures forall x :: x in FilterNew(titles, have) <==> x in titles && Norm(x) !in have
    ensures |FilterNew(titles, have)| <= |titles|
    decreases |titles|
  {
    if titles != [] {
      FilterNewMembers(titles[1..], have);
      assert titles == [titles[0]] + titles[1..];
    }
  }

  // ───────────── jsWeekdayISO ─────────────

  /** `jsWeekdayISO`: `getDay()` counts Sunday as 0; ISO counts it as 7. */
  function JsWeekdayISO(getDay: int): (r: int)
    requires 0 <= getDay <= 6
    ensures 1 <= r <= 7
    ensures r % 7 == getDay
  {
    if getDay == 0 then 7 else getDay
  }

  // ───────────── timeToCron ─────────────

  /** Number of decimal digits at the front of `s`. */
  function DigitRun(s: string): (k: nat)
    ensures k <= |s|
    ensures forall i :: 0 <= i < k ==> IsDigit(s[i])
    ensures k == |s| || !IsDigit(s[k])
    decreases |s|
  {
    if s == [] || !IsDigit(s[0]) then 0 else 1 + DigitRun(s[1..])
  }

  /** `parseInt(n) || 0`: skip leading white space, read an optional sign and the digits after
      it; no digits (NaN) and zero both give 0. */
  function ParseIntOr0(n: string): int {
    var t := n[LeadLen(n)..];
    var neg := t != [] && t[0] == '-';
    var u := if t != [] && (t[0] == '-' || t[0] == '+') then t[1..] else t;
    var d := u[..DigitRun(u)];
    if d == [] then 0 else if neg then -(DigitsValue(d) as int) else DigitsValue(d)
  }

  /** `timeToCron(hhmm, dow)`: split on ":", parse hour and minute, and write
      `"<minute> <hour> * * <dow>"`; with no ":" the minute is JavaScript's `undefined`. */
  function TimeToCron(hhmm: string, dow: string): string {
    var parts := SplitOn(hhmm, ':');
    var h := ParseIntOr0(parts[0]);
    var m := if |parts| >= 2 then IntToString(ParseIntOr0(parts[1])) else "undefined";
    m + " " + IntToString(h) + " * * " + dow
  }

  /** Splitting a string with no separator in it gives the string alone. */
  lemma {:induction false} SplitOnNone(s: string, c: char)
    requires c !in s
    ensures SplitOn(s, c) == [s]
    decreases |s|
  {
    if s != [] {
      SplitOnNone(s[1..], c);
      assert s == [s[0]] + s[1..];
    }
  }

  /** The piece before the first separator comes first. */
  lemma {:induction false} SplitOnFirst(a: string, c: char, b: string)
    requires c !in a
    ensures SplitOn(a + [c] + b, c) == [a] + SplitOn(b, c)
    decreases |a|
  {
    if a != [] {
      SplitOnFirst(a[1..], c, b);
      var s := a + [c] + b;
      assert s[0] == a[0] && a[0] != c;
      assert s[1..] == a[1..] + [c] + b;
      var rest := SplitOn(s[1..], c);
      assert rest[0] == a[1..] && rest[1..] == SplitOn(b, c);
      assert [a[0]] + a[1..] == a;
    } else {
      assert a + [c] + b == [c] + b;
    }
  }

  /** Reading back the digits of a number gives the number. */
  lemma ParseNat(n: nat)
    ensures ParseIntOr0(NatToString(n)) == n
  {
    var s := NatToString(n);
    LeadLenFacts(s);
    assert !IsSpace(s[0]);
    assert LeadLen(s) == 0;
    assert s[0..] == s;
    assert DigitRun(s) == |s|;
    assert s[..|s|] == s;
    NatToStringRoundTrip(n);
  }

  /** A part with no digit after the white space and sign parses as 0. */
  lemma ParseNoDigits(n: string)
    requires var t := n[LeadLen(n)..];
      var u := if t != [] && (t[0] == '-' || t[0] == '+') then t[1..] else t;
      u == [] || !IsDigit(u[0])
    ensures ParseIntOr0(n) == 0
  {
  }

  /** A well-formed "H:MM" time becomes the cron fields minute and hour, leading zeros dropped. */
  lemma TimeToCronRoundTrip(h: nat, m: nat, dow: string)
    ensures TimeToCron(NatToString(h) + ":" + NatToString(m), dow)
      == NatToString(m) + " " + NatToString(h) + " * * " + dow
  {
    var hs, ms := NatToString(h), NatToString(m);
    assert ':' !in hs && ':' !in ms;
    SplitOnFirst(hs, ':', ms);
    SplitOnNone(ms, ':');
    assert hs + ":" + ms == hs + [':'] + ms;
    ParseNat(h);
    ParseNat(m);
  }

  /** With no ":" the minute field is the text "undefined". */
  lemma TimeToCronNoColon(h: nat, dow: string)
    ensures TimeToCron(NatToString(h), dow) == "undefined " + NatToString(h) + " * * " + dow
  {
    var hs := NatToString(h);
    assert ':' !in hs;
    SplitOnNone(hs, ':');
    ParseNat(h);
    var parts := SplitOn(hs, ':');
    assert |parts| == 1 && ParseIntOr0(parts[0]) == h;
  }

  // ───────────── normBtnText ─────────────

  /** The characters the emoji class `[\u{1F000}-\u{1FAFF}\u{2600}-\u{27BF}\u{FE0F}\u{200D}]` matches. */
  predicate IsEmoji(c: char) {
    ('\U{1F000}' <= c <= '\U{1FAFF}') || ('\U{2600}' <= c <= '\U{27BF}') || c == '\U{FE0F}' || c == '\U{200D}'
  }

  /** Remove every emoji character. */
  function StripEmoji(s: string): (r: string)
    ensures forall c :: c in r <==> c in s && !IsEmoji(c)
    decreases |s|
  {
    if s == [] then []
    else (if IsEmoji(s[0]) then [] else [s[0]]) + StripEmoji(s[1..])
  }

  /** `normBtnText`: strip emoji, lower-case, collapse white-space runs, trim. */
  function NormBtnText(s: string): string {
    Trim(Collapse(Lower(StripEmoji(s))))
  }

  /** Every character is its own lower case. */
  predicate LowerCased(s: string) {
    forall i :: 0 <= i < |s| ==> LowerChar(s[i]) == s[i]
  }

  lemma LowerCasedFixed(s: string)
    requires LowerCased(s)
    ensures Lower(s) == s
  {
    LowerAt(s);
  }

  /** A string with no emoji is left as it is by stripping. */
  lemma {:induction false} StripEmojiFixed(s: string)
    requires forall c :: c in s ==> !IsEmoji(c)
    ensures StripEmoji(s) == s
    decreases |s|
  {
    if s != [] {
      assert s[0] in s;
      assert forall c :: c in s[1..] ==> c in s;
      StripEmojiFixed(s[1..]);
    }
  }

  /** The button text is lower-case, free of emoji, trimmed and single-spaced. */
  lemma NormBtnTextFacts(s: string)
    ensures var r := NormBtnText(s);
      LowerCased(r) && (forall c :: c in r ==> !IsEmoji(c)) && Trimmed(r) && SingleSpaced(r)
  {
    var e := StripEmoji(s);
    var l := Lower(e);
    var c := Collapse(l);
    var r := Trim(c);
    LowerAt(e);
    forall x | x in l ensures LowerChar(x) == x && !IsEmoji(x) {
      var i :| 0 <= i < |l| && l[i] == x;
      assert e[i] in e;
      LowerCharFacts(e[i]);
    }
    CollapseChars(l);
    CollapseSingleSpaced(l);
    TrimKeepsSingleSpaced(c);
    var a, b := TrimSlice(c);
    forall i | 0 <= i < |r| ensures LowerChar(r[i]) == r[i] && !IsEmoji(r[i]) {
      assert r[i] == c[a + i];
      assert c[a + i] in c;
    }
  }

  /** Normalising a button text twice gives the same as once. */
  lemma NormBtnTextIdempotent(s: string)
    ensures NormBtnText(NormBtnText(s)) == NormBtnText(s)
  {
    var r := NormBtnText(s);
    NormBtnTextFacts(s);
    StripEmojiFixed(r);
    LowerCasedFixed(r);
    CollapseFixed(r);
    TrimmedFixed(r);
  }

  // ───────────── the admin list ─────────────

  predicate Distinct(s: seq<string>) {
    forall i, j :: 0 <= i < j < |s| ==> s[i] != s[j]
  }

  /** `new Set(list)`: the list's values, each once, in order of first appearance. */
  function Dedup(list: seq<string>): (r: seq<string>)
    decreases |list|
  {
    if list == [] then []
    else
      var r := Dedup(list[..|list| - 1]);
      if list[|list| - 1] in r then r else r + [list[|list| - 1]]
  }

  lemma {:induction false} DedupFacts(list: seq<string>)
    ensures Distinct(Dedup(list))
    ensures forall x :: x in Dedup(list) <==> x in list
    decreases |list|
  {
    if list != [] {
      var init := list[..|list| - 1];
      DedupFacts(init);
      assert list == init + [list[|list| - 1]];
    }
  }

  lemma DedupDistinct(list: seq<string>)
    requires Distinct(list)
    ensures Dedup(list) == list
    decreases |list|
  {
    if list != [] {
      var init := list[..|list| - 1];
      assert Distinct(init);
      DedupDistinct(init);
      assert list == init + [list[|list| - 1]];
    }
  }

  /** `s.add(id)` on a copy of the set, as a list in insertion order. */
  function AddId(ids: seq<string>, id: string): (r: seq<string>)
    requires Distinct(ids)
    ensures Distinct(r) && forall x :: x in r <==> x in ids || x == id
  {
    if id in ids then ids else ids + [id]
  }

  /** `s.delete(id)` on a copy of the set. */
  function RemoveId(ids: seq<string>, id: string): (r: seq<string>)
    decreases |ids|
  {
    if ids == [] then []
    else (if ids[0] == id then [] else [ids[0]]) + RemoveId(ids[1..], id)
  }

  lemma {:induction false} RemoveIdFacts(ids: seq<string>, id: string)
    ensures forall x :: x in RemoveId(ids, id) <==> x in ids && x != id
    ensures Distinct(ids) ==> Distinct(RemoveId(ids, id))
    ensures id in ids && Distinct(ids) ==> |RemoveId(ids, id)| == |ids| - 1
    ensures id !in ids ==> RemoveId(ids, id) == ids
    decreases |ids|
  {
    if ids != [] {
      RemoveIdFacts(ids[1..], id);
      assert ids == [ids[0]] + ids[1..];
      if Distinct(ids) {
        assert Distinct(ids[1..]);
        assert ids[0] !in ids[1..];
      }
    }
  }

  /** Adding an id that was not there and removing it again gives back the list. */
  lemma RemoveAdded(ids: seq<string>, id: string)
    requires Distinct(ids) && id !in ids
    ensures RemoveId(AddId(ids, id), id) == ids
  {
    RemoveIdFacts(ids, id);
    RemoveAppend(ids, id);
  }

  lemma {:induction false} RemoveAppend(ids: seq<string>, id: string)
    requires id !in ids
    ensures RemoveId(ids + [id], id) == RemoveId(ids, id)
    decreases |ids|
  {
    if ids == [] {
      assert RemoveId([id], id) == [] + RemoveId([], id);
    } else {
      RemoveAppend(ids[1..], id);
      assert (ids + [id])[1..] == ids[1..] + [id];
    }
  }

  /** `ADMIN_IDS` in memory and `config.adminIds` in the document (`None` when missing or not a
      list). */
  class Admins {
    var ids: seq<string>
    var stored: Option<seq<string>>

    ghost predicate Valid()
      reads this
    {
      Distinct(ids)
    }

    /** Start with `INITIAL_ADMIN_IDS`. */
    constructor (initial: seq<string>, stored: Option<seq<string>>)
      ensures Valid() && ids == Dedup(initial) && this.stored == stored
    {
      DedupFacts(initial);
      ids := Dedup(initial);
      this.stored := stored;
    }

    /** `loadAdminsFromDb`: a missing or empty stored list is replaced by the initial list and
        written back; then the set is read from the stored list. */
    method LoadFromDb(initial: seq<string>)
      modifies this
      ensures Valid()
      ensures old(stored).None? || old(stored).value == [] ==> stored == Some(initial) && ids == Dedup(initial)
      ensures old(stored).Some? && old(stored).value != [] ==> stored == old(stored) && ids == Dedup(old(stored).value)
      ensures stored.Some? && forall x :: x in ids <==> x in stored.value
    {
      if stored.None? || stored.value == [] {
        stored := Some(initial);
      }
      DedupFacts(stored.value);
      ids := Dedup(stored.value);
    }

    /** `saveAdminsToDb`: store the list, and read the set back from it. */
    method Save(list: seq<string>)
      modifies this
      ensures Valid() && stored == Some(list) && ids == Dedup(list)
    {
      DedupFacts(list);
      stored := Some(list);
      ids := Dedup(list);
    }

    /** `addAdmin`. */
    method AddAdmin(id: string)
      requires Valid()
      modifies this
      ensures Valid() && ids == AddId(old(ids), id) && stored == Some(ids)
    {
      var s := AddId(ids, id);
      DedupDistinct(s);
      Save(s);
    }

    /** `removeAdmin`. */
    method RemoveAdmin(id: string)
      requires Valid()
      modifies this
      ensures Valid() && ids == RemoveId(old(ids), id) && stored == Some(ids)
    {
      RemoveIdFacts(ids, id);
      var s := RemoveId(ids, id);
      DedupDistinct(s);
      Save(s);
    }

    /** `isAdmin`. */
    predicate IsAdmin(id: string)
      reads this
    {
      id in ids
    }

    /** `/rmadmin <target>` once the caller is known to be an admin: refuse to remove the only
        admin, otherwise remove the target. */
    method RmAdmin(target: string) returns (removed: bool)
      requires Valid()
      modifies this
      ensures Valid()
      ensures removed <==> !(|old(ids)| <= 1 && target in old(ids))
      ensures removed ==> ids == RemoveId(old(ids), target) && stored == Some(ids)
      ensures !removed ==> ids == old(ids) && stored == old(stored)
      ensures old(ids) != [] ==> ids != []
    {
      if |ids| <= 1 && target in ids {
        return false;
      }
      RemoveIdFacts(ids, target);
      if target in ids {
        assert ids[0] in ids && ids[1] in ids;
        assert ids[0] in RemoveId(ids, target) || ids[1] in RemoveId(ids, target);
      } else if ids != [] {
        assert ids[0] in RemoveId(ids, target);
      }
      RemoveAdmin(target);
      removed := true;
    }
  }

  // ───────────── shouldSend ─────────────

  /** The decision of `shouldSend(map, key, win)` at time `now`: the time of the last send
      for the key (0 when there is none), and whether the window has passed. */
  function LastSent(last: map<string, int>, key: string): int {
    if key in last then last[key] else 0
  }

  /** One `shouldSend` call on the map `last`: whether to send, and the map afterwards. */
  function Decide(last: map<string, int>, key: string, now: int, win: int): (bool, map<string, int>) {
    if now - LastSent(last, key) < win then (false, last) else (true, last[key := now])
  }

  /** `lastNotified.morning` or `lastNotified.evening`: the last send time per key. */
  class Throttle {
    var last: map<string, int>

    constructor ()
      ensures last == map[]
    {
      last := map[];
    }

    /** `shouldSend`: refuse within `win` of the last send for this key, leaving the map as it
        is; otherwise record `now` and allow. */
    method ShouldSend(key: string, now: int, win: int) returns (send: bool)
      modifies this
      ensures (send, last) == Decide(old(last), key, now, win)
      ensures send <==> now - LastSent(old(last), key) >= win
    {
      var prev := LastSent(last, key);
      if now - prev < win {
        return false;
      }
      last := last[key := now];
      send := true;
    }
  }

  /** Two successive `shouldSend` calls: after a send for `key` at `now`, a call for the same
      key at `later` is refused and leaves the map alone while `later` is within `win` of
      `now`, and allowed once it is not; a call for any other key decides exactly as it would
      have without the first send. */
  lemma ThrottleWindow(last: map<string, int>, key: string, now: int, later: int, win: int, other: string)
    requires Decide(last, key, now, win).0
    ensures var m := Decide(last, key, now, win).1;
      (later - now < win ==> Decide(m, key, later, win) == (false, m))
      && (later - now >= win ==> Decide(m, key, later, win) == (true, m[key := later]))
      && (other != key ==> Decide(m, other, later, win).0 == Decide(last, other, later, win).0)
  {
  }
}
