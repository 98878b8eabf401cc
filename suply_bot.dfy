/**
 * Suply's daily-template materialiser (Suply/src/index.js): the configured titles for an
 * assignee are the "*" list followed by the weekday list, de-duplicated by key, and the
 * ones not yet in today's bucket are handed to the de-duplicating addTasks.
 */
module SuplyBot {
  import opened Opt
  import opened Text
  import opened TaskCore
  import opened SuplyLedger
  import opened BotCommon

  const SystemCreator: string := "system"

  // ───────────── uniqueNormalized ─────────────

  /** The first occurrence of every key, trimmed, in input order. */
  function UniqueNorm(list: seq<string>): seq<string>
    decreases |list|
  {
    if list == [] then []
    else
      var r := UniqueNorm(list[..|list| - 1]);
      var t := list[|list| - 1];
      if Norm(t) in NormSet(r) then r else r + [Trim(t)]
  }

  lemma NormSetSnoc(r: seq<string>, t: string)
    ensures NormSet(r + [Trim(t)]) == NormSet(r) + {Norm(t)}
  {
    NormFacts(t);
    assert Trim(t) in r + [Trim(t)];
    forall x | x in r + [Trim(t)] ensures Norm(x) in NormSet(r) + {Norm(t)} {
      if x != Trim(t) { assert x in r; }
    }
  }

  lemma NormSetAppend(a: seq<string>, b: seq<string>)
    ensures NormSet(a + b) == NormSet(a) + NormSet(b)
  {
    forall x | x in a + b ensures Norm(x) in NormSet(a) + NormSet(b) {
      if x !in a { assert x in b; }
    }
    forall x | x in a ensures Norm(x) in NormSet(a + b) { assert x in a + b; }
    forall x | x in b ensures Norm(x) in NormSet(a + b) { assert x in a + b; }
  }

  /** `uniqueNormalized`: one pass with a set of the keys already emitted. */
  method UniqueNormalized(list: seq<string>) returns (out: seq<string>)
    ensures out == UniqueNorm(list)
  {
    var seen: set<string> := {};
    out := [];
    var i := 0;
    while i < |list|
      invariant 0 <= i <= |list|
      invariant out == UniqueNorm(list[..i])
      invariant seen == NormSet(out)
    {
      assert list[..i + 1][..i] == list[..i];
      var k := Norm(list[i]);
      if k !in seen {
        NormSetSnoc(out, list[i]);
        seen := seen + {k};
        out := out + [Trim(list[i])];
      }
      i := i + 1;
    }
    assert list[..i] == list;
  }

  /** uniqueNormalized emits no more titles than it was given, and exactly the keys of its input. */
  lemma {:induction false} UniqueNormKeys(list: seq<string>)
    ensures |UniqueNorm(list)| <= |list|
    ensures NormSet(UniqueNorm(list)) == NormSet(list)
    decreases |list|
  {
    if list != [] {
      var n := |list| - 1;
      var init := list[..n];
      var t := list[n];
      var r0 := UniqueNorm(init);
      UniqueNormKeys(init);
      assert list == init + [t];
      NormSetAppend(init, [t]);
      assert NormSet([t]) == {Norm(t)};
      if Norm(t) !in NormSet(r0) {
        NormSetSnoc(r0, t);
      }
    }
  }

  /** Every emitted title is the trimmed spelling of an input title. */
  lemma {:induction false} UniqueNormFrom(list: seq<string>)
    ensures forall x :: x in UniqueNorm(list) ==> Trimmed(x) && exists j :: 0 <= j < |list| && x == Trim(list[j])
    decreases |list|
  {
    if list != [] {
      var n := |list| - 1;
      var init := list[..n];
      var t := list[n];
      var r0 := UniqueNorm(init);
      UniqueNormFrom(init);
      forall x | x in r0 ensures exists j :: 0 <= j < |list| && x == Trim(list[j]) {
        var j :| 0 <= j < n && x == Trim(init[j]);
        assert init[j] == list[j];
      }
      var _, _ := TrimSlice(t);
      assert Trim(t) == Trim(list[n]);
    }
  }

  /** uniqueNormalized never emits two titles with the same key. */
  lemma {:induction false} UniqueNormDistinct(list: seq<string>)
    ensures NormsDistinct(UniqueNorm(list))
    decreases |list|
  {
    if list != [] {
      var n := |list| - 1;
      var t := list[n];
      var r0 := UniqueNorm(list[..n]);
      UniqueNormDistinct(list[..n]);
      if Norm(t) !in NormSet(r0) {
        var r := r0 + [Trim(t)];
        NormFacts(t);
        forall k, l | 0 <= k < l < |r| ensures Norm(r[k]) != Norm(r[l]) {
          if l == |r0| {
            assert r[k] in r0;
          } else {
            assert r[k] == r0[k] && r[l] == r0[l];
          }
        }
      }
    }
  }

  /** The first spelling of every key is the one kept. */
  lemma {:induction false} UniqueNormFirst(list: seq<string>, j: nat)
    requires j < |list| && forall k :: 0 <= k < j ==> Norm(list[k]) != Norm(list[j])
    ensures Trim(list[j]) in UniqueNorm(list)
    decreases |list|
  {
    var n := |list| - 1;
    var init := list[..n];
    var t := list[n];
    var r0 := UniqueNorm(init);
    if j < n {
      assert init[j] == list[j];
      assert forall k :: 0 <= k < j ==> init[k] == list[k];
      UniqueNormFirst(init, j);
      assert Trim(list[j]) in r0;
    } else {
      forall x | x in init ensures Norm(x) != Norm(t) {
        var k :| 0 <= k < n && init[k] == x;
        assert list[k] == x;
      }
      UniqueNormKeys(init);
      assert Norm(t) !in NormSet(r0);
    }
  }

  // ───────────── titlesFor ─────────────

  /** The list configured for `uid` under one key of the template table; none is empty. */
  function ListFor(templates: Templates, key: DayKey, uid: string): seq<string> {
    if key in templates && uid in templates[key] then templates[key][uid] else []
  }

  /** The raw titles titlesFor collects: the "*" list, then the weekday list. */
  function Configured(templates: Templates, uid: string, weekdayISO: int): seq<string> {
    ListFor(templates, Star, uid) + ListFor(templates, Day(weekdayISO), uid)
  }

  /** `titlesFor`: push the non-empty "*" list, then the non-empty weekday list, and
      de-duplicate the lot. */
  method TitlesFor(templates: Templates, uid: string, weekdayISO: int) returns (titles: seq<string>)
    ensures titles == UniqueNorm(Configured(templates, uid, weekdayISO))
  {
    var res: seq<string> := [];
    if Star in templates && uid in templates[Star] && |templates[Star][uid]| > 0 {
      res := res + templates[Star][uid];
    }
    assert res == ListFor(templates, Star, uid);
    if Day(weekdayISO) in templates && uid in templates[Day(weekdayISO)] && |templates[Day(weekdayISO)][uid]| > 0 {
      res := res + templates[Day(weekdayISO)][uid];
    }
    assert res == ListFor(templates, Star, uid) + ListFor(templates, Day(weekdayISO), uid);
    titles := UniqueNormalized(res);
  }

  /** The titles are the union of the two lists by key, each key once; there are none exactly
      when neither list has an entry. */
  lemma TitlesForUnion(templates: Templates, uid: string, weekdayISO: int)
    ensures var titles := UniqueNorm(Configured(templates, uid, weekdayISO));
      NormSet(titles) == NormSet(ListFor(templates, Star, uid)) + NormSet(ListFor(templates, Day(weekdayISO), uid))
      && NormsDistinct(titles)
      && (titles == [] <==> ListFor(templates, Star, uid) == [] && ListFor(templates, Day(weekdayISO), uid) == [])
  {
    var all := Configured(templates, uid, weekdayISO);
    UniqueNormKeys(all);
    UniqueNormDistinct(all);
    NormSetAppend(ListFor(templates, Star, uid), ListFor(templates, Day(weekdayISO), uid));
    if all != [] {
      assert Norm(all[0]) in NormSet(all);
    }
  }

  // ───────────── ensureDailyTemplatesForDay ─────────────

  /** What ensureDailyTemplatesForDay returns for a ledger holding `tasks`: None when nothing
      is configured, [] when every configured key is already in today's bucket, and otherwise
      the tasks addTasks creates for the missing titles, numbered from `firstId`. */
  function DailyResult(templates: Templates, tasks: seq<Task>, uid: string, weekdayISO: int, today: Date,
                       now: Time, firstId: nat): Option<seq<Task>>
  {
    var titles := UniqueNorm(Configured(templates, uid, weekdayISO));
    if titles == [] then None
    else
      var have := BucketNorms(tasks, uid, today);
      var toCreate := FilterNew(titles, have);
      if toCreate == [] then Some([])
      else Some(NewTasks(Admit(have, toCreate), SystemCreator, uid, today, now, firstId))
  }

  /** The three outcomes of `DailyResult`, given the de-duplicated titles. */
  lemma DailyCases(templates: Templates, tasks: seq<Task>, uid: string, weekdayISO: int, today: Date,
                   now: Time, firstId: nat, titles: seq<string>)
    requires titles == UniqueNorm(Configured(templates, uid, weekdayISO))
    ensures titles == [] ==> DailyResult(templates, tasks, uid, weekdayISO, today, now, firstId) == None
    ensures titles != [] && FilterNew(titles, BucketNorms(tasks, uid, today)) == [] ==>
      DailyResult(templates, tasks, uid, weekdayISO, today, now, firstId) == Some([])
    ensures var have := BucketNorms(tasks, uid, today);
      titles != [] && FilterNew(titles, have) != [] ==>
      DailyResult(templates, tasks, uid, weekdayISO, today, now, firstId)
        == Some(NewTasks(Admit(have, FilterNew(titles, have)), SystemCreator, uid, today, now, firstId))
  {
  }

  /** The keys of a listing of today's bucket are the bucket's keys. */
  lemma ListedNorms(existing: seq<Task>, tasks: seq<Task>, uid: string, today: Date)
    requires multiset(existing) == multiset(BucketOf(tasks, uid, today))
    ensures (set t | t in existing :: Norm(t.title)) == BucketNorms(tasks, uid, today)
  {
    forall t ensures t in existing <==> t in BucketOf(tasks, uid, today) {
      assert t in existing <==> t in multiset(existing);
    }
  }

  /** `ensureDailyTemplatesForDay` against the Suply ledger. */
  method EnsureDailyTemplatesForDay(ledger: Ledger, templates: Templates, uid: string, weekdayISO: int,
                                    today: Date, now: Time)
    returns (r: Option<seq<Task>>)
    requires ledger.Valid()
    modifies ledger
    ensures ledger.Valid()
    ensures r == DailyResult(templates, old(ledger.tasks), uid, weekdayISO, today, now, old(ledger.nextId))
    ensures ledger.tasks == old(ledger.tasks) + r.GetOr([])
    ensures ledger.nextId == old(ledger.nextId) + |r.GetOr([])|
    ensures ledger.users == old(ledger.users)
  {
    var titles := TitlesFor(templates, uid, weekdayISO);
    DailyCases(templates, ledger.tasks, uid, weekdayISO, today, now, ledger.nextId, titles);
    if titles == [] {
      return None;
    }
    var existing := ledger.ListTasksForAssignee(uid, today);
    var have := set t | t in existing :: Norm(t.title);
    ListedNorms(existing, ledger.tasks, uid, today);
    var toCreate := FilterNew(titles, have);
    if toCreate == [] {
      return Some([]);
    }
    var created := ledger.AddTasks(SystemCreator, uid, today, toCreate, now);
    r := Some(created);
  }

  /** The bucket's keys after appending tasks for the titles `adm`. */
  lemma BucketAfterAdd(tasks: seq<Task>, adm: seq<string>, creatorId: string, uid: string, today: Date,
                       now: Time, first: nat)
    ensures BucketNorms(tasks + NewTasks(adm, creatorId, uid, today, now, first), uid, today)
      == BucketNorms(tasks, uid, today) + NormSet(adm)
  {
    var c := NewTasks(adm, creatorId, uid, today, now, first);
    forall x | x in NormSet(adm) ensures x in BucketNorms(tasks + c, uid, today) {
      var a :| a in adm && Norm(a) == x;
      var k :| 0 <= k < |adm| && adm[k] == a;
      assert c[k] in tasks + c;
    }
    forall t | t in tasks + c && InBucket(t, uid, today)
      ensures Norm(t.title) in BucketNorms(tasks, uid, today) + NormSet(adm)
    {
      if t !in tasks {
        var k :| 0 <= k < |c| && c[k] == t;
        assert adm[k] in adm;
      }
    }
  }

  /** Created tasks are open, undone, made by "system" for `uid` today, and each carries a
      configured title whose key was missing from today's bucket. */
  lemma DailyCreatesFresh(templates: Templates, tasks: seq<Task>, uid: string, weekdayISO: int, today: Date,
                          now: Time, first: nat)
    requires DailyResult(templates, tasks, uid, weekdayISO, today, now, first).Some?
    ensures var c := DailyResult(templates, tasks, uid, weekdayISO, today, now, first).value;
      (forall t :: t in c ==> (t.status == Open && t.doneAt == None && t.creatorId == SystemCreator
                               && t.assigneeId == uid && t.date == today))
      && (forall t :: t in c ==> (Norm(t.title) !in BucketNorms(tasks, uid, today)
                                  && t.title in UniqueNorm(Configured(templates, uid, weekdayISO))))
  {
    var titles := UniqueNorm(Configured(templates, uid, weekdayISO));
    var have := BucketNorms(tasks, uid, today);
    var toCreate := FilterNew(titles, have);
    var adm := if toCreate == [] then [] else Admit(have, toCreate);
    var c := DailyResult(templates, tasks, uid, weekdayISO, today, now, first).value;
    assert c == NewTasks(adm, SystemCreator, uid, today, now, first);
    FilterNewMembers(titles, have);
    AdmitFresh(have, toCreate);
    AdmitFrom(have, toCreate);
    forall t | t in c ensures Norm(t.title) !in have && t.title in titles {
      var k :| 0 <= k < |c| && c[k] == t;
      assert adm[k] in adm;
      var j :| 0 <= j < |toCreate| && adm[k] == Trim(toCreate[j]);
      assert toCreate[j] in titles;
      UniqueNormFrom(Configured(templates, uid, weekdayISO));
      TrimmedFixed(toCreate[j]);
    }
  }

  /** The key of every title that survives the filter, unless blank, ends up in the bucket. */
  lemma FilteredKeysPresent(tasks: seq<Task>, titles: seq<string>, uid: string, today: Date, now: Time, first: nat)
    ensures var have := BucketNorms(tasks, uid, today);
      var toCreate := FilterNew(titles, have);
      var adm := if toCreate == [] then [] else Admit(have, toCreate);
      forall y :: y in titles && Trim(y) != [] ==>
        (Norm(y) in BucketNorms(tasks + NewTasks(adm, SystemCreator, uid, today, now, first), uid, today))
  {
    var have := BucketNorms(tasks, uid, today);
    var toCreate := FilterNew(titles, have);
    var adm := if toCreate == [] then [] else Admit(have, toCreate);
    FilterNewMembers(titles, have);
    AdmitComplete(have, toCreate);
    BucketAfterAdd(tasks, adm, SystemCreator, uid, today, now, first);
    forall y | y in titles && Trim(y) != [] && Norm(y) !in have ensures Norm(y) in NormSet(adm) {
      var j :| 0 <= j < |toCreate| && toCreate[j] == y;
    }
  }

  /** After the call every non-blank configured title's key is in today's bucket. */
  lemma DailyCoversConfigured(templates: Templates, tasks: seq<Task>, uid: string, weekdayISO: int, today: Date,
                              now: Time, first: nat)
    requires DailyResult(templates, tasks, uid, weekdayISO, today, now, first).Some?
    ensures var c := DailyResult(templates, tasks, uid, weekdayISO, today, now, first).value;
      forall x :: x in Configured(templates, uid, weekdayISO) && Trim(x) != [] ==>
        Norm(x) in BucketNorms(tasks + c, uid, today)
  {
    var all := Configured(templates, uid, weekdayISO);
    var titles := UniqueNorm(all);
    var have := BucketNorms(tasks, uid, today);
    var toCreate := FilterNew(titles, have);
    var adm := if toCreate == [] then [] else Admit(have, toCreate);
    var c := DailyResult(templates, tasks, uid, weekdayISO, today, now, first).value;
    assert c == NewTasks(adm, SystemCreator, uid, today, now, first);
    UniqueNormKeys(all);
    FilteredKeysPresent(tasks, titles, uid, today, now, first);
    forall x | x in all && Trim(x) != [] ensures Norm(x) in BucketNorms(tasks + c, uid, today) {
      assert Norm(x) in NormSet(all);
      var y :| y in titles && Norm(y) == Norm(x);
      NormFacts(x);
      NormFacts(y);
    }
  }

  /** A second call on the same day, after the first one's tasks are stored, creates nothing:
      it returns None again when nothing is configured, and [] otherwise. */
  lemma DailyIdempotent(templates: Templates, tasks: seq<Task>, uid: string, weekdayISO: int, today: Date,
                        now: Time, first: nat, now': Time, first': nat)
    ensures var r := DailyResult(templates, tasks, uid, weekdayISO, today, now, first);
      DailyResult(templates, tasks + r.GetOr([]), uid, weekdayISO, today, now', first')
        == if r.None? then None else Some([])
  {
    var r := DailyResult(templates, tasks, uid, weekdayISO, today, now, first);
    if r.Some? {
      var titles := UniqueNorm(Configured(templates, uid, weekdayISO));
      var have := BucketNorms(tasks, uid, today);
      var toCreate := FilterNew(titles, have);
      var adm := if toCreate == [] then [] else Admit(have, toCreate);
      assert r.value == NewTasks(adm, SystemCreator, uid, today, now, first);
      FilteredKeysPresent(tasks, titles, uid, today, now, first);
      var have' := BucketNorms(tasks + r.value, uid, today);
      var toCreate' := FilterNew(titles, have');
      FilterNewMembers(titles, have');
      forall j | 0 <= j < |toCreate'| ensures Trim(toCreate'[j]) == [] || Norm(toCreate'[j]) in have' {
        assert toCreate'[j] in titles;
      }
      AdmitNothingNew(have', toCreate');
      assert |NewTasks([], SystemCreator, uid, today, now', first')| == 0;
    }
  }
}
