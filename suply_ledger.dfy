/**
 * Suply's task ledger (Suply/src/db.js): the same de-duplicating addTasks as DicMeneger, a
 * plain open/done toggle, and a rollover that carries every task of the source date that is
 * not done, skipping only what is already on the target date, and returns a count.
 */
module SuplyLedger {
  import opened Opt
  import opened Text
  import opened TaskCore

  /** `creatorId` of a carried copy: the original creator, or "system" when that is empty. */
  function CarryCreator(creatorId: string): (c: string)
    ensures c != ""
    ensures creatorId != "" ==> c == creatorId
  {
    if creatorId == "" then "system" else creatorId
  }

  /** `opens`: the tasks of one date whose status is not "done", in ledger order. */
  function NotDoneOn(tasks: seq<Task>, date: Date): seq<Task>
    decreases |tasks|
  {
    if tasks == [] then []
    else if tasks[0].date == date && tasks[0].status != Done then [tasks[0]] + NotDoneOn(tasks[1..], date)
    else NotDoneOn(tasks[1..], date)
  }

  lemma {:induction false} NotDoneOnMembers(tasks: seq<Task>, date: Date)
    ensures forall t :: t in NotDoneOn(tasks, date) <==> t in tasks && t.date == date && t.status != Done
    decreases |tasks|
  {
    if tasks != [] {
      NotDoneOnMembers(tasks[1..], date);
      assert tasks == [tasks[0]] + tasks[1..];
    }
  }

  /** The tasks a rollover carries: not done on the source date, and of a series not yet on
      the target date (nothing blocks a series here). */
  function RolloverSelection(tasks: seq<Task>, fromDate: Date, toDate: Date): seq<Task> {
    Select(NotDoneOn(tasks, fromDate), {}, KeysOn(tasks, toDate))
  }

  /** The copies a rollover adds, numbered from `firstId`. */
  function Carried(sel: seq<Task>, toDate: Date, now: Time, firstId: nat): seq<Task> {
    seq(|sel|, k requires 0 <= k < |sel| =>
      Task(firstId + k, sel[k].title, toDate, CarryCreator(sel[k].creatorId), sel[k].assigneeId, Open, now, None))
  }

  /** The loop of rollOverOpenTasks, one candidate at a time. */
  lemma RollStep(cands: seq<Task>, seen0: set<Key>, i: nat, seen: set<Key>, sel: seq<Task>,
                 toDate: Date, now: Time, firstId: nat)
    requires i < |cands|
    requires Select(cands, {}, seen0) == sel + Select(cands[i..], {}, seen)
    ensures var k := KeyOf(cands[i]);
      if k in seen then
        Select(cands, {}, seen0) == sel + Select(cands[i + 1..], {}, seen)
      else
        Select(cands, {}, seen0) == (sel + [cands[i]]) + Select(cands[i + 1..], {}, seen + {k})
        && Carried(sel + [cands[i]], toDate, now, firstId)
           == Carried(sel, toDate, now, firstId)
              + [Task(firstId + |sel|, cands[i].title, toDate, CarryCreator(cands[i].creatorId), cands[i].assigneeId, Open, now, None)]
  {
    SelectStep(cands, {}, seen, i);
    var t := cands[i];
    assert Carried(sel + [t], toDate, now, firstId)
           == Carried(sel, toDate, now, firstId)
              + [Task(firstId + |sel|, t.title, toDate, CarryCreator(t.creatorId), t.assigneeId, Open, now, None)];
  }

  /**
   * The body of `rollOverOpenTasks` on the ledger document `doc`: copy every task of
   * `fromDate` that is not done to `toDate` unless its series is already there, and count
   * the copies.
   */
  method RollOverTo(doc: seq<Task>, next: nat, fromDate: Date, toDate: Date, now: Time)
    returns (doc': seq<Task>, next': nat, createdCount: nat)
    ensures createdCount == |RolloverSelection(doc, fromDate, toDate)|
    ensures doc' == doc + Carried(RolloverSelection(doc, fromDate, toDate), toDate, now, next)
    ensures next' == next + createdCount
  {
    doc', next' := doc, next;
    var existsTo := KeysOn(doc, toDate);
    var opens := NotDoneOn(doc, fromDate);
    ghost var seen0 := existsTo;
    ghost var sel: seq<Task> := [];
    createdCount := 0;
    var i := 0;
    while i < |opens|
      invariant 0 <= i <= |opens|
      invariant Select(opens, {}, seen0) == sel + Select(opens[i..], {}, existsTo)
      invariant doc' == doc + Carried(sel, toDate, now, next)
      invariant createdCount == |sel| && next' == next + createdCount
    {
      RollStep(opens, seen0, i, existsTo, sel, toDate, now, next);
      var t := opens[i];
      var key := KeyOf(t);
      if key !in existsTo {
        doc' := doc' + [Task(next', t.title, toDate, CarryCreator(t.creatorId), t.assigneeId, Open, now, None)];
        next' := next' + 1;
        existsTo := existsTo + {key};
        createdCount := createdCount + 1;
        sel := sel + [t];
      }
      i := i + 1;
    }
    assert opens[i..] == [];
  }

  /** A rollover keeps the store invariant and never creates a duplicate in any bucket. */
  lemma RolloverKeepsInvariants(tasks: seq<Task>, nextId: nat, fromDate: Date, toDate: Date, now: Time)
    requires StoreInvariant(tasks, nextId)
    ensures var c := Carried(RolloverSelection(tasks, fromDate, toDate), toDate, now, nextId);
      StoreInvariant(tasks + c, nextId + |c|)
      && (BucketUnique(tasks) ==> BucketUnique(tasks + c))
  {
    var cands := NotDoneOn(tasks, fromDate);
    var sel := RolloverSelection(tasks, fromDate, toDate);
    var c := Carried(sel, toDate, now, nextId);
    AppendFresh(tasks, nextId, c);
    if BucketUnique(tasks) {
      SelectFrom(cands, {}, KeysOn(tasks, toDate));
      SelectDistinct(cands, {}, KeysOn(tasks, toDate));
      forall k | 0 <= k < |c| ensures c[k].date == toDate && KeyOf(c[k]) !in KeysOn(tasks, toDate) {
        assert KeyOf(c[k]) == KeyOf(sel[k]) && sel[k] in sel;
      }
      forall k, l | 0 <= k < l < |c| ensures KeyOf(c[k]) != KeyOf(c[l]) {
        assert KeyOf(c[k]) == KeyOf(sel[k]) && KeyOf(c[l]) == KeyOf(sel[l]);
      }
      AppendFreshKeys(tasks, c, toDate);
    }
  }

  /** What a rollover carries: each copy is an open task on the target date repeating the
      title and assignee of a not-done task of the source date, with that task's creator or
      "system"; afterwards every not-done task of the source date has its series on the
      target date. */
  lemma RolloverCarries(tasks: seq<Task>, nextId: nat, fromDate: Date, toDate: Date, now: Time)
    ensures var sel := RolloverSelection(tasks, fromDate, toDate);
      var c := Carried(sel, toDate, now, nextId);
      (forall k :: 0 <= k < |c| ==>
         c[k].date == toDate && c[k].status == Open && c[k].doneAt == None
         && sel[k] in tasks && sel[k].date == fromDate && sel[k].status != Done
         && c[k].title == sel[k].title && c[k].assigneeId == sel[k].assigneeId
         && c[k].creatorId == CarryCreator(sel[k].creatorId)
         && KeyOf(sel[k]) !in KeysOn(tasks, toDate))
      && (forall t :: t in tasks && t.date == fromDate && t.status != Done
           ==> KeyOf(t) in KeysOn(tasks + c, toDate))
  {
    var cands := NotDoneOn(tasks, fromDate);
    var sel := RolloverSelection(tasks, fromDate, toDate);
    var c := Carried(sel, toDate, now, nextId);
    NotDoneOnMembers(tasks, fromDate);
    SelectFrom(cands, {}, KeysOn(tasks, toDate));
    SelectComplete(cands, {}, KeysOn(tasks, toDate));
    forall k | 0 <= k < |c| ensures sel[k] in tasks && sel[k].date == fromDate && sel[k].status != Done {
      assert sel[k] in sel;
    }
    forall t | t in tasks && t.date == fromDate && t.status != Done
      ensures KeyOf(t) in KeysOn(tasks + c, toDate)
    {
      assert t in cands;
      if KeyOf(t) in KeysOn(tasks, toDate) {
        var u :| u in tasks && u.date == toDate && KeyOf(u) == KeyOf(t);
        assert u in tasks + c;
      } else {
        var u :| u in sel && KeyOf(u) == KeyOf(t);
        var k :| 0 <= k < |sel| && sel[k] == u;
        assert c[k] in tasks + c && KeyOf(c[k]) == KeyOf(u);
      }
    }
  }

  /** Rolling over a second time between the same dates carries nothing, so it returns 0. */
  lemma RolloverIdempotent(tasks: seq<Task>, nextId: nat, fromDate: Date, toDate: Date, now: Time)
    ensures var c := Carried(RolloverSelection(tasks, fromDate, toDate), toDate, now, nextId);
      |RolloverSelection(tasks + c, fromDate, toDate)| == 0
  {
    var sel := RolloverSelection(tasks, fromDate, toDate);
    var c := Carried(sel, toDate, now, nextId);
    var s := tasks + c;
    RolloverCarries(tasks, nextId, fromDate, toDate, now);
    NotDoneOnMembers(s, fromDate);
    forall t | t in NotDoneOn(s, fromDate) ensures KeyOf(t) in {} + KeysOn(s, toDate) {
      // A copy is dated `toDate`; were that `fromDate`, its source would already be there.
      assert t in tasks;
    }
    SelectNothingNew(NotDoneOn(s, fromDate), {}, KeysOn(s, toDate));
  }

  /** The ledger document: users and tasks, and the fresh-id source standing for `nanoid(10)`. */
  class Ledger {
    var users: seq<User>
    var tasks: seq<Task>
    var nextId: nat

    ghost predicate Valid()
      reads this
    {
      StoreInvariant(tasks, nextId) && UniqueUsers(users)
    }

    constructor ()
      ensures Valid() && users == [] && tasks == []
    {
      users := [];
      tasks := [];
      nextId := 0;
    }

    /** `ensureUser`. */
    method EnsureUser(tgId: string, username: Option<string>, fullName: Option<string>, now: Time) returns (u: User)
      requires Valid()
      modifies this
      ensures Valid()
      ensures users == Upsert(old(users), tgId, username, fullName, now)
      ensures FindUser(users, tgId).Some? && u == users[FindUser(users, tgId).value]
      ensures tasks == old(tasks) && nextId == old(nextId)
    {
      UpsertFacts(users, tgId, username, fullName, now);
      var found := FindUser(users, tgId);
      if found.None? {
        u := User(tgId, OrElse(username, None), OrElse(fullName, None), now);
        users := users + [u];
      } else {
        var i := found.value;
        u := users[i].(username := OrElse(username, users[i].username), fullName := OrElse(fullName, users[i].fullName));
        users := users[i := u];
      }
    }

    /** `addTasks`: store the trimmed, non-blank titles whose normalised form is not yet in the
        (assignee, date) bucket, the first spelling of each winning. */
    method AddTasks(creatorId: string, assigneeId: string, date: Date, titles: seq<string>, now: Time)
      returns (created: seq<Task>)
      requires Valid()
      modifies this
      ensures Valid()
      ensures created == NewTasks(Admit(BucketNorms(old(tasks), assigneeId, date), titles), creatorId, assigneeId, date, now, old(nextId))
      ensures tasks == old(tasks) + created && nextId == old(nextId) + |created| && users == old(users)
      ensures BucketUnique(old(tasks)) ==> BucketUnique(tasks)
    {
      var doc, next;
      doc, next, created := AddTasksTo(tasks, nextId, creatorId, assigneeId, date, titles, now);
      AddKeepsInvariants(tasks, nextId, creatorId, assigneeId, date, titles, now);
      tasks, nextId := doc, next;
    }

    /** `listTasksForAssignee`: one bucket, oldest first. */
    function ListTasksForAssignee(assigneeId: string, date: Date): (r: seq<Task>)
      reads this
      ensures SortedByCreated(r)
      ensures multiset(r) == multiset(BucketOf(tasks, assigneeId, date))
      ensures forall c :: CreatedAt(r, c) == CreatedAt(BucketOf(tasks, assigneeId, date), c)
    {
      ListBucket(tasks, assigneeId, date)
    }

    /** `toggleTask`: flip the first task with this id between open and done; nothing else changes. */
    method ToggleTask(taskId: nat, now: Time) returns (r: Option<Task>)
      requires Valid()
      modifies this
      ensures Valid()
      ensures users == old(users) && nextId == old(nextId)
      ensures FindTask(old(tasks), taskId).None? ==> r.None? && tasks == old(tasks)
      ensures FindTask(old(tasks), taskId).Some? ==>
        var i := FindTask(old(tasks), taskId).value;
        r == Some(Flip(old(tasks)[i], now)) && tasks == old(tasks)[i := Flip(old(tasks)[i], now)]
    {
      var found := FindTask(tasks, taskId);
      if found.None? {
        return None;
      }
      var i := found.value;
      var t := tasks[i];
      if t.status == Done {
        t := t.(status := Open, doneAt := None);
      } else {
        t := t.(status := Done, doneAt := Some(now));
      }
      FlipKeepsInvariant(tasks, nextId, i, now);
      tasks := tasks[i := t];
      r := Some(t);
    }

    /** `statsForDate`. */
    method StatsForDate(date: Date) returns (res: map<string, Tally>)
      ensures res == Tallies(tasks, date)
    {
      res := TaskCore.StatsForDate(tasks, date);
    }

    /** `rollOverOpenTasks`: returns how many copies were appended. */
    method RollOverOpenTasks(fromDate: Date, toDate: Date, now: Time) returns (createdCount: nat)
      requires Valid()
      modifies this
      ensures Valid()
      ensures createdCount == |RolloverSelection(old(tasks), fromDate, toDate)|
      ensures tasks == old(tasks) + Carried(RolloverSelection(old(tasks), fromDate, toDate), toDate, now, old(nextId))
      ensures nextId == old(nextId) + createdCount && users == old(users)
      ensures BucketUnique(old(tasks)) ==> BucketUnique(tasks)
    {
      var doc, next;
      doc, next, createdCount := RollOverTo(tasks, nextId, fromDate, toDate, now);
      RolloverKeepsInvariants(tasks, nextId, fromDate, toDate, now);
      tasks, nextId := doc, next;
    }
  }
}
