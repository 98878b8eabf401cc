/**
 * DicMeneger's task ledger (DicMeneger/src/db.js): de-duplicating addTasks, a toggle that
 * deletes the later copies of a series when it is completed, and a series-aware rollover
 * that stops carrying a series once any copy of it is done.
 */
module DicLedger {
  import opened Opt
  import opened Text
  import opened TaskCore

  /** `creatorId` of the tasks a rollover adds. */
  const RolloverCreator := "system:rollover"

  /** `toCarry`: the open tasks of one date, in ledger order. */
  function OpenOn(tasks: seq<Task>, date: Date): seq<Task>
    decreases |tasks|
  {
    if tasks == [] then []
    else if tasks[0].date == date && tasks[0].status == Open then [tasks[0]] + OpenOn(tasks[1..], date)
    else OpenOn(tasks[1..], date)
  }

  /** toCarry holds exactly the open tasks of the date. */
  lemma {:induction false} OpenOnMembers(tasks: seq<Task>, date: Date)
    ensures forall t :: t in OpenOn(tasks, date) <==> t in tasks && t.date == date && t.status == Open
    decreases |tasks|
  {
    if tasks != [] {
      OpenOnMembers(tasks[1..], date);
      assert tasks == [tasks[0]] + tasks[1..];
    }
  }

  /** The tasks a rollover carries: open on the source date, of a series with no done task
      anywhere, and not yet present on the target date. */
  function RolloverSelection(tasks: seq<Task>, fromDate: Date, toDate: Date): seq<Task> {
    Select(OpenOn(tasks, fromDate), DoneKeys(tasks), KeysOn(tasks, toDate))
  }

  /** The copies a rollover adds, numbered from `firstId`. */
  function Carried(sel: seq<Task>, toDate: Date, now: Time, firstId: nat): seq<Task> {
    seq(|sel|, k requires 0 <= k < |sel| =>
      Task(firstId + k, sel[k].title, toDate, RolloverCreator, sel[k].assigneeId, Open, now, None))
  }

  lemma CarriedSnoc(sel: seq<Task>, t: Task, toDate: Date, now: Time, firstId: nat)
    ensures Carried(sel + [t], toDate, now, firstId)
      == Carried(sel, toDate, now, firstId) + [Task(firstId + |sel|, t.title, toDate, RolloverCreator, t.assigneeId, Open, now, None)]
  {
  }

  /** The loop of rollOverOpenTasks, one candidate at a time: `sel` are the tasks copied so far
      and `seen` the series on the target date so far. */
  lemma RollStep(cands: seq<Task>, blocked: set<Key>, seen0: set<Key>, i: nat, seen: set<Key>, sel: seq<Task>,
                 toDate: Date, now: Time, firstId: nat)
    requires i < |cands|
    requires Select(cands, blocked, seen0) == sel + Select(cands[i..], blocked, seen)
    ensures var k := KeyOf(cands[i]);
      if k in blocked || k in seen then
        Select(cands, blocked, seen0) == sel + Select(cands[i + 1..], blocked, seen)
      else
        Select(cands, blocked, seen0) == (sel + [cands[i]]) + Select(cands[i + 1..], blocked, seen + {k})
        && Carried(sel + [cands[i]], toDate, now, firstId)
           == Carried(sel, toDate, now, firstId) + [Task(firstId + |sel|, cands[i].title, toDate, RolloverCreator, cands[i].assigneeId, Open, now, None)]
  {
    SelectStep(cands, blocked, seen, i);
    CarriedSnoc(sel, cands[i], toDate, now, firstId);
  }

  /** Whether `x` survives the clean-up after `t` is marked done: only later-dated copies of
      `t`'s series (same assignee, same normalised title) are deleted. */
  predicate Survives(x: Task, t: Task) {
    x.id == t.id || x.assigneeId != t.assigneeId || x.date <= t.date || Norm(x.title) != Norm(t.title)
  }

  /** The `filter` that toggleTask applies after marking `t` done. */
  function Prune(tasks: seq<Task>, t: Task): seq<Task>
    decreases |tasks|
  {
    if tasks == [] then []
    else if Survives(tasks[0], t) then [tasks[0]] + Prune(tasks[1..], t)
    else Prune(tasks[1..], t)
  }

  /** Prune keeps exactly the surviving tasks. */
  lemma {:induction false} PruneMembers(tasks: seq<Task>, t: Task)
    ensures forall x :: x in Prune(tasks, t) <==> x in tasks && Survives(x, t)
    decreases |tasks|
  {
    if tasks != [] {
      PruneMembers(tasks[1..], t);
      assert tasks == [tasks[0]] + tasks[1..];
    }
  }

  /** Deleting tasks keeps the store invariant and keeps buckets free of duplicates. */
  lemma {:induction false} PruneKeeps(tasks: seq<Task>, t: Task, nextId: nat)
    ensures StoreInvariant(tasks, nextId) ==> StoreInvariant(Prune(tasks, t), nextId)
    ensures BucketUnique(tasks) ==> BucketUnique(Prune(tasks, t))
    decreases |tasks|
  {
    if tasks != [] {
      PruneKeeps(tasks[1..], t, nextId);
      InvariantsTail(tasks, nextId);
      if Survives(tasks[0], t) {
        var rest := Prune(tasks[1..], t);
        PruneMembers(tasks[1..], t);
        InvariantsCons(tasks[0], rest, nextId);
      }
    }
  }

  /** Completing a task deletes exactly the later-dated copies of its series: the task itself
      stays, no later copy of the series survives, and every other task is kept. */
  lemma ToggleDoneCleansSeries(tasks: seq<Task>, nextId: nat, i: nat, now: Time)
    requires StoreInvariant(tasks, nextId) && i < |tasks| && tasks[i].status != Done
    ensures var t := Flip(tasks[i], now);
      var r := Prune(tasks[i := t], t);
      t in r && t.status == Done
      && (forall x :: x in r && x.id != t.id && KeyOf(x) == KeyOf(t) ==> x.date <= t.date)
      && (forall x :: x in tasks && x.id != t.id && (KeyOf(x) != KeyOf(t) || x.date <= t.date) ==> x in r)
  {
    var t := Flip(tasks[i], now);
    var s := tasks[i := t];
    PruneMembers(s, t);
    assert s[i] == t;
    forall x | x in tasks && x.id != t.id ensures x in s {
      var j :| 0 <= j < |tasks| && tasks[j] == x;
      assert j != i;
      assert s[j] == x;
    }
  }

  /** A rollover keeps the store invariant and never creates a duplicate in any bucket. */
  lemma RolloverKeepsInvariants(tasks: seq<Task>, nextId: nat, fromDate: Date, toDate: Date, now: Time)
    requires StoreInvariant(tasks, nextId)
    ensures var c := Carried(RolloverSelection(tasks, fromDate, toDate), toDate, now, nextId);
      StoreInvariant(tasks + c, nextId + |c|)
      && (BucketUnique(tasks) ==> BucketUnique(tasks + c))
  {
    var cands := OpenOn(tasks, fromDate);
    var sel := RolloverSelection(tasks, fromDate, toDate);
    var c := Carried(sel, toDate, now, nextId);
    AppendFresh(tasks, nextId, c);
    if BucketUnique(tasks) {
      SelectFrom(cands, DoneKeys(tasks), KeysOn(tasks, toDate));
      SelectDistinct(cands, DoneKeys(tasks), KeysOn(tasks, toDate));
      forall k | 0 <= k < |c| ensures c[k].date == toDate && KeyOf(c[k]) !in KeysOn(tasks, toDate) {
        assert KeyOf(c[k]) == KeyOf(sel[k]) && sel[k] in sel;
      }
      forall k, l | 0 <= k < l < |c| ensures KeyOf(c[k]) != KeyOf(c[l]) {
        assert KeyOf(c[k]) == KeyOf(sel[k]) && KeyOf(c[l]) == KeyOf(sel[l]);
      }
      AppendFreshKeys(tasks, c, toDate);
    }
  }

  /** What a rollover carries: each copy is an open task on the target date, made by the
      rollover, repeating the title and assignee of an open task of the source date whose
      series has no done task and was not yet on the target date. Every open task of the
      source date whose series has no done task has its series on the target date afterwards. */
  lemma RolloverCarries(tasks: seq<Task>, nextId: nat, fromDate: Date, toDate: Date, now: Time)
    ensures var sel := RolloverSelection(tasks, fromDate, toDate);
      var c := Carried(sel, toDate, now, nextId);
      (forall k :: 0 <= k < |c| ==>
         c[k].date == toDate && c[k].status == Open && c[k].creatorId == RolloverCreator
         && sel[k] in tasks && sel[k].date == fromDate && sel[k].status == Open
         && c[k].title == sel[k].title && c[k].assigneeId == sel[k].assigneeId
         && KeyOf(sel[k]) !in DoneKeys(tasks) && KeyOf(sel[k]) !in KeysOn(tasks, toDate))
      && (forall t :: t in tasks && t.date == fromDate && t.status == Open && KeyOf(t) !in DoneKeys(tasks)
           ==> KeyOf(t) in KeysOn(tasks + c, toDate))
  {
    var cands := OpenOn(tasks, fromDate);
    var sel := RolloverSelection(tasks, fromDate, toDate);
    var c := Carried(sel, toDate, now, nextId);
    OpenOnMembers(tasks, fromDate);
    SelectFrom(cands, DoneKeys(tasks), KeysOn(tasks, toDate));
    SelectComplete(cands, DoneKeys(tasks), KeysOn(tasks, toDate));
    forall k | 0 <= k < |c| ensures sel[k] in tasks && sel[k].date == fromDate && sel[k].status == Open {
      assert sel[k] in sel;
    }
    forall t | t in tasks && t.date == fromDate && t.status == Open && KeyOf(t) !in DoneKeys(tasks)
      ensures KeyOf(t) in KeysOn(tasks + c, toDate)
    {
      assert t in cands;
      if KeyOf(t) in KeysOn(tasks, toDate) {
        var u :| u in tasks && u.date == toDate && KeyOf(u) == KeyOf(t);
        assert u in tasks + c;
      } else {
        var u :| u in sel && KeyOf(u) == KeyOf(t);
        var k :| 0 <= k < |sel| && sel[k] == u;
        assert c[k] in tasks + c && KeyOf(c[k]) == KeyOf(u);
      }
    }
  }

  /** Rolling over a second time between the same dates carries nothing. */
  lemma RolloverIdempotent(tasks: seq<Task>, nextId: nat, fromDate: Date, toDate: Date, now: Time)
    ensures var c := Carried(RolloverSelection(tasks, fromDate, toDate), toDate, now, nextId);
      RolloverSelection(tasks + c, fromDate, toDate) == []
  {
    var sel := RolloverSelection(tasks, fromDate, toDate);
    var c := Carried(sel, toDate, now, nextId);
    var s := tasks + c;
    OpenOnMembers(tasks, fromDate);
    OpenOnMembers(s, fromDate);
    SelectComplete(OpenOn(tasks, fromDate), DoneKeys(tasks), KeysOn(tasks, toDate));
    forall t | t in OpenOn(s, fromDate) ensures KeyOf(t) in DoneKeys(s) + KeysOn(s, toDate) {
      if t in tasks {
        assert t in OpenOn(tasks, fromDate);
        if KeyOf(t) in DoneKeys(tasks) {
          var u :| u in tasks && u.status == Done && KeyOf(u) == KeyOf(t);
          assert u in s;
        } else if KeyOf(t) in KeysOn(tasks, toDate) {
          var u :| u in tasks && u.date == toDate && KeyOf(u) == KeyOf(t);
          assert u in s;
        } else {
          var u :| u in sel && KeyOf(u) == KeyOf(t);
          var k :| 0 <= k < |sel| && sel[k] == u;
          assert c[k] in s && KeyOf(c[k]) == KeyOf(u);
        }
      } else {
        var k :| 0 <= k < |c| && c[k] == t;
        assert t.date == toDate;
      }
    }
    SelectNothingNew(OpenOn(s, fromDate), DoneKeys(s), KeysOn(s, toDate));
  }

  /**
   * The body of `rollOverOpenTasks` on the ledger document `doc`: copy each open task of
   * `fromDate` to `toDate` unless its series has a done task anywhere or is already on
   * `toDate`, numbering the copies from `next`.
   */
  method RollOverTo(doc: seq<Task>, next: nat, fromDate: Date, toDate: Date, now: Time)
    returns (doc': seq<Task>, next': nat, created: seq<Task>)
    ensures created == Carried(RolloverSelection(doc, fromDate, toDate), toDate, now, next)
    ensures doc' == doc + created && next' == next + |created|
  {
    doc', next' := doc, next;
    var doneSeries := DoneKeys(doc);
    var alreadyTomorrow := KeysOn(doc, toDate);
    var toCarry := OpenOn(doc, fromDate);
    ghost var seen0 := alreadyTomorrow;
    ghost var sel: seq<Task> := [];
    created := [];
    var i := 0;
    while i < |toCarry|
      invariant 0 <= i <= |toCarry|
      invariant Select(toCarry, doneSeries, seen0) == sel + Select(toCarry[i..], doneSeries, alreadyTomorrow)
      invariant created == Carried(sel, toDate, now, next)
      invariant doc' == doc + created && next' == next + |created|
    {
      RollStep(toCarry, doneSeries, seen0, i, alreadyTomorrow, sel, toDate, now, next);
      var t := toCarry[i];
      var key := KeyOf(t);
      if key !in doneSeries && key !in alreadyTomorrow {
        var newTask := Task(next', t.title, toDate, RolloverCreator, t.assigneeId, Open, now, None);
        doc' := doc' + [newTask];
        created := created + [newTask];
        next' := next' + 1;
        alreadyTomorrow := alreadyTomorrow + {key};
        sel := sel + [t];
      }
      i := i + 1;
    }
    assert toCarry[i..] == [];
  }

  /** The ledger document: users and tasks, and the fresh-id source standing for `nanoid(10)`. */
  class Ledger {
    var users: seq<User>
    var tasks: seq<Task>
    var nextId: nat

    ghost predicate Valid()
      reads this
    {
      StoreInvariant(tasks, nextId) && UniqueUsers(users)
    }

    constructor ()
      ensures Valid() && users == [] && tasks == []
    {
      users := [];
      tasks := [];
      nextId := 0;
    }

    /** `ensureUser`. */
    method EnsureUser(tgId: string, username: Option<string>, fullName: Option<string>, now: Time) returns (u: User)
      requires Valid()
      modifies this
      ensures Valid()
      ensures users == Upsert(old(users), tgId, username, fullName, now)
      ensures FindUser(users, tgId).Some? && u == users[FindUser(users, tgId).value]
      ensures tasks == old(tasks) && nextId == old(nextId)
    {
      UpsertFacts(users, tgId, username, fullName, now);
      var found := FindUser(users, tgId);
      if found.None? {
        u := User(tgId, OrElse(username, None), OrElse(fullName, None), now);
        users := users + [u];
      } else {
        var i := found.value;
        u := users[i].(username := OrElse(username, users[i].username), fullName := OrElse(fullName, users[i].fullName));
        users := users[i := u];
      }
    }

    /** `addTasks`: store the trimmed, non-blank titles whose normalised form is not yet in the
        (assignee, date) bucket, the first spelling of each winning. */
    method AddTasks(creatorId: string, assigneeId: string, date: Date, titles: seq<string>, now: Time)
      returns (created: seq<Task>)
      requires Valid()
      modifies this
      ensures Valid()
      ensures created == NewTasks(Admit(BucketNorms(old(tasks), assigneeId, date), titles), creatorId, assigneeId, date, now, old(nextId))
      ensures tasks == old(tasks) + created && nextId == old(nextId) + |created| && users == old(users)
      ensures BucketUnique(old(tasks)) ==> BucketUnique(tasks)
    {
      var doc, next;
      doc, next, created := AddTasksTo(tasks, nextId, creatorId, assigneeId, date, titles, now);
      AddKeepsInvariants(tasks, nextId, creatorId, assigneeId, date, titles, now);
      // `db.write()`.
      tasks, nextId := doc, next;
    }

    /** `listTasksForAssignee`: one bucket, oldest first. */
    function ListTasksForAssignee(assigneeId: string, date: Date): (r: seq<Task>)
      reads this
      ensures SortedByCreated(r)
      ensures multiset(r) == multiset(BucketOf(tasks, assigneeId, date))
      ensures forall c :: CreatedAt(r, c) == CreatedAt(BucketOf(tasks, assigneeId, date), c)
    {
      ListBucket(tasks, assigneeId, date)
    }

    /** `toggleTask`: flip the first task with this id; when it becomes done, delete the
        later-dated copies of its series. */
    method ToggleTask(taskId: nat, now: Time) returns (r: Option<Task>)
      requires Valid()
      modifies this
      ensures Valid()
      ensures users == old(users) && nextId == old(nextId)
      ensures FindTask(old(tasks), taskId).None? ==> r.None? && tasks == old(tasks)
      ensures FindTask(old(tasks), taskId).Some? ==>
        var i := FindTask(old(tasks), taskId).value;
        var t := Flip(old(tasks)[i], now);
        r == Some(t)
        && tasks == (if t.status == Done then Prune(old(tasks)[i := t], t) else old(tasks)[i := t])
    {
      var found := FindTask(tasks, taskId);
      if found.None? {
        return None;
      }
      var i := found.value;
      var t := tasks[i];
      if t.status == Done {
        t := t.(status := Open, doneAt := None);
        tasks := tasks[i := t];
        FlipKeepsInvariant(old(tasks), nextId, i, now);
      } else {
        t := t.(status := Done, doneAt := Some(now));
        tasks := tasks[i := t];
        FlipKeepsInvariant(old(tasks), nextId, i, now);
        PruneKeeps(tasks, t, nextId);
        tasks := Prune(tasks, t);
      }
      r := Some(t);
    }

    /** `statsForDate`. */
    method StatsForDate(date: Date) returns (res: map<string, Tally>)
      ensures res == Tallies(tasks, date)
    {
      res := TaskCore.StatsForDate(tasks, date);
    }

    /** `rollOverOpenTasks`: copy each open task of `fromDate` to `toDate` unless its series
        has a done task anywhere or is already on `toDate`. */
    method RollOverOpenTasks(fromDate: Date, toDate: Date, now: Time) returns (created: seq<Task>)
      requires Valid()
      modifies this
      ensures Valid()
      ensures created == Carried(RolloverSelection(old(tasks), fromDate, toDate), toDate, now, old(nextId))
      ensures tasks == old(tasks) + created && nextId == old(nextId) + |created| && users == old(users)
      ensures BucketUnique(old(tasks)) ==> BucketUnique(tasks)
    {
      var doc, next;
      doc, next, created := RollOverTo(tasks, nextId, fromDate, toDate, now);
      RolloverKeepsInvariants(tasks, nextId, fromDate, toDate, now);
      // `db.write()`.
      tasks, nextId := doc, next;
    }
  }
}
