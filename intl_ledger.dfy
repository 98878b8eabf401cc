/**
 * The international department bot's task store (intl-dept-rolebot/src/db.js): addTasks
 * without any duplicate check, a process-wide task counter for ids, a plain toggle, a
 * total/done summary, and the repair of a malformed document.
 */
module IntlLedger {
  import opened Opt
  import opened Text
  import opened TaskCore

  /** A user record; unlike the other two bots it carries `updatedAt`. */
  datatype IntlUser = IntlUser(id: string, username: Option<string>, fullName: Option<string>,
                               createdAt: Time, updatedAt: Time)

  /** The part of `config` this store knows about. `Config(None)` is `{}`. */
  datatype Config = Config(adminIds: Option<seq<string>>)

  /** The document as read from disk: a field that is missing or of the wrong type is `None`. */
  datatype RawDoc = RawDoc(users: Option<seq<IntlUser>>, tasks: Option<seq<Task>>, config: Option<Config>)

  datatype Doc = Doc(users: seq<IntlUser>, tasks: seq<Task>, config: Config)

  /** `ensureArrays`: a missing or malformed users or tasks list becomes empty, a missing or
      non-object config becomes `{}`; well-formed fields are kept. */
  function EnsureArrays(raw: RawDoc): (d: Doc)
    ensures raw.users.None? ==> d.users == []
    ensures raw.tasks.None? ==> d.tasks == []
    ensures raw.config.None? ==> d.config == Config(None)
    ensures raw.users.Some? ==> d.users == raw.users.value
    ensures raw.tasks.Some? ==> d.tasks == raw.tasks.value
    ensures raw.config.Some? ==> d.config == raw.config.value
  {
    Doc(raw.users.GetOr([]), raw.tasks.GetOr([]), raw.config.GetOr(Config(None)))
  }

  /** Repairing a document that is already well formed changes nothing, and repairing twice is
      the same as repairing once. */
  lemma EnsureArraysIdempotent(raw: RawDoc)
    ensures var d := EnsureArrays(raw);
      EnsureArrays(RawDoc(Some(d.users), Some(d.tasks), Some(d.config))) == d
  {
  }

  function FindIntlUser(users: seq<IntlUser>, id: string): (r: Option<nat>)
    ensures r.None? ==> forall i :: 0 <= i < |users| ==> users[i].id != id
    ensures r.Some? ==> (r.value < |users| && users[r.value].id == id
                         && forall i :: 0 <= i < r.value ==> users[i].id != id)
    decreases |users|
  {
    if users == [] then None
    else if users[0].id == id then Some(0)
    else
      match FindIntlUser(users[1..], id)
      case None => None
      case Some(i) => Some(i + 1)
  }

  predicate UniqueIntlUsers(users: seq<IntlUser>) {
    forall i, j :: 0 <= i < j < |users| ==> users[i].id != users[j].id
  }

  /** `ensureUser`: a known user takes `username || u.username || null`, likewise for the full
      name, and `updatedAt := now`; a new one is appended with both times `now`. */
  function UpsertIntl(users: seq<IntlUser>, id: string, username: Option<string>, fullName: Option<string>, now: Time): seq<IntlUser> {
    match FindIntlUser(users, id)
    case None => users + [IntlUser(id, OrElse(username, None), OrElse(fullName, None), now, now)]
    case Some(i) =>
      users[i := users[i].(username := OrElse(username, OrElse(users[i].username, None)),
                           fullName := OrElse(fullName, OrElse(users[i].fullName, None)),
                           updatedAt := now)]
  }

  /** After ensureUser the id has exactly one record, a truthy new username or full name is
      taken, a falsy one keeps the old value unless that was empty too (then null), `createdAt`
      never changes, and every other user's record is left as it was. */
  lemma UpsertIntlFacts(users: seq<IntlUser>, id: string, username: Option<string>, fullName: Option<string>, now: Time)
    requires UniqueIntlUsers(users)
    ensures var r := UpsertIntl(users, id, username, fullName, now);
      UniqueIntlUsers(r)
      && FindIntlUser(r, id).Some?
      && var u := r[FindIntlUser(r, id).value];
      u.updatedAt == now
      && (Truthy(username) ==> u.username == username)
      && (!Truthy(username) && FindIntlUser(users, id).Some? && Truthy(users[FindIntlUser(users, id).value].username)
          ==> u.username == users[FindIntlUser(users, id).value].username)
      && (!Truthy(username) && (FindIntlUser(users, id).None? || !Truthy(users[FindIntlUser(users, id).value].username))
          ==> u.username == None)
      && (Truthy(fullName) ==> u.fullName == fullName)
      && (!Truthy(fullName) && FindIntlUser(users, id).Some? && Truthy(users[FindIntlUser(users, id).value].fullName)
          ==> u.fullName == users[FindIntlUser(users, id).value].fullName)
      && (!Truthy(fullName) && (FindIntlUser(users, id).None? || !Truthy(users[FindIntlUser(users, id).value].fullName))
          ==> u.fullName == None)
      && (FindIntlUser(users, id).Some? ==> u.createdAt == users[FindIntlUser(users, id).value].createdAt && |r| == |users|)
      && (FindIntlUser(users, id).None? ==> u.createdAt == now && |r| == |users| + 1)
    ensures var r := UpsertIntl(users, id, username, fullName, now);
      forall j :: 0 <= j < |users| && users[j].id != id ==> r[j] == users[j]
  {
    var r := UpsertIntl(users, id, username, fullName, now);
    match FindIntlUser(users, id)
    case None =>
      assert r[|users|].id == id;
      assert forall j :: 0 <= j < |users| ==> r[j] == users[j];
      assert FindIntlUser(r, id) == Some(|users|);
    case Some(i) =>
      assert r[i].id == id;
      assert forall j :: 0 <= j < |users| && j != i ==> r[j] == users[j];
      assert FindIntlUser(r, id) == Some(i);
  }

  /** The titles intl's addTasks stores: each title trimmed, blanks dropped, nothing else. */
  function TrimmedNonBlank(titles: seq<string>): seq<string>
    decreases |titles|
  {
    if titles == [] then []
    else
      var t := Trim(titles[|titles| - 1]);
      TrimmedNonBlank(titles[..|titles| - 1]) + (if t == [] then [] else [t])
  }

  /** Every non-blank title is stored, trimmed, in input order, even when it repeats an earlier
      title or one already in the bucket; only blank titles are dropped. */
  lemma {:induction false} TrimmedNonBlankFacts(titles: seq<string>)
    ensures forall x :: x in TrimmedNonBlank(titles) ==> x != [] && exists j :: 0 <= j < |titles| && x == Trim(titles[j])
    ensures forall j :: 0 <= j < |titles| && Trim(titles[j]) != [] ==> Trim(titles[j]) in TrimmedNonBlank(titles)
    ensures |TrimmedNonBlank(titles)| <= |titles|
    ensures (forall j :: 0 <= j < |titles| ==> Trim(titles[j]) != []) ==> |TrimmedNonBlank(titles)| == |titles|
    decreases |titles|
  {
    if titles != [] {
      var init := titles[..|titles| - 1];
      TrimmedNonBlankFacts(init);
      assert forall j :: 0 <= j < |init| ==> init[j] == titles[j];
    }
  }

  /** The contrast with the de-duplicating stores: a title given twice is stored twice. */
  lemma RepeatsStoredTwice(x: string)
    requires Trim(x) != []
    ensures TrimmedNonBlank([x, x]) == [Trim(x), Trim(x)]
  {
    assert [x, x][..1] == [x];
    assert [x][..0] == [];
    assert TrimmedNonBlank([x]) == TrimmedNonBlank([]) + [Trim(x)];
    assert TrimmedNonBlank([x, x]) == TrimmedNonBlank([x]) + [Trim(x)];
  }

  datatype TotalDone = TotalDone(total: nat, done: nat)

  /** intl's summary keeps only the total and done counts of the per-assignee tallies. */
  function Totals(m: map<string, Tally>): map<string, TotalDone> {
    map a | a in m :: TotalDone(m[a].total, m[a].done)
  }

  /** An assignee appears exactly when they have tasks that day, with `done <= total` and
      `total` the size of their bucket. */
  lemma TotalsFacts(tasks: seq<Task>, date: Date, a: string)
    ensures a in Totals(Tallies(tasks, date)) <==> |BucketOf(tasks, a, date)| > 0
    ensures a in Totals(Tallies(tasks, date)) ==>
      var r := Totals(Tallies(tasks, date))[a];
      r.total == |BucketOf(tasks, a, date)| && r.done == CountStatus(BucketOf(tasks, a, date), Done)
      && r.done <= r.total
  {
    TalliesCount(tasks, date, a);
    if a in Tallies(tasks, date) {
      TallyBalance(tasks, date, a);
    }
  }

  /**
   * The body of `addTasks` on the document's task list `doc` and the counter: for each title,
   * trim it, skip it if blank, else take the next id (`nextTaskId` increments the counter
   * and returns it) and append an open task.
   */
  method AddTasksNoDedupTo(doc: seq<Task>, counter: nat, creatorId: string, assigneeId: string, date: Date,
                    titles: seq<string>, now: Time)
    returns (doc': seq<Task>, counter': nat, created: seq<Task>)
    ensures created == NewTasks(TrimmedNonBlank(titles), creatorId, assigneeId, date, now, counter + 1)
    ensures doc' == doc + created && counter' == counter + |created|
  {
    doc', counter' := doc, counter;
    created := [];
    var i := 0;
    while i < |titles|
      invariant 0 <= i <= |titles|
      invariant created == NewTasks(TrimmedNonBlank(titles[..i]), creatorId, assigneeId, date, now, counter + 1)
      invariant doc' == doc + created && counter' == counter + |created|
    {
      assert titles[..i + 1][..i] == titles[..i];
      var title := Trim(titles[i]);
      if title != [] {
        NewTasksSnoc(TrimmedNonBlank(titles[..i]), title, creatorId, assigneeId, date, now, counter + 1);
        counter' := counter' + 1;
        var task := Task(counter', title, date, creatorId, assigneeId, Open, now, None);
        doc' := doc' + [task];
        created := created + [task];
      }
      i := i + 1;
    }
    assert titles[..i] == titles;
  }

  /** The store: the document fields and the process-wide `taskCounter`. */
  class Store {
    var users: seq<IntlUser>
    var tasks: seq<Task>
    var config: Config
    var taskCounter: nat

    /** Every task id was handed out by the counter, and ids and user ids are unique. */
    ghost predicate Valid()
      reads this
    {
      StoreInvariant(tasks, taskCounter + 1) && UniqueIntlUsers(users)
    }

    /** Load a document and repair it with `ensureArrays`. The source's ids put `Date.now()`
        before the counter, so ids made after a restart never meet older ones; here the
        counter starts at `start`, above every stored id, to the same effect. */
    constructor (raw: RawDoc, start: nat)
      requires StoreInvariant(raw.tasks.GetOr([]), start + 1) && UniqueIntlUsers(raw.users.GetOr([]))
      ensures Valid()
      ensures Doc(users, tasks, config) == EnsureArrays(raw) && taskCounter == start
    {
      var d := EnsureArrays(raw);
      users := d.users;
      tasks := d.tasks;
      config := d.config;
      taskCounter := start;
    }

    /** `nextTaskId`: the counter goes up by one on every call (the time prefix is left out). */
    method NextTaskId() returns (id: nat)
      modifies this
      ensures taskCounter == old(taskCounter) + 1 && id == taskCounter
      ensures users == old(users) && tasks == old(tasks) && config == old(config)
    {
      taskCounter := taskCounter + 1;
      id := taskCounter;
    }

    /** `ensureUser`. */
    method EnsureUser(id: string, username: Option<string>, fullName: Option<string>, now: Time) returns (u: IntlUser)
      requires Valid()
      modifies this
      ensures Valid()
      ensures users == UpsertIntl(old(users), id, username, fullName, now)
      ensures FindIntlUser(users, id).Some? && u == users[FindIntlUser(users, id).value]
      ensures tasks == old(tasks) && config == old(config) && taskCounter == old(taskCounter)
    {
      UpsertIntlFacts(users, id, username, fullName, now);
      var found := FindIntlUser(users, id);
      if found.None? {
        u := IntlUser(id, OrElse(username, None), OrElse(fullName, None), now, now);
        users := users + [u];
      } else {
        var i := found.value;
        u := users[i].(username := OrElse(username, OrElse(users[i].username, None)),
                       fullName := OrElse(fullName, OrElse(users[i].fullName, None)),
                       updatedAt := now);
        users := users[i := u];
      }
    }

    /** `addTasks`: one open task per non-blank trimmed title, no duplicate check, each with a
        fresh id from the counter. */
    method AddTasks(creatorId: string, assigneeId: string, date: Date, titles: seq<string>, now: Time)
      returns (created: seq<Task>)
      requires Valid()
      modifies this
      ensures Valid()
      ensures created == NewTasks(TrimmedNonBlank(titles), creatorId, assigneeId, date, now, old(taskCounter) + 1)
      ensures tasks == old(tasks) + created && taskCounter == old(taskCounter) + |created|
      ensures users == old(users) && config == old(config)
    {
      var doc, counter;
      doc, counter, created := AddTasksNoDedupTo(tasks, taskCounter, creatorId, assigneeId, date, titles, now);
      AppendFresh(tasks, taskCounter + 1, created);
      tasks, taskCounter := doc, counter;
    }

    /** `listTasksForAssignee`. */
    function ListTasksForAssignee(assigneeId: string, date: Date): (r: seq<Task>)
      reads this
      ensures SortedByCreated(r)
      ensures multiset(r) == multiset(BucketOf(tasks, assigneeId, date))
      ensures forall c :: CreatedAt(r, c) == CreatedAt(BucketOf(tasks, assigneeId, date), c)
    {
      ListBucket(tasks, assigneeId, date)
    }

    /** `toggleTask`: flip the first task with this id; nothing else changes. */
    method ToggleTask(taskId: nat, now: Time) returns (r: Option<Task>)
      requires Valid()
      modifies this
      ensures Valid()
      ensures users == old(users) && config == old(config) && taskCounter == old(taskCounter)
      ensures FindTask(old(tasks), taskId).None? ==> r.None? && tasks == old(tasks)
      ensures FindTask(old(tasks), taskId).Some? ==>
        var i := FindTask(old(tasks), taskId).value;
        r == Some(Flip(old(tasks)[i], now)) && tasks == old(tasks)[i := Flip(old(tasks)[i], now)]
    {
      var found := FindTask(tasks, taskId);
      if found.None? {
        return None;
      }
      var i := found.value;
      var t := tasks[i];
      if t.status == Done {
        t := t.(status := Open, doneAt := None);
      } else {
        t := t.(status := Done, doneAt := Some(now));
      }
      FlipKeepsInvariant(tasks, taskCounter + 1, i, now);
      tasks := tasks[i := t];
      r := Some(t);
    }

    /** `statsForDate`: `{total, done}` per assignee with tasks that day. */
    method StatsForDate(date: Date) returns (stats: map<string, TotalDone>)
      ensures stats == Totals(Tallies(tasks, date))
    {
      stats := map[];
      var i := 0;
      while i < |tasks|
        invariant 0 <= i <= |tasks|
        invariant stats == Totals(Tallies(tasks[..i], date))
      {
        var t := tasks[i];
        assert tasks[..i + 1][..i] == tasks[..i];
        if t.date == date {
          var uid := t.assigneeId;
          if uid !in stats {
            stats := stats[uid := TotalDone(0, 0)];
          }
          var c := stats[uid];
          stats := stats[uid := TotalDone(c.total + 1, if t.status == Done then c.done + 1 else c.done)];
        }
        i := i + 1;
      }
      assert tasks[..i] == tasks;
    }
  }
}
