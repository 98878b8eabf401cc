/**
 * The task ledger shared by the three task bots (DicMeneger, Suply and intl-dept-rolebot):
 * tasks, users, the (assignee, date) bucket, the title key, and the specification functions
 * that the ledgers' loops are proved against.
 *
 * Dates are the day numbers YYYYMMDD: the bots store "YYYY-MM-DD" strings and compare them
 * with `===` and `<=`, which for that fixed format order the same way as the numbers do.
 * Timestamps are integers standing for the ISO strings of `new Date().toISOString()`.
 */
module TaskCore {
  import opened Opt
  import opened Text

  type Date = int
  type Time = int

  /** A task's status; stored data may hold any other string, which neither "open" nor "done" matches. */
  datatype Status = Open | Done | Other(name: string)

  datatype Task = Task(
    id: nat,
    title: string,
    date: Date,
    creatorId: string,
    assigneeId: string,
    status: Status,
    createdAt: Time,
    doneAt: Option<Time>)

  /** `${assigneeId}::${norm(title)}`: the series a task belongs to. */
  datatype Key = Key(assignee: string, norm: string)

  function KeyOf(t: Task): Key {
    Key(t.assigneeId, Norm(t.title))
  }

  predicate InBucket(t: Task, assigneeId: string, date: Date) {
    t.assigneeId == assigneeId && t.date == date
  }

  /** The normalised titles already present in one (assignee, date) bucket. */
  function BucketNorms(tasks: seq<Task>, assigneeId: string, date: Date): set<string> {
    set t | t in tasks && InBucket(t, assigneeId, date) :: Norm(t.title)
  }

  /** The series present on one date. */
  function KeysOn(tasks: seq<Task>, date: Date): set<Key> {
    set t | t in tasks && t.date == date :: KeyOf(t)
  }

  /** The series that have a done task anywhere in the ledger. */
  function DoneKeys(tasks: seq<Task>): set<Key> {
    set t | t in tasks && t.status == Done :: KeyOf(t)
  }

  function KeysOf(s: seq<Task>): set<Key> {
    set t | t in s :: KeyOf(t)
  }

  lemma KeysOnBucket(tasks: seq<Task>, assigneeId: string, date: Date, n: string)
    ensures Key(assigneeId, n) in KeysOn(tasks, date) <==> n in BucketNorms(tasks, assigneeId, date)
  {
    if Key(assigneeId, n) in KeysOn(tasks, date) {
      var t :| t in tasks && t.date == date && KeyOf(t) == Key(assigneeId, n);
      assert InBucket(t, assigneeId, date);
    }
  }

  /** Within one (assignee, date) bucket no two tasks share a normalised title. */
  predicate BucketUnique(tasks: seq<Task>) {
    forall i, j :: 0 <= i < j < |tasks| && tasks[i].date == tasks[j].date ==> KeyOf(tasks[i]) != KeyOf(tasks[j])
  }

  /** What every ledger keeps: ids below the next fresh id and pairwise distinct, and a task
      carries a completion time exactly when it is done. */
  predicate StoreInvariant(tasks: seq<Task>, nextId: nat) {
    (forall i :: 0 <= i < |tasks| ==> tasks[i].id < nextId)
    && (forall i, j :: 0 <= i < j < |tasks| ==> tasks[i].id != tasks[j].id)
    && (forall i :: 0 <= i < |tasks| ==> (tasks[i].status == Done <==> tasks[i].doneAt.Some?))
  }

  /** The invariants hold of the tail, and the head's id and series differ from the tail's. */
  lemma InvariantsTail(tasks: seq<Task>, nextId: nat)
    requires tasks != []
    ensures StoreInvariant(tasks, nextId) ==>
      StoreInvariant(tasks[1..], nextId) && forall u :: u in tasks[1..] ==> u.id != tasks[0].id
    ensures BucketUnique(tasks) ==>
      BucketUnique(tasks[1..]) && forall u :: u in tasks[1..] && u.date == tasks[0].date ==> KeyOf(u) != KeyOf(tasks[0])
  {
    forall u | u in tasks[1..] ensures exists m :: 1 <= m < |tasks| && tasks[m] == u {
      var m :| 0 <= m < |tasks[1..]| && tasks[1..][m] == u;
      assert tasks[m + 1] == u;
    }
  }

  /** Putting a task in front of a ledger keeps the invariants when its id and series are new. */
  lemma InvariantsCons(t: Task, r: seq<Task>, nextId: nat)
    ensures (StoreInvariant(r, nextId) && t.id < nextId && (t.status == Done <==> t.doneAt.Some?)
             && (forall u :: u in r ==> u.id != t.id)) ==> StoreInvariant([t] + r, nextId)
    ensures (BucketUnique(r) && (forall u :: u in r && u.date == t.date ==> KeyOf(u) != KeyOf(t)))
             ==> BucketUnique([t] + r)
  {
    var s := [t] + r;
    assert forall l :: 0 < l < |s| ==> s[l] == r[l - 1] && s[l] in r;
  }

  /** Appending open tasks numbered from the next fresh id keeps the store invariant. */
  lemma AppendFresh(tasks: seq<Task>, nextId: nat, c: seq<Task>)
    requires StoreInvariant(tasks, nextId)
    requires forall k :: 0 <= k < |c| ==> c[k].id == nextId + k && c[k].status == Open && c[k].doneAt == None
    ensures StoreInvariant(tasks + c, nextId + |c|)
  {
    var s := tasks + c;
    forall i, j | 0 <= i < j < |s| ensures s[i].id != s[j].id {
      if j >= |tasks| && i < |tasks| {
        assert s[j] == c[j - |tasks|];
      }
    }
  }

  /** Appending tasks on one date whose series are new on that date and pairwise distinct
      keeps every bucket free of duplicates. */
  lemma AppendFreshKeys(tasks: seq<Task>, c: seq<Task>, date: Date)
    requires BucketUnique(tasks)
    requires forall k :: 0 <= k < |c| ==> c[k].date == date && KeyOf(c[k]) !in KeysOn(tasks, date)
    requires forall k, l :: 0 <= k < l < |c| ==> KeyOf(c[k]) != KeyOf(c[l])
    ensures BucketUnique(tasks + c)
  {
    var s := tasks + c;
    forall i, j | 0 <= i < j < |s| && s[i].date == s[j].date ensures KeyOf(s[i]) != KeyOf(s[j]) {
      if i < |tasks| && j >= |tasks| {
        assert s[i] in tasks;
        assert KeyOf(s[i]) in KeysOn(tasks, date);
        assert s[j] == c[j - |tasks|];
      } else if i >= |tasks| {
        assert s[i] == c[i - |tasks|] && s[j] == c[j - |tasks|];
      }
    }
  }

  // ───────────── addTasks with de-duplication (DicMeneger, Suply) ─────────────

  /**
   * The titles a de-duplicating addTasks stores, in input order: each raw title trimmed,
   * blanks skipped, and a title skipped when its normalised form is already in `seen`
   * (the bucket's titles, then the ones this call has stored).
   */
  function Admit(seen: set<string>, titles: seq<string>): seq<string>
    decreases |titles|
  {
    if titles == [] then []
    else
      var t := Trim(titles[0]);
      if t == [] || Norm(t) in seen then Admit(seen, titles[1..])
      else [t] + Admit(seen + {Norm(t)}, titles[1..])
  }

  function NormSet(r: seq<string>): set<string> {
    set x | x in r :: Norm(x)
  }

  /** Every stored title is trimmed, non-blank, and its key was not yet present. */
  lemma {:induction false} AdmitFresh(seen: set<string>, titles: seq<string>)
    ensures forall x :: x in Admit(seen, titles) ==> x != [] && Trimmed(x) && Norm(x) !in seen
    decreases |titles|
  {
    if titles != [] {
      var t := Trim(titles[0]);
      if t == [] || Norm(t) in seen {
        AdmitFresh(seen, titles[1..]);
      } else {
        AdmitFresh(seen + {Norm(t)}, titles[1..]);
        var _, _ := TrimSlice(titles[0]);
      }
    }
  }

  /** Every stored title is the trimmed form of an input title. */
  lemma {:induction false} AdmitFrom(seen: set<string>, titles: seq<string>)
    ensures forall x :: x in Admit(seen, titles) ==> exists j :: 0 <= j < |titles| && x == Trim(titles[j])
    decreases |titles|
  {
    if titles != [] {
      var t := Trim(titles[0]);
      var seen' := if t == [] || Norm(t) in seen then seen else seen + {Norm(t)};
      AdmitFrom(seen', titles[1..]);
      forall x | x in Admit(seen', titles[1..]) ensures exists j :: 0 <= j < |titles| && x == Trim(titles[j]) {
        var j :| 0 <= j < |titles[1..]| && x == Trim(titles[1..][j]);
        assert x == Trim(titles[j + 1]);
      }
    }
  }

  predicate NormsDistinct(r: seq<string>) {
    forall k, l :: 0 <= k < l < |r| ==> Norm(r[k]) != Norm(r[l])
  }

  lemma NormsDistinctCons(t: string, r: seq<string>)
    requires NormsDistinct(r)
    requires forall u :: u in r ==> Norm(u) != Norm(t)
    ensures NormsDistinct([t] + r)
  {
    var s := [t] + r;
    forall k, l | 0 <= k < l < |s| ensures Norm(s[k]) != Norm(s[l]) {
      assert s[l] == r[l - 1];
      if k > 0 { assert s[k] == r[k - 1]; }
    }
  }

  /** No two stored titles share a key. */
  lemma {:induction false} AdmitDistinct(seen: set<string>, titles: seq<string>)
    ensures NormsDistinct(Admit(seen, titles))
    decreases |titles|
  {
    if titles != [] {
      var t := Trim(titles[0]);
      if t == [] || Norm(t) in seen {
        AdmitDistinct(seen, titles[1..]);
      } else {
        AdmitDistinct(seen + {Norm(t)}, titles[1..]);
        AdmitFresh(seen + {Norm(t)}, titles[1..]);
        NormsDistinctCons(t, Admit(seen + {Norm(t)}, titles[1..]));
      }
    }
  }

  /** One step of Admit, at position `i` of the input. */
  lemma AdmitStep(seen: set<string>, titles: seq<string>, i: nat)
    requires i < |titles|
    ensures var t := Trim(titles[i]);
      Admit(seen, titles[i..]) ==
        if t == [] || Norm(t) in seen then Admit(seen, titles[i + 1..])
        else [t] + Admit(seen + {Norm(t)}, titles[i + 1..])
  {
    assert titles[i..][0] == titles[i] && titles[i..][1..] == titles[i + 1..];
  }

  /** Nothing is dropped but blanks and repeats: every non-blank input title's key ends up
      either among the keys already present or among the stored titles' keys. */
  lemma {:induction false} AdmitComplete(seen: set<string>, titles: seq<string>)
    ensures forall j :: 0 <= j < |titles| && Trim(titles[j]) != [] ==>
      Norm(titles[j]) in seen + NormSet(Admit(seen, titles))
    decreases |titles|
  {
    if titles != [] {
      var t := Trim(titles[0]);
      NormFacts(titles[0]);
      var r := Admit(seen, titles);
      var seen' := if t == [] || Norm(t) in seen then seen else seen + {Norm(t)};
      AdmitComplete(seen', titles[1..]);
      var r' := Admit(seen', titles[1..]);
      assert r == if t == [] || Norm(t) in seen then r' else [t] + r';
      assert NormSet(r') <= NormSet(r);
      assert seen' <= seen + NormSet(r) by {
        if !(t == [] || Norm(t) in seen) { assert t in r; }
      }
      forall j | 0 <= j < |titles| && Trim(titles[j]) != [] ensures Norm(titles[j]) in seen + NormSet(r) {
        if j > 0 { assert titles[j] == titles[1..][j - 1]; }
      }
    }
  }

  /** When every title is blank or already present, nothing is stored. */
  lemma {:induction false} AdmitNothingNew(seen: set<string>, titles: seq<string>)
    requires forall j :: 0 <= j < |titles| ==> Trim(titles[j]) == [] || Norm(titles[j]) in seen
    ensures Admit(seen, titles) == []
    decreases |titles|
  {
    if titles != [] {
      NormFacts(titles[0]);
      AdmitNothingNew(seen, titles[1..]);
    }
  }

  /** The open tasks an addTasks call creates for the admitted titles, numbered from `firstId`. */
  function NewTasks(titles: seq<string>, creatorId: string, assigneeId: string, date: Date, now: Time, firstId: nat): seq<Task> {
    seq(|titles|, k requires 0 <= k < |titles| => Task(firstId + k, titles[k], date, creatorId, assigneeId, Open, now, None))
  }

  lemma NewTasksSnoc(titles: seq<string>, title: string, creatorId: string, assigneeId: string, date: Date, now: Time, firstId: nat)
    ensures NewTasks(titles + [title], creatorId, assigneeId, date, now, firstId)
      == NewTasks(titles, creatorId, assigneeId, date, now, firstId) + [Task(firstId + |titles|, title, date, creatorId, assigneeId, Open, now, None)]
  {
  }

  /** The loop of addTasks, one title at a time: `admitted` are the titles stored so far and
      `seen` the keys of the bucket so far. */
  lemma AddStep(seen0: set<string>, titles: seq<string>, i: nat, seen: set<string>, admitted: seq<string>,
                creatorId: string, assigneeId: string, date: Date, now: Time, firstId: nat)
    requires i < |titles|
    requires Admit(seen0, titles) == admitted + Admit(seen, titles[i..])
    ensures var t := Trim(titles[i]);
      if t == [] || Norm(t) in seen then
        Admit(seen0, titles) == admitted + Admit(seen, titles[i + 1..])
      else
        Admit(seen0, titles) == (admitted + [t]) + Admit(seen + {Norm(t)}, titles[i + 1..])
        && NewTasks(admitted + [t], creatorId, assigneeId, date, now, firstId)
           == NewTasks(admitted, creatorId, assigneeId, date, now, firstId) + [Task(firstId + |admitted|, t, date, creatorId, assigneeId, Open, now, None)]
  {
    AdmitStep(seen, titles, i);
    var t := Trim(titles[i]);
    NewTasksSnoc(admitted, t, creatorId, assigneeId, date, now, firstId);
  }

  /**
   * The body of the de-duplicating `addTasks` on the ledger document `doc`: trim each title,
   * skip blanks and titles whose key is already in the (assignee, date) bucket, and append a
   * fresh open task for each other title, numbered from `next`.
   */
  method AddTasksTo(doc: seq<Task>, next: nat, creatorId: string, assigneeId: string, date: Date,
                    titles: seq<string>, now: Time)
    returns (doc': seq<Task>, next': nat, created: seq<Task>)
    ensures created == NewTasks(Admit(BucketNorms(doc, assigneeId, date), titles), creatorId, assigneeId, date, now, next)
    ensures doc' == doc + created && next' == next + |created|
  {
    doc', next' := doc, next;
    created := [];
    var existingSet := BucketNorms(doc, assigneeId, date);
    ghost var admitted: seq<string> := [];
    var i := 0;
    while i < |titles|
      invariant 0 <= i <= |titles|
      invariant Admit(BucketNorms(doc, assigneeId, date), titles) == admitted + Admit(existingSet, titles[i..])
      invariant created == NewTasks(admitted, creatorId, assigneeId, date, now, next)
      invariant doc' == doc + created && next' == next + |created|
    {
      AddStep(BucketNorms(doc, assigneeId, date), titles, i, existingSet, admitted, creatorId, assigneeId, date, now, next);
      var title := Trim(titles[i]);
      if title != [] {
        var key := Norm(title);
        if key !in existingSet {
          var task := Task(next', title, date, creatorId, assigneeId, Open, now, None);
          doc' := doc' + [task];
          created := created + [task];
          next' := next' + 1;
          existingSet := existingSet + {key};
          admitted := admitted + [title];
        }
      }
      i := i + 1;
    }
    assert titles[i..] == [];
  }

  /** A de-duplicating addTasks keeps every bucket free of duplicates and keeps the store invariant. */
  lemma AddKeepsInvariants(tasks: seq<Task>, nextId: nat, creatorId: string, assigneeId: string, date: Date,
                           titles: seq<string>, now: Time)
    requires StoreInvariant(tasks, nextId)
    ensures var c := NewTasks(Admit(BucketNorms(tasks, assigneeId, date), titles), creatorId, assigneeId, date, now, nextId);
      StoreInvariant(tasks + c, nextId + |c|) && (BucketUnique(tasks) ==> BucketUnique(tasks + c))
  {
    var seen := BucketNorms(tasks, assigneeId, date);
    var r := Admit(seen, titles);
    var c := NewTasks(r, creatorId, assigneeId, date, now, nextId);
    AppendFresh(tasks, nextId, c);
    if !BucketUnique(tasks) {
      return;
    }
    AdmitFresh(seen, titles);
    AdmitDistinct(seen, titles);
    forall k | 0 <= k < |c| ensures c[k].date == date && KeyOf(c[k]) !in KeysOn(tasks, date) {
      assert r[k] in r;
      KeysOnBucket(tasks, assigneeId, date, Norm(r[k]));
    }
    forall k, l | 0 <= k < l < |c| ensures KeyOf(c[k]) != KeyOf(c[l]) {
      assert c[k].title == r[k] && c[l].title == r[l];
    }
    AppendFreshKeys(tasks, c, date);
  }

  // ───────────── rollover selection (all three bots) ─────────────

  /**
   * The candidates a rollover carries, in order: a candidate is skipped when its series is
   * `blocked` or already `seen` on the target date, and each carried series becomes seen.
   */
  function Select(cands: seq<Task>, blocked: set<Key>, seen: set<Key>): seq<Task>
    decreases |cands|
  {
    if cands == [] then []
    else if KeyOf(cands[0]) in blocked || KeyOf(cands[0]) in seen then Select(cands[1..], blocked, seen)
    else [cands[0]] + Select(cands[1..], blocked, seen + {KeyOf(cands[0])})
  }

  /** Every carried task is a candidate of an unblocked series not yet on the target date. */
  lemma {:induction false} SelectFrom(cands: seq<Task>, blocked: set<Key>, seen: set<Key>)
    ensures forall t :: t in Select(cands, blocked, seen) ==> t in cands && KeyOf(t) !in blocked && KeyOf(t) !in seen
    decreases |cands|
  {
    if cands != [] {
      var t := cands[0];
      if KeyOf(t) in blocked || KeyOf(t) in seen {
        SelectFrom(cands[1..], blocked, seen);
      } else {
        SelectFrom(cands[1..], blocked, seen + {KeyOf(t)});
      }
    }
  }

  predicate KeysDistinct(s: seq<Task>) {
    forall k, l :: 0 <= k < l < |s| ==> KeyOf(s[k]) != KeyOf(s[l])
  }

  lemma KeysDistinctCons(t: Task, r: seq<Task>)
    requires KeysDistinct(r)
    requires forall u :: u in r ==> KeyOf(u) != KeyOf(t)
    ensures KeysDistinct([t] + r)
  {
    var s := [t] + r;
    forall k, l | 0 <= k < l < |s| ensures KeyOf(s[k]) != KeyOf(s[l]) {
      assert s[l] == r[l - 1];
      if k > 0 { assert s[k] == r[k - 1]; }
    }
  }

  /** No series is carried twice. */
  lemma {:induction false} SelectDistinct(cands: seq<Task>, blocked: set<Key>, seen: set<Key>)
    ensures KeysDistinct(Select(cands, blocked, seen))
    decreases |cands|
  {
    if cands != [] {
      var t := cands[0];
      if KeyOf(t) in blocked || KeyOf(t) in seen {
        SelectDistinct(cands[1..], blocked, seen);
      } else {
        SelectDistinct(cands[1..], blocked, seen + {KeyOf(t)});
        SelectFrom(cands[1..], blocked, seen + {KeyOf(t)});
        KeysDistinctCons(t, Select(cands[1..], blocked, seen + {KeyOf(t)}));
      }
    }
  }

  /** One step of Select, at position `i` of the candidates. */
  lemma SelectStep(cands: seq<Task>, blocked: set<Key>, seen: set<Key>, i: nat)
    requires i < |cands|
    ensures var k := KeyOf(cands[i]);
      Select(cands[i..], blocked, seen) ==
        if k in blocked || k in seen then Select(cands[i + 1..], blocked, seen)
        else [cands[i]] + Select(cands[i + 1..], blocked, seen + {k})
  {
    assert cands[i..][0] == cands[i] && cands[i..][1..] == cands[i + 1..];
  }

  /** Every candidate's series ends up blocked, already present, or carried. */
  lemma {:induction false} SelectComplete(cands: seq<Task>, blocked: set<Key>, seen: set<Key>)
    ensures forall t :: t in cands ==> KeyOf(t) in blocked + seen + KeysOf(Select(cands, blocked, seen))
    decreases |cands|
  {
    if cands != [] {
      var t := cands[0];
      var r := Select(cands, blocked, seen);
      var seen' := if KeyOf(t) in blocked || KeyOf(t) in seen then seen else seen + {KeyOf(t)};
      SelectComplete(cands[1..], blocked, seen');
      var r' := Select(cands[1..], blocked, seen');
      assert r == if KeyOf(t) in blocked || KeyOf(t) in seen then r' else [t] + r';
      assert KeysOf(r') <= KeysOf(r);
      assert seen' <= seen + KeysOf(r) by {
        if !(KeyOf(t) in blocked || KeyOf(t) in seen) { assert t in r; }
      }
      forall u | u in cands ensures KeyOf(u) in blocked + seen + KeysOf(r) {
        if u != t { assert u in cands[1..]; }
      }
    }
  }

  /** When every candidate's series is blocked or present, nothing is carried. */
  lemma {:induction false} SelectNothingNew(cands: seq<Task>, blocked: set<Key>, seen: set<Key>)
    requires forall t :: t in cands ==> KeyOf(t) in blocked + seen
    ensures Select(cands, blocked, seen) == []
    decreases |cands|
  {
    if cands != [] {
      assert forall t :: t in cands[1..] ==> t in cands;
      SelectNothingNew(cands[1..], blocked, seen);
    }
  }

  // ───────────── statsForDate ─────────────

  datatype Tally = Tally(total: nat, done: nat, open: nat)

  /** `statsForDate` as a fold over the ledger in order. */
  function Tallies(tasks: seq<Task>, date: Date): map<string, Tally>
    decreases |tasks|
  {
    if tasks == [] then map[]
    else
      var m := Tallies(tasks[..|tasks| - 1], date);
      var t := tasks[|tasks| - 1];
      if t.date != date then m
      else
        var c := if t.assigneeId in m then m[t.assigneeId] else Tally(0, 0, 0);
        m[t.assigneeId := Tally(c.total + 1,
                                c.done + (if t.status == Done then 1 else 0),
                                c.open + (if t.status == Open then 1 else 0))]
  }

  /** One (assignee, date) bucket, in ledger order. */
  function BucketOf(tasks: seq<Task>, assigneeId: string, date: Date): (r: seq<Task>)
    ensures forall t :: t in r <==> t in tasks && InBucket(t, assigneeId, date)
    decreases |tasks|
  {
    if tasks == [] then []
    else
      var b := BucketOf(tasks[..|tasks| - 1], assigneeId, date);
      var t := tasks[|tasks| - 1];
      assert tasks == tasks[..|tasks| - 1] + [t];
      if InBucket(t, assigneeId, date) then b + [t] else b
  }

  function CountStatus(s: seq<Task>, st: Status): nat
    decreases |s|
  {
    if s == [] then 0 else CountStatus(s[..|s| - 1], st) + (if s[|s| - 1].status == st then 1 else 0)
  }

  /** An assignee appears in the day's summary exactly when they have a task that day, and then
      its numbers count that bucket's tasks, its done tasks and its open tasks. */
  lemma {:induction false} TalliesCount(tasks: seq<Task>, date: Date, a: string)
    ensures a in Tallies(tasks, date) <==> |BucketOf(tasks, a, date)| > 0
    ensures a in Tallies(tasks, date) ==>
      var b := BucketOf(tasks, a, date);
      Tallies(tasks, date)[a] == Tally(|b|, CountStatus(b, Done), CountStatus(b, Open))
    decreases |tasks|
  {
    if tasks != [] {
      var s := tasks[..|tasks| - 1];
      var t := tasks[|tasks| - 1];
      TalliesCount(s, date, a);
      var m := Tallies(s, date);
      var b := BucketOf(s, a, date);
      if InBucket(t, a, date) {
        var c := if a in m then m[a] else Tally(0, 0, 0);
        assert Tallies(tasks, date)[a] == Tally(c.total + 1,
                                                c.done + (if t.status == Done then 1 else 0),
                                                c.open + (if t.status == Open then 1 else 0));
        assert BucketOf(tasks, a, date) == b + [t];
        assert (b + [t])[..|b|] == b;
        assert a !in m ==> |b| == 0;
      } else {
        assert BucketOf(tasks, a, date) == b;
        assert a in Tallies(tasks, date) <==> a in m;
        assert a in m ==> Tallies(tasks, date)[a] == m[a];
      }
    }
  }

  lemma {:induction false} CountStatusBound(s: seq<Task>)
    ensures CountStatus(s, Done) + CountStatus(s, Open) <= |s|
    ensures (forall i :: 0 <= i < |s| ==> s[i].status == Done || s[i].status == Open) ==>
      CountStatus(s, Done) + CountStatus(s, Open) == |s|
    decreases |s|
  {
    if s != [] {
      CountStatusBound(s[..|s| - 1]);
    }
  }

  /** done + open never exceeds total, and equals it when every task is open or done. */
  lemma TallyBalance(tasks: seq<Task>, date: Date, a: string)
    requires a in Tallies(tasks, date)
    ensures Tallies(tasks, date)[a].done + Tallies(tasks, date)[a].open <= Tallies(tasks, date)[a].total
    ensures (forall t :: t in tasks ==> t.status == Done || t.status == Open) ==>
      Tallies(tasks, date)[a].done + Tallies(tasks, date)[a].open == Tallies(tasks, date)[a].total
  {
    TalliesCount(tasks, date, a);
    var b := BucketOf(tasks, a, date);
    CountStatusBound(b);
    if forall t :: t in tasks ==> t.status == Done || t.status == Open {
      assert forall i :: 0 <= i < |b| ==> b[i] in b;
    }
  }

  /** The loop of `statsForDate` (the same code in DicMeneger and Suply). */
  method StatsForDate(tasks: seq<Task>, date: Date) returns (res: map<string, Tally>)
    ensures res == Tallies(tasks, date)
  {
    res := map[];
    var i := 0;
    while i < |tasks|
      invariant 0 <= i <= |tasks|
      invariant res == Tallies(tasks[..i], date)
    {
      var t := tasks[i];
      assert tasks[..i + 1][..i] == tasks[..i];
      if t.date == date {
        var id := t.assigneeId;
        if id !in res {
          res := res[id := Tally(0, 0, 0)];
        }
        var c := res[id];
        var done := if t.status == Done then c.done + 1 else c.done;
        var open := if t.status != Done && t.status == Open then c.open + 1 else c.open;
        res := res[id := Tally(c.total + 1, done, open)];
      }
      i := i + 1;
    }
    assert tasks[..i] == tasks;
  }

  // ───────────── listTasksForAssignee ─────────────

  predicate SortedByCreated(s: seq<Task>) {
    forall i :: 0 <= i < |s| - 1 ==> s[i].createdAt <= s[i + 1].createdAt
  }

  /** The tasks of `s` created at time `c`, in their order in `s`: a stable sort keeps each of
      these runs as it was. */
  function CreatedAt(s: seq<Task>, c: Time): (r: seq<Task>)
    ensures |r| <= |s|
    decreases |s|
  {
    if s == [] then []
    else if s[0].createdAt == c then [s[0]] + CreatedAt(s[1..], c)
    else CreatedAt(s[1..], c)
  }

  /** Unfolds CreatedAt one step at the front. */
  lemma CreatedAtCons(x: Task, s: seq<Task>, c: Time)
    ensures CreatedAt([x] + s, c) == (if x.createdAt == c then [x] else []) + CreatedAt(s, c)
  {
    var xs := [x] + s;
    assert xs != [] && xs[0] == x && xs[1..] == s;
  }

  /** A task is in the run for `c` exactly when it is in `s` and was created at `c`. */
  lemma {:induction false} CreatedAtMembers(s: seq<Task>, c: Time, t: Task)
    ensures t in CreatedAt(s, c) <==> t in s && t.createdAt == c
    decreases |s|
  {
    if s != [] {
      assert s == [s[0]] + s[1..];
      CreatedAtCons(s[0], s[1..], c);
      CreatedAtMembers(s[1..], c, t);
    }
  }

  /** The runs of a concatenation are the runs of its parts, concatenated. */
  lemma {:induction false} CreatedAtAppend(a: seq<Task>, b: seq<Task>, c: Time)
    ensures CreatedAt(a + b, c) == CreatedAt(a, c) + CreatedAt(b, c)
    decreases |a|
  {
    if a == [] {
      assert a + b == b;
    } else {
      var h := if a[0].createdAt == c then [a[0]] else [];
      assert (a + b)[0] == a[0] && (a + b)[1..] == a[1..] + b;
      assert CreatedAt(a + b, c) == h + CreatedAt(a[1..] + b, c);
      CreatedAtAppend(a[1..], b, c);
      assert CreatedAt(a, c) == h + CreatedAt(a[1..], c);
    }
  }

  /** Insert after every task created at the same time or earlier (so the sort is stable). */
  function InsertByCreated(t: Task, s: seq<Task>): (r: seq<Task>)
    requires SortedByCreated(s)
    ensures SortedByCreated(r) && multiset(r) == multiset(s) + multiset{t}
    ensures |r| == |s| + 1 && (r[0] == t || (s != [] && r[0] == s[0]))
    decreases |s|
  {
    if s == [] then [t]
    else if t.createdAt < s[0].createdAt then [t] + s
    else
      assert s == [s[0]] + s[1..];
      [s[0]] + InsertByCreated(t, s[1..])
  }

  /** Every task of a sorted sequence is created no earlier than its first task. */
  lemma {:induction false} SortedFromHead(s: seq<Task>, t: Task)
    requires SortedByCreated(s) && s != [] && t in s
    ensures s[0].createdAt <= t.createdAt
    decreases |s|
  {
    if t != s[0] {
      assert t in s[1..];
      SortedFromHead(s[1..], t);
    }
  }

  /** A sorted sequence has no task created before its first one. */
  lemma NoneBeforeHead(s: seq<Task>, c: Time)
    requires SortedByCreated(s) && s != [] && c < s[0].createdAt
    ensures CreatedAt(s, c) == []
  {
    if CreatedAt(s, c) != [] {
      var u := CreatedAt(s, c)[0];
      CreatedAtMembers(s, c, u);
      SortedFromHead(s, u);
    }
  }

  /** The inserted task goes after every task created at the same time, so each time's run
      is the old run, with the new task at its end when it was created then. */
  lemma {:induction false} InsertByCreatedStable(t: Task, s: seq<Task>, c: Time)
    requires SortedByCreated(s)
    ensures CreatedAt(InsertByCreated(t, s), c) == CreatedAt(s, c) + (if t.createdAt == c then [t] else [])
    decreases |s|
  {
    var e := if t.createdAt == c then [t] else [];
    var r := InsertByCreated(t, s);
    if s == [] {
      assert r == [t] + [];
      CreatedAtCons(t, [], c);
      assert CreatedAt(r, c) == e;
    } else if t.createdAt < s[0].createdAt {
      assert r == [t] + s;
      CreatedAtCons(t, s, c);
      if t.createdAt == c {
        NoneBeforeHead(s, c);
        assert CreatedAt(r, c) == [t];
      } else {
        assert CreatedAt(r, c) == CreatedAt(s, c);
      }
    } else {
      InsertByCreatedStable(t, s[1..], c);
      InsertStep(t, s, c);
    }
  }

  /** The step of InsertByCreatedStable past a task created no later than the inserted one. */
  lemma InsertStep(t: Task, s: seq<Task>, c: Time)
    requires SortedByCreated(s) && s != [] && s[0].createdAt <= t.createdAt
    requires CreatedAt(InsertByCreated(t, s[1..]), c) == CreatedAt(s[1..], c) + (if t.createdAt == c then [t] else [])
    ensures CreatedAt(InsertByCreated(t, s), c) == CreatedAt(s, c) + (if t.createdAt == c then [t] else [])
  {
    var s0, s1 := s[0], s[1..];
    var r1 := InsertByCreated(t, s1);
    assert s == [s0] + s1;
    assert InsertByCreated(t, s) == [s0] + r1;
    CreatedAtCons(s0, s1, c);
    CreatedAtCons(s0, r1, c);
    if s0.createdAt == c {
      ConcatAssoc([s0], CreatedAt(s1, c), if t.createdAt == c then [t] else []);
    }
  }

  /** Concatenation is associative; stated once so that callers can name the step. */
  lemma ConcatAssoc<T>(a: seq<T>, b: seq<T>, c: seq<T>)
    ensures a + (b + c) == (a + b) + c
  {
  }

  /** `sort((a, b) => a.createdAt.localeCompare(b.createdAt))`: JavaScript's sort is stable, so
      tasks created at the same time keep their stored order. */
  function SortByCreated(s: seq<Task>): (r: seq<Task>)
    ensures SortedByCreated(r) && multiset(r) == multiset(s)
    ensures forall c :: CreatedAt(r, c) == CreatedAt(s, c)
    decreases |s|
  {
    if s == [] then []
    else
      var p, x := s[..|s| - 1], s[|s| - 1];
      assert s == p + [x];
      var r := InsertByCreated(x, SortByCreated(p));
      assert forall c :: CreatedAt(r, c) == CreatedAt(s, c) by {
        forall c ensures CreatedAt(r, c) == CreatedAt(s, c) {
          InsertByCreatedStable(x, SortByCreated(p), c);
          CreatedAtAppend(p, [x], c);
          CreatedAtCons(x, [], c);
          assert [x] + [] == [x];
        }
      }
      r
  }

  /** Two sorted sequences with the same runs per time start with the same task. */
  lemma SameHead(r1: seq<Task>, r2: seq<Task>)
    requires SortedByCreated(r1) && SortedByCreated(r2) && r1 != [] && r2 != []
    requires forall c :: CreatedAt(r1, c) == CreatedAt(r2, c)
    ensures r1[0] == r2[0]
  {
    var x1, x2 := r1[0], r2[0];
    CreatedAtMembers(r1, x1.createdAt, x1);
    CreatedAtMembers(r2, x1.createdAt, x1);
    SortedFromHead(r2, x1);
    CreatedAtMembers(r2, x2.createdAt, x2);
    CreatedAtMembers(r1, x2.createdAt, x2);
    SortedFromHead(r1, x2);
    var c := x1.createdAt;
    assert x2.createdAt == c;
    assert r1 == [x1] + r1[1..] && r2 == [x2] + r2[1..];
    CreatedAtCons(x1, r1[1..], c);
    CreatedAtCons(x2, r2[1..], c);
    assert CreatedAt(r1, c)[0] == x1 && CreatedAt(r2, c)[0] == x2;
  }

  /** Ordered by creation time with each time's tasks in a fixed order: there is only one such
      arrangement. */
  lemma {:induction false} StableSortUnique(r1: seq<Task>, r2: seq<Task>)
    requires SortedByCreated(r1) && SortedByCreated(r2)
    requires forall c :: CreatedAt(r1, c) == CreatedAt(r2, c)
    ensures r1 == r2
    decreases |r1| + |r2|
  {
    if r1 == [] && r2 != [] {
      CreatedAtMembers(r2, r2[0].createdAt, r2[0]);
      CreatedAtMembers(r1, r2[0].createdAt, r2[0]);
    } else if r1 != [] && r2 == [] {
      CreatedAtMembers(r1, r1[0].createdAt, r1[0]);
      CreatedAtMembers(r2, r1[0].createdAt, r1[0]);
    } else if r1 != [] {
      SameHead(r1, r2);
      var x := r1[0];
      assert r1 == [x] + r1[1..] && r2 == [x] + r2[1..];
      forall c ensures CreatedAt(r1[1..], c) == CreatedAt(r2[1..], c) {
        var h := if x.createdAt == c then [x] else [];
        CreatedAtCons(x, r1[1..], c);
        CreatedAtCons(x, r2[1..], c);
        assert CreatedAt(r1[1..], c) == CreatedAt(r1, c)[|h|..];
        assert CreatedAt(r2[1..], c) == CreatedAt(r2, c)[|h|..];
      }
      StableSortUnique(r1[1..], r2[1..]);
    }
  }

  /** One bucket ordered by creation time: exactly the bucket's tasks, each as often as stored,
      with tasks created at the same time in their stored order. */
  function ListBucket(tasks: seq<Task>, assigneeId: string, date: Date): (r: seq<Task>)
    ensures SortedByCreated(r)
    ensures multiset(r) == multiset(BucketOf(tasks, assigneeId, date))
    ensures forall c :: CreatedAt(r, c) == CreatedAt(BucketOf(tasks, assigneeId, date), c)
    ensures forall t :: t in r <==> t in tasks && InBucket(t, assigneeId, date)
  {
    var r := SortByCreated(BucketOf(tasks, assigneeId, date));
    assert forall t :: t in r <==> t in multiset(r);
    r
  }

  /** Any listing that is ordered by creation time and keeps each time's tasks in stored order
      is the one ListBucket gives. */
  lemma ListBucketUnique(tasks: seq<Task>, assigneeId: string, date: Date, r: seq<Task>)
    requires SortedByCreated(r)
    requires forall c :: CreatedAt(r, c) == CreatedAt(BucketOf(tasks, assigneeId, date), c)
    ensures r == ListBucket(tasks, assigneeId, date)
  {
    StableSortUnique(r, ListBucket(tasks, assigneeId, date));
  }

  // ───────────── toggleTask ─────────────

  /** The first task with this id. */
  function FindTask(tasks: seq<Task>, id: nat): (r: Option<nat>)
    ensures r.None? ==> forall i :: 0 <= i < |tasks| ==> tasks[i].id != id
    ensures r.Some? ==> (r.value < |tasks| && tasks[r.value].id == id
                         && forall i :: 0 <= i < r.value ==> tasks[i].id != id)
    decreases |tasks|
  {
    if tasks == [] then None
    else if tasks[0].id == id then Some(0)
    else
      match FindTask(tasks[1..], id)
      case None => None
      case Some(i) => Some(i + 1)
  }

  /** Done becomes open with no completion time; anything else becomes done at `now`. */
  function Flip(t: Task, now: Time): (r: Task)
    ensures r.id == t.id && r.title == t.title && r.date == t.date && r.assigneeId == t.assigneeId
      && r.creatorId == t.creatorId && r.createdAt == t.createdAt
    ensures (r.status == Done) == (t.status != Done)
    ensures r.status == Done <==> r.doneAt.Some?
  {
    if t.status == Done then t.(status := Open, doneAt := None)
    else t.(status := Done, doneAt := Some(now))
  }

  /** Toggling twice gives the open task back unchanged, and a done task back done,
      stamped with the second time. */
  lemma FlipTwice(t: Task, now1: Time, now2: Time)
    ensures t.status == Open && t.doneAt == None ==> Flip(Flip(t, now1), now2) == t
    ensures t.status == Done ==> Flip(Flip(t, now1), now2) == t.(doneAt := Some(now2))
  {
  }

  /** Toggling keeps the store invariant. */
  lemma FlipKeepsInvariant(tasks: seq<Task>, nextId: nat, i: nat, now: Time)
    requires StoreInvariant(tasks, nextId) && i < |tasks|
    ensures StoreInvariant(tasks[i := Flip(tasks[i], now)], nextId)
  {
  }

  // ───────────── users ─────────────

  datatype User = User(tgId: string, username: Option<string>, fullName: Option<string>, createdAt: Time)

  /** JavaScript truthiness of an optional string: present and not empty. */
  predicate Truthy(o: Option<string>) {
    o.Some? && o.value != ""
  }

  /** `x || y`. */
  function OrElse(x: Option<string>, y: Option<string>): Option<string> {
    if Truthy(x) then x else y
  }

  /** The first user with this Telegram id. */
  function FindUser(users: seq<User>, tgId: string): (r: Option<nat>)
    ensures r.None? ==> forall i :: 0 <= i < |users| ==> users[i].tgId != tgId
    ensures r.Some? ==> (r.value < |users| && users[r.value].tgId == tgId
                         && forall i :: 0 <= i < r.value ==> users[i].tgId != tgId)
    decreases |users|
  {
    if users == [] then None
    else if users[0].tgId == tgId then Some(0)
    else
      match FindUser(users[1..], tgId)
      case None => None
      case Some(i) => Some(i + 1)
  }

  predicate UniqueUsers(users: seq<User>) {
    forall i, j :: 0 <= i < j < |users| ==> users[i].tgId != users[j].tgId
  }

  /** `ensureUser`: a new user is appended with falsy names stored as null; a known user takes
      the new names where they are truthy and keeps the old ones otherwise. */
  function Upsert(users: seq<User>, tgId: string, username: Option<string>, fullName: Option<string>, now: Time): seq<User> {
    match FindUser(users, tgId)
    case None => users + [User(tgId, OrElse(username, None), OrElse(fullName, None), now)]
    case Some(i) => users[i := users[i].(username := OrElse(username, users[i].username),
                                          fullName := OrElse(fullName, users[i].fullName))]
  }

  /** After ensureUser there is exactly one record for the id, the ids stay unique, the record
      keeps its creation time, a falsy username or full name never overwrites a stored one,
      and every other user's record is left as it was. */
  lemma UpsertFacts(users: seq<User>, tgId: string, username: Option<string>, fullName: Option<string>, now: Time)
    requires UniqueUsers(users)
    ensures var r := Upsert(users, tgId, username, fullName, now);
      UniqueUsers(r)
      && FindUser(r, tgId).Some?
      && var u := r[FindUser(r, tgId).value];
      (Truthy(username) ==> u.username == username)
      && (Truthy(fullName) ==> u.fullName == fullName)
      && (!Truthy(username) && FindUser(users, tgId).Some? ==> u.username == users[FindUser(users, tgId).value].username)
      && (!Truthy(fullName) && FindUser(users, tgId).Some? ==> u.fullName == users[FindUser(users, tgId).value].fullName)
      && (!Truthy(username) && FindUser(users, tgId).None? ==> u.username == None)
      && (!Truthy(fullName) && FindUser(users, tgId).None? ==> u.fullName == None)
      && (FindUser(users, tgId).Some? ==> u.createdAt == users[FindUser(users, tgId).value].createdAt)
      && (FindUser(users, tgId).None? ==> u.createdAt == now && |r| == |users| + 1)
      && (FindUser(users, tgId).Some? ==> |r| == |users|)
    ensures var r := Upsert(users, tgId, username, fullName, now);
      forall j :: 0 <= j < |users| && users[j].tgId != tgId ==> r[j] == users[j]
  {
    var r := Upsert(users, tgId, username, fullName, now);
    match FindUser(users, tgId)
    case None =>
      assert r[|users|].tgId == tgId;
      assert forall j :: 0 <= j < |users| ==> r[j] == users[j];
      assert FindUser(r, tgId) == Some(|users|);
    case Some(i) =>
      assert r[i].tgId == tgId;
      assert forall j :: 0 <= j < |users| && j != i ==> r[j] == users[j];
      assert FindUser(r, tgId) == Some(i);
  }
}
