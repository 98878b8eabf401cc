/**
 * The scheduling side of the international department bot (intl-dept-rolebot/src/index.js):
 * the daily templates, whose weekday list overrides the "*" list, and the evening rollover,
 * which selects tasks itself and then calls the store's non-de-duplicating addTasks once per
 * assignee.
 */
module IntlBot {
  import opened Opt
  import opened Text
  import opened TaskCore
  import opened IntlLedger
  import opened BotCommon

  /** `creatorId` of the tasks the scheduler adds. */
  const SystemCreator := "system"

  // ───────────── rollOverOpenTasks ─────────────

  /** `open`: the tasks of one date whose status is exactly "open" and whose title is not blank. */
  function OpenNonBlankOn(tasks: seq<Task>, date: Date): seq<Task>
    decreases |tasks|
  {
    if tasks == [] then []
    else if tasks[0].date == date && tasks[0].status == Open && Trim(tasks[0].title) != [] then
      [tasks[0]] + OpenNonBlankOn(tasks[1..], date)
    else OpenNonBlankOn(tasks[1..], date)
  }

  lemma {:induction false} OpenNonBlankOnMembers(tasks: seq<Task>, date: Date)
    ensures forall t :: t in OpenNonBlankOn(tasks, date) <==>
      t in tasks && t.date == date && t.status == Open && Trim(t.title) != []
    decreases |tasks|
  {
    if tasks != [] {
      OpenNonBlankOnMembers(tasks[1..], date);
      assert tasks == [tasks[0]] + tasks[1..];
    }
  }

  /** The tasks the rollover copies: candidates whose series is not yet on the target date,
      each series once. Nothing is blocked: a done copy elsewhere does not matter here. */
  function RolloverSelection(tasks: seq<Task>, fromY: Date, toY: Date): seq<Task> {
    Select(OpenNonBlankOn(tasks, fromY), {}, KeysOn(tasks, toY))
  }

  /** The keys of `toCreateByUid` in the order they were first set. */
  function Order(sel: seq<Task>): seq<string>
    decreases |sel|
  {
    if sel == [] then []
    else
      var o := Order(sel[..|sel| - 1]);
      if sel[|sel| - 1].assigneeId in o then o else o + [sel[|sel| - 1].assigneeId]
  }

  /** `toCreateByUid`: each assignee's selected titles, as stored (untrimmed), in order. */
  function TitleMap(sel: seq<Task>): map<string, seq<string>>
    decreases |sel|
  {
    if sel == [] then map[]
    else
      var m := TitleMap(sel[..|sel| - 1]);
      var t := sel[|sel| - 1];
      m[t.assigneeId := (if t.assigneeId in m then m[t.assigneeId] else []) + [t.title]]
  }

  predicate Distinct(us: seq<string>) {
    forall k, l :: 0 <= k < l < |us| ==> us[k] != us[l]
  }

  /** Each assignee is listed once, the listed assignees are exactly those with a selected
      task, and each of them has a non-empty title list. */
  lemma {:induction false} OrderFacts(sel: seq<Task>)
    ensures Distinct(Order(sel))
    ensures forall u :: u in Order(sel) <==> u in TitleMap(sel)
    ensures forall u :: u in TitleMap(sel) ==> TitleMap(sel)[u] != []
    ensures forall u :: u in TitleMap(sel) <==> exists t :: t in sel && t.assigneeId == u
    decreases |sel|
  {
    if sel != [] {
      var init := sel[..|sel| - 1];
      OrderFacts(init);
      assert sel == init + [sel[|sel| - 1]];
    }
  }

  /** The title lists hold exactly the selected tasks' titles, under their assignee. */
  lemma {:induction false} TitleMapMembers(sel: seq<Task>)
    ensures forall u, x :: u in TitleMap(sel) && x in TitleMap(sel)[u] ==>
      exists t :: t in sel && t.assigneeId == u && t.title == x
    ensures forall t :: t in sel ==> t.assigneeId in TitleMap(sel) && t.title in TitleMap(sel)[t.assigneeId]
    decreases |sel|
  {
    if sel != [] {
      var init := sel[..|sel| - 1];
      var t := sel[|sel| - 1];
      TitleMapMembers(init);
      assert sel == init + [t];
      forall u, x | u in TitleMap(sel) && x in TitleMap(sel)[u]
        ensures exists s :: s in sel && s.assigneeId == u && s.title == x
      {
        if u == t.assigneeId && x == t.title {
          assert t in sel;
        } else {
          var s :| s in init && s.assigneeId == u && s.title == x;
          assert s in sel;
        }
      }
    }
  }

  lemma KeysDistinctSnoc(s: seq<Task>, t: Task)
    requires KeysDistinct(s + [t])
    ensures KeysDistinct(s)
    ensures forall u :: u in s ==> KeyOf(u) != KeyOf(t)
  {
    var r := s + [t];
    assert forall k :: 0 <= k < |s| ==> r[k] == s[k];
    assert r[|s|] == t;
  }

  lemma NormsDistinctSnoc(r: seq<string>, x: string)
    requires NormsDistinct(r)
    requires forall y :: y in r ==> Norm(y) != Norm(x)
    ensures NormsDistinct(r + [x])
  {
    var s := r + [x];
    forall k, l | 0 <= k < l < |s| ensures Norm(s[k]) != Norm(s[l]) {
      assert s[k] == r[k];
      if l < |r| { assert s[l] == r[l]; }
    }
  }

  /** When the selection has no repeated series, no assignee's list repeats a title key. */
  lemma {:induction false} TitleMapDistinct(sel: seq<Task>)
    requires KeysDistinct(sel)
    ensures forall u :: u in TitleMap(sel) ==> NormsDistinct(TitleMap(sel)[u])
    decreases |sel|
  {
    if sel != [] {
      var init := sel[..|sel| - 1];
      var t := sel[|sel| - 1];
      assert sel == init + [t];
      KeysDistinctSnoc(init, t);
      TitleMapDistinct(init);
      TitleMapMembers(init);
      var m := TitleMap(init);
      var old_ := if t.assigneeId in m then m[t.assigneeId] else [];
      forall y | y in old_ ensures Norm(y) != Norm(t.title) {
        var s :| s in init && s.assigneeId == t.assigneeId && s.title == y;
        assert KeyOf(s) != KeyOf(t);
      }
      NormsDistinctSnoc(old_, t.title);
    }
  }

  /** One candidate of the selection loop: a series already present is skipped, any other is
      taken and its title appended to its assignee's list. */
  lemma PlanStep(cands: seq<Task>, seen0: set<Key>, i: nat, seen: set<Key>, sel: seq<Task>)
    requires i < |cands|
    requires Select(cands, {}, seen0) == sel + Select(cands[i..], {}, seen)
    ensures var t := cands[i];
      if KeyOf(t) in seen then
        Select(cands, {}, seen0) == sel + Select(cands[i + 1..], {}, seen)
      else
        Select(cands, {}, seen0) == (sel + [t]) + Select(cands[i + 1..], {}, seen + {KeyOf(t)})
        && Order(sel + [t]) == (if t.assigneeId in Order(sel) then Order(sel) else Order(sel) + [t.assigneeId])
        && TitleMap(sel + [t]) == TitleMap(sel)[t.assigneeId :=
             (if t.assigneeId in TitleMap(sel) then TitleMap(sel)[t.assigneeId] else []) + [t.title]]
  {
    SelectStep(cands, {}, seen, i);
    assert (sel + [cands[i]])[..|sel|] == sel;
  }

  /**
   * The selection loop of rollOverOpenTasks: walk the candidates, skip a series already on
   * the target date or already taken, and append the title to its assignee's list. `have`
   * is the union of `haveByUid`'s sets, keyed by (assignee, key).
   */
  method PlanRollover(tasks: seq<Task>, fromY: Date, toY: Date)
    returns (order: seq<string>, toCreate: map<string, seq<string>>)
    ensures order == Order(RolloverSelection(tasks, fromY, toY))
    ensures toCreate == TitleMap(RolloverSelection(tasks, fromY, toY))
  {
    var open := OpenNonBlankOn(tasks, fromY);
    var have := KeysOn(tasks, toY);
    ghost var seen0 := have;
    ghost var sel: seq<Task> := [];
    order, toCreate := [], map[];
    var i := 0;
    while i < |open|
      invariant 0 <= i <= |open|
      invariant Select(open, {}, seen0) == sel + Select(open[i..], {}, have)
      invariant order == Order(sel) && toCreate == TitleMap(sel)
    {
      PlanStep(open, seen0, i, have, sel);
      var t := open[i];
      var key := KeyOf(t);
      if key !in have {
        var uid := t.assigneeId;
        if uid !in order {
          order := order + [uid];
        }
        toCreate := toCreate[uid := (if uid in toCreate then toCreate[uid] else []) + [t.title]];
        have := have + {key};
        sel := sel + [t];
      }
      i := i + 1;
    }
    assert open[i..] == [];
    assert Select(open[i..], {}, have) == [];
    assert RolloverSelection(tasks, fromY, toY) == sel;
  }

  /** The title lists as addTasks keeps them: trimmed, blanks dropped. */
  function Stored(m: map<string, seq<string>>): (r: map<string, seq<string>>)
    ensures r.Keys == m.Keys
  {
    map u | u in m :: TrimmedNonBlank(m[u])
  }

  /** What addTasks stores for one assignee, from their stored titles, numbered from `first`. */
  function GroupOf(m: map<string, seq<string>>, u: string, toY: Date, now: Time, first: nat): seq<Task> {
    NewTasks(if u in m then m[u] else [], SystemCreator, u, toY, now, first)
  }
  /** The tasks the rollover appends: each assignee's group in the order of `us`, numbered on
      from `first`. */
  function CarryTasks(m: map<string, seq<string>>, us: seq<string>, toY: Date, now: Time, first: nat): seq<Task>
    decreases |us|
  {
    if us == [] then []
    else
      var p := CarryTasks(m, us[..|us| - 1], toY, now, first);
      p + GroupOf(m, us[|us| - 1], toY, now, first + |p|)
  }

  /** `createdByUid`: each assignee with a non-empty group, mapped to it. */
  function CarryMap(m: map<string, seq<string>>, us: seq<string>, toY: Date, now: Time, first: nat): map<string, seq<Task>>
    decreases |us|
  {
    if us == [] then map[]
    else
      var p := CarryMap(m, us[..|us| - 1], toY, now, first);
      var g := GroupOf(m, us[|us| - 1], toY, now, first + |CarryTasks(m, us[..|us| - 1], toY, now, first)|);
      if |g| > 0 then p[us[|us| - 1] := g] else p
  }

  /** One assignee of the creation loop: their group, numbered from `c`, follows what is
      written so far. */
  lemma CarryStep(m: map<string, seq<string>>, us: seq<string>, i: nat, toY: Date, now: Time, first: nat, c: nat)
    requires i < |us|
    requires c == first + |CarryTasks(m, us[..i], toY, now, first)|
    ensures CarryTasks(m, us[..i + 1], toY, now, first)
      == CarryTasks(m, us[..i], toY, now, first) + GroupOf(m, us[i], toY, now, c)
    ensures var g := GroupOf(m, us[i], toY, now, c);
      CarryMap(m, us[..i + 1], toY, now, first)
      == (if |g| > 0 then CarryMap(m, us[..i], toY, now, first)[us[i] := g] else CarryMap(m, us[..i], toY, now, first))
  {
    assert us[..i + 1][..i] == us[..i];
  }

  /** One turn of the creation loop keeps the document, the counter and `createdByUid` in
      step with the planned copies. */
  lemma CreateStep(m: map<string, seq<string>>, order: seq<string>, i: nat, toY: Date, now: Time, counter: nat,
                   doc: seq<Task>, docI: seq<Task>, counterI: nat, cbu: map<string, seq<Task>>, created: seq<Task>)
    requires i < |order|
    requires docI == doc + CarryTasks(m, order[..i], toY, now, counter + 1)
    requires counterI == counter + |CarryTasks(m, order[..i], toY, now, counter + 1)|
    requires cbu == CarryMap(m, order[..i], toY, now, counter + 1)
    requires created == GroupOf(m, order[i], toY, now, counterI + 1)
    ensures docI + created == doc + CarryTasks(m, order[..i + 1], toY, now, counter + 1)
    ensures counterI + |created| == counter + |CarryTasks(m, order[..i + 1], toY, now, counter + 1)|
    ensures (if |created| > 0 then cbu[order[i] := created] else cbu) == CarryMap(m, order[..i + 1], toY, now, counter + 1)
  {
    CarryStep(m, order, i, toY, now, counter + 1, counterI + 1);
    ConcatAssoc(doc, CarryTasks(m, order[..i], toY, now, counter + 1), created);
  }

  /**
   * The creation loop of `rollOverOpenTasks`: for each assignee of `order` in turn, run
   * addTasks with creator "system" on their titles, and record the created tasks under the
   * assignee when there are any.
   */
  method CreateGroups(doc: seq<Task>, counter: nat, order: seq<string>, toCreate: map<string, seq<string>>,
                      toY: Date, now: Time)
    returns (doc': seq<Task>, counter': nat, createdByUid: map<string, seq<Task>>)
    requires forall u :: u in order ==> u in toCreate
    ensures doc' == doc + CarryTasks(Stored(toCreate), order, toY, now, counter + 1)
    ensures counter' == counter + |CarryTasks(Stored(toCreate), order, toY, now, counter + 1)|
    ensures createdByUid == CarryMap(Stored(toCreate), order, toY, now, counter + 1)
  {
    ghost var stored := Stored(toCreate);
    doc', counter' := doc, counter;
    createdByUid := map[];
    var i := 0;
    while i < |order|
      invariant 0 <= i <= |order|
      invariant doc' == doc + CarryTasks(stored, order[..i], toY, now, counter + 1)
      invariant counter' == counter + |CarryTasks(stored, order[..i], toY, now, counter + 1)|
      invariant createdByUid == CarryMap(stored, order[..i], toY, now, counter + 1)
    {
      var uid := order[i];
      var titles := toCreate[uid];
      ghost var docI, counterI, cbu := doc', counter', createdByUid;
      var created;
      doc', counter', created := AddTasksNoDedupTo(doc', counter', SystemCreator, uid, toY, titles, now);
      assert created == GroupOf(stored, uid, toY, now, counterI + 1) by {
        assert stored[uid] == TrimmedNonBlank(titles);
      }
      CreateStep(stored, order, i, toY, now, counter, doc, docI, counterI, cbu, created);
      if |created| > 0 {
        createdByUid := createdByUid[uid := created];
      }
      i := i + 1;
    }
    assert order[..i] == order;
  }

  /**
   * The body of `rollOverOpenTasks(fromY, toY)` on the document's task list `doc` and the id
   * counter: plan the copies, then create them assignee by assignee.
   */
  method RollOverTo(doc: seq<Task>, counter: nat, fromY: Date, toY: Date, now: Time)
    returns (doc': seq<Task>, counter': nat, createdByUid: map<string, seq<Task>>)
    ensures doc' == doc + Carried(doc, fromY, toY, now, counter + 1)
    ensures counter' == counter + |Carried(doc, fromY, toY, now, counter + 1)|
    ensures createdByUid == CarriedByUid(doc, fromY, toY, now, counter + 1)
  {
    var order, toCreate := PlanRollover(doc, fromY, toY);
    OrderFacts(RolloverSelection(doc, fromY, toY));
    doc', counter', createdByUid := CreateGroups(doc, counter, order, toCreate, toY, now);
  }

  // ───────────── what the rollover creates ─────────────

  /** A task the creation loop writes: numbered `id`, open, on `toY`, by "system", for a listed
      assignee and one of their stored titles. */
  predicate CarriedTask(m: map<string, seq<string>>, us: seq<string>, toY: Date, now: Time, id: nat, t: Task) {
    t.id == id && t.status == Open && t.doneAt == None && t.date == toY && t.creatorId == SystemCreator
    && t.createdAt == now && t.assigneeId in us && t.assigneeId in m && t.title in m[t.assigneeId]
  }

  /** The created tasks are numbered on from `first` without gaps, and each one is a copy of a
      stored title under its own assignee. */
  lemma {:induction false} CarrySound(m: map<string, seq<string>>, us: seq<string>, toY: Date, now: Time, first: nat)
    ensures forall k :: 0 <= k < |CarryTasks(m, us, toY, now, first)| ==>
      CarriedTask(m, us, toY, now, first + k, CarryTasks(m, us, toY, now, first)[k])
    decreases |us|
  {
    if us != [] {
      var init := us[..|us| - 1];
      var u := us[|us| - 1];
      var p := CarryTasks(m, init, toY, now, first);
      var g := GroupOf(m, u, toY, now, first + |p|);
      var r := p + g;
      CarrySound(m, init, toY, now, first);
      assert us == init + [u];
      forall k | 0 <= k < |r| ensures CarriedTask(m, us, toY, now, first + k, r[k]) {
        if k < |p| {
          assert r[k] == p[k];
          assert CarriedTask(m, init, toY, now, first + k, p[k]);
        } else {
          assert r[k] == g[k - |p|];
        }
      }
    }
  }

  /** Every stored title of a listed assignee is created, under that assignee. */
  lemma {:induction false} CarryComplete(m: map<string, seq<string>>, us: seq<string>, toY: Date, now: Time, first: nat)
    ensures forall u, x :: u in us && u in m && x in m[u] ==>
      exists t :: t in CarryTasks(m, us, toY, now, first) && t.assigneeId == u && t.title == x
    decreases |us|
  {
    if us != [] {
      var init := us[..|us| - 1];
      var u := us[|us| - 1];
      var p := CarryTasks(m, init, toY, now, first);
      var g := GroupOf(m, u, toY, now, first + |p|);
      CarryComplete(m, init, toY, now, first);
      assert us == init + [u];
      forall v, x | v in us && v in m && x in m[v]
        ensures exists t: Task :: t in p + g && t.assigneeId == v && t.title == x
      {
        if v in init {
          var t :| t in p && t.assigneeId == v && t.title == x;
          assert t in p + g;
        } else {
          assert v == u;
          var titles := m[v];
          var j :| 0 <= j < |titles| && titles[j] == x;
          assert g[j] in p + g;
        }
      }
    }
  }

  /** `createdByUid` holds exactly the assignees whose stored list is not empty, each with as
      many created tasks as stored titles, all of them theirs and all among the created tasks. */
  lemma {:induction false} CarryMapFacts(m: map<string, seq<string>>, us: seq<string>, toY: Date, now: Time, first: nat)
    ensures var cm := CarryMap(m, us, toY, now, first);
      forall u :: u in cm <==> u in us && u in m && m[u] != []
    ensures var cm := CarryMap(m, us, toY, now, first);
      forall u :: u in cm ==>
        |cm[u]| == |m[u]| && (forall t :: t in cm[u] ==> t.assigneeId == u && t in CarryTasks(m, us, toY, now, first))
    decreases |us|
  {
    if us != [] {
      var init := us[..|us| - 1];
      CarryMapFacts(m, init, toY, now, first);
      assert us == init + [us[|us| - 1]];
    }
  }

  /** Different assignees, and no assignee with two titles of one key: no two created tasks
      share a key. */
  lemma {:induction false} CarryDistinct(m: map<string, seq<string>>, us: seq<string>, toY: Date, now: Time, first: nat)
    requires Distinct(us)
    requires forall u :: u in m ==> NormsDistinct(m[u])
    ensures KeysDistinct(CarryTasks(m, us, toY, now, first))
    decreases |us|
  {
    if us != [] {
      var init := us[..|us| - 1];
      var u := us[|us| - 1];
      var p := CarryTasks(m, init, toY, now, first);
      var g := GroupOf(m, u, toY, now, first + |p|);
      var r := p + g;
      CarryDistinct(m, init, toY, now, first);
      CarrySound(m, init, toY, now, first);
      forall k, l | 0 <= k < l < |r| ensures KeyOf(r[k]) != KeyOf(r[l]) {
        if l < |p| {
          assert r[k] == p[k] && r[l] == p[l];
        } else if k < |p| {
          assert r[k] == p[k];
          assert CarriedTask(m, init, toY, now, first + k, p[k]);
          assert r[l] == g[l - |p|];
        } else {
          assert r[k] == g[k - |p|] && r[l] == g[l - |p|];
        }
      }
    }
  }

  /** Trimming and dropping blanks keeps the keys of a list distinct. */
  lemma {:induction false} TrimmedNonBlankDistinct(titles: seq<string>)
    requires NormsDistinct(titles)
    ensures NormsDistinct(TrimmedNonBlank(titles))
    decreases |titles|
  {
    if titles != [] {
      var init := titles[..|titles| - 1];
      var x := titles[|titles| - 1];
      assert NormsDistinct(init) by {
        forall k, l | 0 <= k < l < |init| ensures Norm(init[k]) != Norm(init[l]) {
          assert init[k] == titles[k] && init[l] == titles[l];
        }
      }
      TrimmedNonBlankDistinct(init);
      TrimmedNonBlankFacts(init);
      NormFacts(x);
      if Trim(x) != [] {
        forall y | y in TrimmedNonBlank(init) ensures Norm(y) != Norm(Trim(x)) {
          var j :| 0 <= j < |init| && y == Trim(init[j]);
          NormFacts(init[j]);
          assert init[j] == titles[j];
        }
        NormsDistinctSnoc(TrimmedNonBlank(init), Trim(x));
      }
    }
  }

  // ───────────── the rollover as a whole ─────────────

  /** The tasks one rollover appends, numbered from `first`. */
  function Carried(doc: seq<Task>, fromY: Date, toY: Date, now: Time, first: nat): seq<Task> {
    var sel := RolloverSelection(doc, fromY, toY);
    CarryTasks(Stored(TitleMap(sel)), Order(sel), toY, now, first)
  }

  /** The map one rollover returns. */
  function CarriedByUid(doc: seq<Task>, fromY: Date, toY: Date, now: Time, first: nat): map<string, seq<Task>> {
    var sel := RolloverSelection(doc, fromY, toY);
    CarryMap(Stored(TitleMap(sel)), Order(sel), toY, now, first)
  }

  /** The selected tasks are open, non-blank tasks of `fromY` whose series is not on `toY`,
      each series once. */
  lemma SelectionFacts(doc: seq<Task>, fromY: Date, toY: Date)
    ensures forall s :: s in RolloverSelection(doc, fromY, toY) ==>
      s in doc && s.date == fromY && s.status == Open && Trim(s.title) != [] && KeyOf(s) !in KeysOn(doc, toY)
    ensures KeysDistinct(RolloverSelection(doc, fromY, toY))
  {
    SelectFrom(OpenNonBlankOn(doc, fromY), {}, KeysOn(doc, toY));
    SelectDistinct(OpenNonBlankOn(doc, fromY), {}, KeysOn(doc, toY));
    OpenNonBlankOnMembers(doc, fromY);
  }

  /** What the stored title lists hold when every selected title is non-blank: each stored
      title is the trimmed title of a selected task of that assignee, every selected task's
      trimmed title is stored, and no list is empty. */
  lemma StoredFacts(sel: seq<Task>)
    requires forall s :: s in sel ==> Trim(s.title) != []
    ensures forall u, x :: u in Stored(TitleMap(sel)) && x in Stored(TitleMap(sel))[u] ==>
      exists s :: s in sel && s.assigneeId == u && x == Trim(s.title)
    ensures forall s :: s in sel ==>
      s.assigneeId in Stored(TitleMap(sel)) && Trim(s.title) in Stored(TitleMap(sel))[s.assigneeId]
    ensures forall u :: u in Stored(TitleMap(sel)) ==> Stored(TitleMap(sel))[u] != []
  {
    var tm := TitleMap(sel);
    var st := Stored(tm);
    TitleMapMembers(sel);
    forall u, x | u in st && x in st[u] ensures exists s :: s in sel && s.assigneeId == u && x == Trim(s.title) {
      TrimmedNonBlankFacts(tm[u]);
      var j :| 0 <= j < |tm[u]| && x == Trim(tm[u][j]);
      assert tm[u][j] in tm[u];
      var s :| s in sel && s.assigneeId == u && s.title == tm[u][j];
    }
    forall s | s in sel ensures s.assigneeId in st && Trim(s.title) in st[s.assigneeId] {
      var titles := tm[s.assigneeId];
      TrimmedNonBlankFacts(titles);
      var j :| 0 <= j < |titles| && titles[j] == s.title;
    }
    forall u | u in st ensures st[u] != [] {
      OrderFacts(sel);
      var s :| s in sel && s.assigneeId == u;
    }
  }

  /** Every appended task is numbered on from `first` without gaps, open, not done, dated
      `toY` and created by "system" at `now`. */
  lemma RolloverNumbering(doc: seq<Task>, fromY: Date, toY: Date, now: Time, first: nat)
    ensures var r := Carried(doc, fromY, toY, now, first);
      forall k :: 0 <= k < |r| ==>
        r[k].id == first + k && r[k].status == Open && r[k].doneAt == None && r[k].date == toY
        && r[k].creatorId == SystemCreator && r[k].createdAt == now
  {
    var sel := RolloverSelection(doc, fromY, toY);
    CarrySound(Stored(TitleMap(sel)), Order(sel), toY, now, first);
  }

  /** Every appended task carries the trimmed title of an open, non-blank task of `fromY` of
      the same assignee whose series was not yet on `toY`. */
  lemma RolloverCreates(doc: seq<Task>, fromY: Date, toY: Date, now: Time, first: nat)
    ensures forall t :: t in Carried(doc, fromY, toY, now, first) ==>
      exists s :: (s in doc && s.date == fromY && s.status == Open && s.assigneeId == t.assigneeId
        && t.title == Trim(s.title) && KeyOf(t) == KeyOf(s) && KeyOf(s) !in KeysOn(doc, toY))
  {
    var sel := RolloverSelection(doc, fromY, toY);
    var st := Stored(TitleMap(sel));
    var r := Carried(doc, fromY, toY, now, first);
    SelectionFacts(doc, fromY, toY);
    StoredFacts(sel);
    CarrySound(st, Order(sel), toY, now, first);
    forall t | t in r
      ensures exists s :: (s in doc && s.date == fromY && s.status == Open && s.assigneeId == t.assigneeId
        && t.title == Trim(s.title) && KeyOf(t) == KeyOf(s) && KeyOf(s) !in KeysOn(doc, toY))
    {
      var k :| 0 <= k < |r| && r[k] == t;
      assert CarriedTask(st, Order(sel), toY, now, first + k, r[k]);
      var s :| s in sel && s.assigneeId == t.assigneeId && t.title == Trim(s.title);
      NormFacts(s.title);
    }
  }

  /** Every open, non-blank task of `fromY` has its series on `toY` afterwards: it was there
      already, or the rollover appends a copy. */
  lemma RolloverCovers(doc: seq<Task>, fromY: Date, toY: Date, now: Time, first: nat)
    ensures forall s :: s in doc && s.date == fromY && s.status == Open && Trim(s.title) != [] ==>
      KeyOf(s) in KeysOn(doc, toY) + KeysOf(Carried(doc, fromY, toY, now, first))
  {
    var open := OpenNonBlankOn(doc, fromY);
    var sel := RolloverSelection(doc, fromY, toY);
    var st := Stored(TitleMap(sel));
    var r := Carried(doc, fromY, toY, now, first);
    OpenNonBlankOnMembers(doc, fromY);
    SelectComplete(open, {}, KeysOn(doc, toY));
    SelectionFacts(doc, fromY, toY);
    StoredFacts(sel);
    OrderFacts(sel);
    CarryComplete(st, Order(sel), toY, now, first);
    forall s | s in doc && s.date == fromY && s.status == Open && Trim(s.title) != []
      ensures KeyOf(s) in KeysOn(doc, toY) + KeysOf(r)
    {
      assert s in open;
      if KeyOf(s) !in KeysOn(doc, toY) {
        assert KeyOf(s) in KeysOf(sel);
        var s' :| s' in sel && KeyOf(s') == KeyOf(s);
        var t :| t in r && t.assigneeId == s'.assigneeId && t.title == Trim(s'.title);
        NormFacts(s'.title);
        assert KeyOf(t) == KeyOf(s);
      }
    }
  }

  /** No two appended tasks share a series, and none repeats a series already on `toY`. */
  lemma RolloverNoDuplicates(doc: seq<Task>, fromY: Date, toY: Date, now: Time, first: nat)
    ensures KeysDistinct(Carried(doc, fromY, toY, now, first))
    ensures forall t :: t in Carried(doc, fromY, toY, now, first) ==> KeyOf(t) !in KeysOn(doc, toY)
  {
    var sel := RolloverSelection(doc, fromY, toY);
    var tm := TitleMap(sel);
    var st := Stored(tm);
    SelectionFacts(doc, fromY, toY);
    OrderFacts(sel);
    TitleMapDistinct(sel);
    forall u | u in st ensures NormsDistinct(st[u]) {
      TrimmedNonBlankDistinct(tm[u]);
    }
    CarryDistinct(st, Order(sel), toY, now, first);
    RolloverCreates(doc, fromY, toY, now, first);
  }

  /** The appended tasks keep the store's invariant: their ids continue the counter and they
      are open and not done. */
  lemma RolloverKeepsInvariants(doc: seq<Task>, counter: nat, fromY: Date, toY: Date, now: Time)
    requires StoreInvariant(doc, counter + 1)
    ensures var r := Carried(doc, fromY, toY, now, counter + 1);
      StoreInvariant(doc + r, counter + 1 + |r|)
  {
    RolloverNumbering(doc, fromY, toY, now, counter + 1);
    AppendFresh(doc, counter + 1, Carried(doc, fromY, toY, now, counter + 1));
  }

  /** When no (assignee, date) bucket repeats a key, the rollover does not make one repeat. */
  lemma RolloverKeepsBucketsUnique(doc: seq<Task>, fromY: Date, toY: Date, now: Time, first: nat)
    requires BucketUnique(doc)
    ensures BucketUnique(doc + Carried(doc, fromY, toY, now, first))
  {
    var r := Carried(doc, fromY, toY, now, first);
    RolloverNumbering(doc, fromY, toY, now, first);
    RolloverNoDuplicates(doc, fromY, toY, now, first);
    forall k | 0 <= k < |r| ensures r[k].date == toY && KeyOf(r[k]) !in KeysOn(doc, toY) {
      assert r[k] in r;
    }
    AppendFreshKeys(doc, r, toY);
  }

  /** Running the rollover again right after it finds nothing to copy and returns an empty map. */
  lemma RolloverIdempotent(doc: seq<Task>, fromY: Date, toY: Date, now: Time, first: nat, now': Time, first': nat)
    ensures var doc' := doc + Carried(doc, fromY, toY, now, first);
      RolloverSelection(doc', fromY, toY) == []
      && Carried(doc', fromY, toY, now', first') == []
      && CarriedByUid(doc', fromY, toY, now', first') == map[]
  {
    var r := Carried(doc, fromY, toY, now, first);
    var doc' := doc + r;
    RolloverNumbering(doc, fromY, toY, now, first);
    RolloverCovers(doc, fromY, toY, now, first);
    OpenNonBlankOnMembers(doc', fromY);
    forall c | c in OpenNonBlankOn(doc', fromY) ensures KeyOf(c) in {} + KeysOn(doc', toY) {
      if c.date != toY {
        assert c !in r && c in doc;
        assert KeyOf(c) in KeysOn(doc, toY) + KeysOf(r);
        if KeyOf(c) !in KeysOn(doc, toY) {
          var t :| t in r && KeyOf(t) == KeyOf(c);
          var k :| 0 <= k < |r| && r[k] == t;
          assert t.date == toY;
        }
      }
    }
    SelectNothingNew(OpenNonBlankOn(doc', fromY), {}, KeysOn(doc', toY));
  }

  /** The returned map holds exactly the assignees with a copied task, each with their copies
      in order of creation, all of them among the appended tasks. */
  lemma CarriedByUidFacts(doc: seq<Task>, fromY: Date, toY: Date, now: Time, first: nat)
    ensures var cm := CarriedByUid(doc, fromY, toY, now, first);
      forall u :: u in cm <==> exists s :: s in RolloverSelection(doc, fromY, toY) && s.assigneeId == u
    ensures var cm := CarriedByUid(doc, fromY, toY, now, first);
      forall u :: u in cm ==>
        cm[u] != [] && forall t :: t in cm[u] ==> t.assigneeId == u && t in Carried(doc, fromY, toY, now, first)
  {
    var sel := RolloverSelection(doc, fromY, toY);
    SelectionFacts(doc, fromY, toY);
    StoredFacts(sel);
    OrderFacts(sel);
    CarryMapFacts(Stored(TitleMap(sel)), Order(sel), toY, now, first);
  }

  /** `rollOverOpenTasks` on the store: copy, append, and advance the counter. */
  method RollOverOpenTasks(store: Store, fromY: Date, toY: Date, now: Time)
    returns (createdByUid: map<string, seq<Task>>)
    requires store.Valid()
    modifies store
    ensures store.Valid()
    ensures store.tasks == old(store.tasks) + Carried(old(store.tasks), fromY, toY, now, old(store.taskCounter) + 1)
    ensures store.taskCounter == old(store.taskCounter) + |Carried(old(store.tasks), fromY, toY, now, old(store.taskCounter) + 1)|
    ensures createdByUid == CarriedByUid(old(store.tasks), fromY, toY, now, old(store.taskCounter) + 1)
    ensures store.users == old(store.users) && store.config == old(store.config)
  {
    var doc, counter;
    doc, counter, createdByUid := RollOverTo(store.tasks, store.taskCounter, fromY, toY, now);
    RolloverKeepsInvariants(store.tasks, store.taskCounter, fromY, toY, now);
    store.tasks, store.taskCounter := doc, counter;
  }

  // ───────────── ensureDailyTemplatesForDay ─────────────

  /** `DAILY_TEMPLATES_BY_DAY[weekdayISO] || DAILY_TEMPLATES_BY_DAY["*"] || DAILY_TEMPLATES_BY_DAY[1]`:
      the weekday's table replaces the "*" table. */
  function DayMap(templates: Templates, weekdayISO: int): Option<map<string, seq<string>>> {
    if Day(weekdayISO) in templates then Some(templates[Day(weekdayISO)])
    else if Star in templates then Some(templates[Star])
    else if Day(1) in templates then Some(templates[Day(1)])
    else None
  }

  /** The titles the call adds for one assignee: `None` when there is no table or no
      non-empty list for them, otherwise their list without the titles already present
      today. */
  function DailyToCreate(templates: Templates, tasks: seq<Task>, uid: string, weekdayISO: int, today: Date)
    : (r: Option<seq<string>>)
    ensures r.Some? ==> DayMap(templates, weekdayISO).Some? && uid in DayMap(templates, weekdayISO).value
    ensures r.Some? ==> var titles := DayMap(templates, weekdayISO).value[uid];
      titles != [] && forall x :: x in r.value <==> x in titles && Norm(x) !in BucketNorms(tasks, uid, today)
  {
    var dm := DayMap(templates, weekdayISO);
    if dm.None? || uid !in dm.value || dm.value[uid] == [] then None
    else
      FilterNewMembers(dm.value[uid], BucketNorms(tasks, uid, today));
      Some(FilterNew(dm.value[uid], BucketNorms(tasks, uid, today)))
  }

  /** What `ensureDailyTemplatesForDay` returns: `null`, `[]` when every title is present, or
      the tasks addTasks creates from the rest, numbered from `first`. */
  function DailyResult(templates: Templates, tasks: seq<Task>, uid: string, weekdayISO: int, today: Date,
                       now: Time, first: nat): Option<seq<Task>>
  {
    match DailyToCreate(templates, tasks, uid, weekdayISO, today)
    case None => None
    case Some(toCreate) =>
      if toCreate == [] then Some([])
      else Some(NewTasks(TrimmedNonBlank(toCreate), SystemCreator, uid, today, now, first))
  }

  /** `ensureDailyTemplatesForDay(uid, weekdayISO)` for the day `today`. */
  method EnsureDailyTemplatesForDay(store: Store, templates: Templates, uid: string, weekdayISO: int,
                                    today: Date, now: Time)
    returns (r: Option<seq<Task>>)
    requires store.Valid()
    modifies store
    ensures store.Valid()
    ensures r == DailyResult(templates, old(store.tasks), uid, weekdayISO, today, now, old(store.taskCounter) + 1)
    ensures store.tasks == old(store.tasks) + r.GetOr([])
    ensures store.taskCounter == old(store.taskCounter) + |r.GetOr([])|
    ensures store.users == old(store.users) && store.config == old(store.config)
  {
    var dayMap := DayMap(templates, weekdayISO);
    if dayMap.None? {
      return None;
    }
    if uid !in dayMap.value || dayMap.value[uid] == [] {
      return None;
    }
    var titles := dayMap.value[uid];
    var existing := store.ListTasksForAssignee(uid, today);
    var have := set t | t in existing :: Norm(t.title);
    assert have == BucketNorms(store.tasks, uid, today) by {
      forall t ensures t in existing <==> t in BucketOf(store.tasks, uid, today) {
        assert t in existing <==> t in multiset(existing);
      }
    }
    var toCreate := FilterNew(titles, have);
    if toCreate == [] {
      return Some([]);
    }
    var created := store.AddTasks(SystemCreator, uid, today, toCreate, now);
    r := Some(created);
  }

  /** After addTasks, the key of every non-blank title it was given is present in the bucket. */
  lemma AddedKeysPresent(tasks: seq<Task>, titles: seq<string>, creatorId: string, uid: string, today: Date,
                         now: Time, first: nat)
    ensures var tasks' := tasks + NewTasks(TrimmedNonBlank(titles), creatorId, uid, today, now, first);
      forall x :: x in titles && Trim(x) != [] ==> Norm(x) in BucketNorms(tasks', uid, today)
  {
    var created := NewTasks(TrimmedNonBlank(titles), creatorId, uid, today, now, first);
    TrimmedNonBlankFacts(titles);
    forall x | x in titles && Trim(x) != [] ensures Norm(x) in BucketNorms(tasks + created, uid, today) {
      var j :| 0 <= j < |titles| && titles[j] == x;
      var k :| 0 <= k < |TrimmedNonBlank(titles)| && TrimmedNonBlank(titles)[k] == Trim(x);
      assert created[k] in tasks + created;
      NormFacts(x);
    }
  }

  /** addTasks stores nothing from a list of blank titles. */
  lemma BlankStoresNothing(titles: seq<string>)
    requires forall x :: x in titles ==> Trim(x) == []
    ensures TrimmedNonBlank(titles) == []
  {
    TrimmedNonBlankFacts(titles);
  }

  /** After the first call has added its tasks, only blank titles are still missing. */
  lemma DailyLeftoverBlank(templates: Templates, tasks: seq<Task>, uid: string, weekdayISO: int, today: Date,
                           now: Time, first: nat)
    requires DailyToCreate(templates, tasks, uid, weekdayISO, today).Some?
    ensures var tc := DailyToCreate(templates, tasks, uid, weekdayISO, today).value;
      var tasks' := tasks + NewTasks(TrimmedNonBlank(tc), SystemCreator, uid, today, now, first);
      DailyToCreate(templates, tasks', uid, weekdayISO, today).Some?
      && forall x :: x in DailyToCreate(templates, tasks', uid, weekdayISO, today).value ==> Trim(x) == []
  {
    var tc := DailyToCreate(templates, tasks, uid, weekdayISO, today).value;
    var tasks' := tasks + NewTasks(TrimmedNonBlank(tc), SystemCreator, uid, today, now, first);
    var have := BucketNorms(tasks, uid, today);
    var have' := BucketNorms(tasks', uid, today);
    assert have <= have';
    AddedKeysPresent(tasks, tc, SystemCreator, uid, today, now, first);
    var tc' := DailyToCreate(templates, tasks', uid, weekdayISO, today);
    forall x | x in tc'.value ensures Trim(x) == [] {
      assert x in tc || Norm(x) in have;
    }
  }

  /** Calling it again the same day adds nothing: every title added by the first call is now
      present, and the titles left over are blank, which addTasks drops. */
  lemma DailyIdempotent(templates: Templates, tasks: seq<Task>, uid: string, weekdayISO: int, today: Date,
                        now: Time, first: nat, now': Time, first': nat)
    ensures var r := DailyResult(templates, tasks, uid, weekdayISO, today, now, first);
      DailyResult(templates, tasks + r.GetOr([]), uid, weekdayISO, today, now', first')
      == (if r.None? then None else Some([]))
  {
    var r := DailyResult(templates, tasks, uid, weekdayISO, today, now, first);
    var tc := DailyToCreate(templates, tasks, uid, weekdayISO, today);
    if tc.Some? && tc.value != [] {
      var tasks' := tasks + r.GetOr([]);
      DailyLeftoverBlank(templates, tasks, uid, weekdayISO, today, now, first);
      var tc' := DailyToCreate(templates, tasks', uid, weekdayISO, today);
      BlankStoresNothing(tc'.value);
      assert |NewTasks(TrimmedNonBlank(tc'.value), SystemCreator, uid, today, now', first')| == 0;
    } else {
      assert r.GetOr([]) == [];
      assert tasks + r.GetOr([]) == tasks;
    }
  }
}
