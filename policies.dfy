/**
 * The three copies of the task ledger disagree on policy. These lemmas compare them: the
 * series-aware rollover of DicMeneger carries a subset of what Suply's plain rollover carries,
 * Suply's template union covers intl-dept-rolebot's override, and only the de-duplicating
 * addTasks drops repeated titles. Each comparison comes with an input on which the two differ.
 */
module Policies {
  import opened Opt
  import opened Text
  import opened TaskCore
  import opened BotCommon
  import DicLedger
  import SuplyLedger
  import IntlLedger
  import IntlBot
  import SuplyBot

  // ───────────── rollover: series-aware versus plain ─────────────

  /** Every series DicMeneger carries, Suply carries too. */
  lemma SeriesAwareWithinPlain(tasks: seq<Task>, fromDate: Date, toDate: Date)
    ensures KeysOf(DicLedger.RolloverSelection(tasks, fromDate, toDate))
      <= KeysOf(SuplyLedger.RolloverSelection(tasks, fromDate, toDate))
  {
    var dic := DicLedger.RolloverSelection(tasks, fromDate, toDate);
    var sup := SuplyLedger.RolloverSelection(tasks, fromDate, toDate);
    SelectFrom(DicLedger.OpenOn(tasks, fromDate), DoneKeys(tasks), KeysOn(tasks, toDate));
    DicLedger.OpenOnMembers(tasks, fromDate);
    SuplyLedger.NotDoneOnMembers(tasks, fromDate);
    SelectComplete(SuplyLedger.NotDoneOn(tasks, fromDate), {}, KeysOn(tasks, toDate));
    forall t | t in dic ensures KeyOf(t) in KeysOf(sup) {
      assert t in SuplyLedger.NotDoneOn(tasks, fromDate);
    }
  }

  /** A series with a done copy on an earlier day: Suply carries its open copy, DicMeneger does not. */
  lemma SeriesAwareStricter()
    ensures var tasks := [Task(0, "a", 1, "c", "u", Done, 0, Some(5)), Task(1, "a", 2, "c", "u", Open, 0, None)];
      DicLedger.RolloverSelection(tasks, 2, 3) == [] && SuplyLedger.RolloverSelection(tasks, 2, 3) == [tasks[1]]
  {
    var tasks := [Task(0, "a", 1, "c", "u", Done, 0, Some(5)), Task(1, "a", 2, "c", "u", Open, 0, None)];
    assert KeyOf(tasks[0]) == KeyOf(tasks[1]);
    assert KeyOf(tasks[1]) in DoneKeys(tasks);
    assert DicLedger.OpenOn(tasks, 2) == [tasks[1]];
    assert SuplyLedger.NotDoneOn(tasks, 2) == [tasks[1]];
    assert KeysOn(tasks, 3) == {};
  }

  // ───────────── weekday templates: union versus override ─────────────

  /** When the weekday list or the "*" list is the one intl-dept-rolebot picks, every key it
      would create is among the keys Suply would create. */
  lemma OverrideWithinUnion(templates: Templates, uid: string, weekdayISO: int)
    requires Day(weekdayISO) in templates || Star in templates
    requires IntlBot.DayMap(templates, weekdayISO).Some? && uid in IntlBot.DayMap(templates, weekdayISO).value
    ensures NormSet(IntlBot.DayMap(templates, weekdayISO).value[uid])
      <= NormSet(SuplyBot.UniqueNorm(SuplyBot.Configured(templates, uid, weekdayISO)))
  {
    SuplyBot.TitlesForUnion(templates, uid, weekdayISO);
  }

  /** A "*" list and a Monday list: Suply takes both, intl-dept-rolebot only Monday's. */
  lemma UnionDiffersFromOverride()
    ensures var templates := map[Star := map["u" := ["a"]], Day(1) := map["u" := ["b"]]];
      SuplyBot.UniqueNorm(SuplyBot.Configured(templates, "u", 1)) == ["a", "b"]
      && IntlBot.DayMap(templates, 1) == Some(map["u" := ["b"]])
  {
    var templates := map[Star := map["u" := ["a"]], Day(1) := map["u" := ["b"]]];
    assert SuplyBot.Configured(templates, "u", 1) == ["a", "b"];
    assert ["a", "b"][..1] == ["a"];
    NormOfLetters();
    assert SuplyBot.UniqueNorm(["a"]) == ["a"];
    assert NormSet(["a"]) == {"a"};
  }

  lemma NormOfLetters()
    ensures Norm("a") == "a" && Norm("b") == "b" && Trim("a") == "a" && Trim("b") == "b"
  {
    assert Norm("a") == "a";
    assert Norm("b") == "b";
  }

  /** A Monday table without the assignee leaves intl-dept-rolebot with nothing, while Suply
      still takes the "*" list. */
  lemma OverrideDropsStar()
    ensures var templates := map[Star := map["u" := ["a"]], Day(1) := map["v" := ["b"]]];
      SuplyBot.UniqueNorm(SuplyBot.Configured(templates, "u", 1)) == ["a"]
      && IntlBot.DailyToCreate(templates, [], "u", 1, 20240101) == None
  {
    var templates := map[Star := map["u" := ["a"]], Day(1) := map["v" := ["b"]]];
    assert SuplyBot.Configured(templates, "u", 1) == ["a"];
    assert Trim("a") == "a";
  }

  // ───────────── addTasks: de-duplicating versus not ─────────────

  /** The de-duplicating addTasks stores a subset, by key, of what intl-dept-rolebot's stores. */
  lemma DedupWithinNoDedup(seen: set<string>, titles: seq<string>)
    ensures NormSet(Admit(seen, titles)) <= NormSet(IntlLedger.TrimmedNonBlank(titles))
  {
    AdmitFrom(seen, titles);
    AdmitFresh(seen, titles);
    IntlLedger.TrimmedNonBlankFacts(titles);
    forall x | x in Admit(seen, titles) ensures Norm(x) in NormSet(IntlLedger.TrimmedNonBlank(titles)) {
      var j :| 0 <= j < |titles| && x == Trim(titles[j]);
    }
  }

  /** The same title twice: Suply and DicMeneger store it once, intl-dept-rolebot twice. */
  lemma NoDedupStoresRepeats()
    ensures Admit({}, ["a", "a"]) == ["a"]
    ensures IntlLedger.TrimmedNonBlank(["a", "a"]) == ["a", "a"]
  {
    assert Trim("a") == "a" && Norm("a") == "a";
    assert ["a", "a"][1..] == ["a"];
    assert ["a", "a"][..1] == ["a"];
  }
}
