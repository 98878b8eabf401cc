/**
 * The org chart's admin panel (akfa-orgchart/src/admin/AdminPanel.jsx): the list of nodes it
 * edits, its search, and the local title and name overrides it reads and writes.
 *
 * The per-language title and name tables are parameters, indexed language first; the panel's
 * state updates are modelled as the new overrides value, and saving to local storage is left
 * to the caller.
 */
module AdminPanel {
  import opened Opt
  import opened Text
  import OrgChart

  /** A table indexed by one key and then another (`id → lang → text` or `lang → id → text`). */
  type Table = map<string, map<string, string>>

  /** The overrides: titles and names, each `id → lang → text`. */
  datatype Overrides = Overrides(titles: Table, names: Table)

  /** An entry of the panel's node list. */
  datatype Entry = Entry(id: string, kind: string)

  /** `table?.[a]?.[b]`. */
  function Cell(t: Table, a: string, b: string): Option<string> {
    if a in t && b in t[a] then Some(t[a][b]) else None
  }

  // ───────────── makeNodesList ─────────────

  /** `take`: each block's id, its type defaulting to 'admin'. */
  function Take(bs: Option<seq<OrgChart.Block>>): (r: seq<Entry>)
    ensures |r| == |bs.GetOr([])|
    ensures forall i :: 0 <= i < |r| ==> r[i].id == bs.GetOr([])[i].id
  {
    seq(|bs.GetOr([])|, i requires 0 <= i < |bs.GetOr([])| =>
      var b := bs.GetOr([])[i]; Entry(b.id, if OrgChart.Truthy(b.kind) then b.kind.value else "admin"))
  }

  function MakeNodesList(data: OrgChart.OrgData): seq<Entry> {
    [Entry("ceo", "admin"), Entry(data.spineOwner.id, "clinic")]
    + Take(data.deputies) + Take(data.spine) + Take(data.sideLeft) + Take(data.sideRight)
  }

  function EntryIds(es: seq<Entry>): (r: seq<string>)
    ensures |r| == |es| && forall i :: 0 <= i < |es| ==> r[i] == es[i].id
  {
    seq(|es|, i requires 0 <= i < |es| => es[i].id)
  }

  function NodeIds(ns: seq<OrgChart.Node>): (r: seq<string>)
    ensures |r| == |ns| && forall i :: 0 <= i < |ns| ==> r[i] == ns[i].id
  {
    seq(|ns|, i requires 0 <= i < |ns| => ns[i].id)
  }

  lemma EntryIdsAppend(a: seq<Entry>, b: seq<Entry>)
    ensures EntryIds(a + b) == EntryIds(a) + EntryIds(b)
  {
  }

  lemma NodeIdsAppend(a: seq<OrgChart.Node>, b: seq<OrgChart.Node>)
    ensures NodeIds(a + b) == NodeIds(a) + NodeIds(b)
  {
  }

  /** The panel lists the same ids, in the same order, as the chart's reporting index: the
      head, the spine owner, then the deputies, the spine and the two sides. */
  lemma MakeNodesListFacts(data: OrgChart.OrgData)
    ensures EntryIds(MakeNodesList(data)) == NodeIds(OrgChart.Nodes(data))
    ensures MakeNodesList(data)[0] == Entry("ceo", "admin") && MakeNodesList(data)[1] == Entry(data.spineOwner.id, "clinic")
  {
    var so := data.spineOwner;
    var head: seq<Entry> := [Entry("ceo", "admin"), Entry(so.id, "clinic")];
    var nhead: seq<OrgChart.Node> := [OrgChart.Node("ceo", data.headTitle, data.headOwner, None, Some("admin"), None),
      OrgChart.Node(so.id, so.title, so.owner, None, Some("clinic"), Some(if OrgChart.Truthy(so.reportsTo) then so.reportsTo.value else "ceo"))];
    var d, s, l, r := data.deputies, data.spine, data.sideLeft, data.sideRight;
    assert EntryIds(Take(d)) == NodeIds(OrgChart.Pick(d));
    assert EntryIds(Take(s)) == NodeIds(OrgChart.Pick(s));
    assert EntryIds(Take(l)) == NodeIds(OrgChart.Pick(l));
    assert EntryIds(Take(r)) == NodeIds(OrgChart.Pick(r));
    assert EntryIds(head) == NodeIds(nhead);
    EntryIdsAppend(head, Take(d));
    EntryIdsAppend(head + Take(d), Take(s));
    EntryIdsAppend(head + Take(d) + Take(s), Take(l));
    EntryIdsAppend(head + Take(d) + Take(s) + Take(l), Take(r));
    NodeIdsAppend(nhead, OrgChart.Pick(d));
    NodeIdsAppend(nhead + OrgChart.Pick(d), OrgChart.Pick(s));
    NodeIdsAppend(nhead + OrgChart.Pick(d) + OrgChart.Pick(s), OrgChart.Pick(l));
    NodeIdsAppend(nhead + OrgChart.Pick(d) + OrgChart.Pick(s) + OrgChart.Pick(l), OrgChart.Pick(r));
  }

  /** A listed block keeps its type, or is listed as 'admin' without one. */
  lemma TakeDefaultsToAdmin(bs: Option<seq<OrgChart.Block>>)
    ensures forall b :: b in bs.GetOr([]) && !OrgChart.Truthy(b.kind) ==> Entry(b.id, "admin") in Take(bs)
    ensures forall b :: b in bs.GetOr([]) && OrgChart.Truthy(b.kind) ==> Entry(b.id, b.kind.value) in Take(bs)
  {
    forall b | b in bs.GetOr([]) ensures Entry(b.id, if OrgChart.Truthy(b.kind) then b.kind.value else "admin") in Take(bs) {
      var i :| 0 <= i < |bs.GetOr([])| && bs.GetOr([])[i] == b;
      assert Take(bs)[i] == Entry(b.id, if OrgChart.Truthy(b.kind) then b.kind.value else "admin");
    }
  }

  // ───────────── search ─────────────

  /** `(text || '').toLowerCase().includes(n(q))` for one of the four strings. */
  function Hit(text: Option<string>, q: string): bool {
    Contains(Lower(text.GetOr("")), Lower(q))
  }

  /** A node matches when the query occurs in its title or name, from the tables or the
      overrides, in the panel's language. */
  predicate NodeMatches(e: Entry, q: string, lang: string, titles: Table, names: Table, ov: Overrides) {
    Hit(Cell(titles, lang, e.id), q) || Hit(Cell(names, lang, e.id), q)
    || Hit(Cell(ov.titles, e.id, lang), q) || Hit(Cell(ov.names, e.id, lang), q)
  }

  function FilterMatching(es: seq<Entry>, q: string, lang: string, titles: Table, names: Table, ov: Overrides): seq<Entry>
    decreases |es|
  {
    if es == [] then []
    else (if NodeMatches(es[0], q, lang, titles, names, ov) then [es[0]] else [])
         + FilterMatching(es[1..], q, lang, titles, names, ov)
  }

  /** The panel's list: every node for an empty query, otherwise the matching ones. */
  function Search(es: seq<Entry>, q: string, lang: string, titles: Table, names: Table, ov: Overrides): seq<Entry> {
    if q == [] then es else FilterMatching(es, q, lang, titles, names, ov)
  }

  lemma {:induction false} FilterMatchingFacts(es: seq<Entry>, q: string, lang: string, titles: Table, names: Table, ov: Overrides)
    ensures |FilterMatching(es, q, lang, titles, names, ov)| <= |es|
    ensures forall e :: e in FilterMatching(es, q, lang, titles, names, ov) <==> e in es && NodeMatches(e, q, lang, titles, names, ov)
    decreases |es|
  {
    if es != [] {
      FilterMatchingFacts(es[1..], q, lang, titles, names, ov);
      forall e ensures e in es <==> e == es[0] || e in es[1..] {
        assert es == [es[0]] + es[1..];
      }
    }
  }

  /** An empty query lists every node; any other lists exactly the matching ones and never
      more than there are. */
  lemma SearchFacts(es: seq<Entry>, q: string, lang: string, titles: Table, names: Table, ov: Overrides)
    ensures q == [] ==> Search(es, q, lang, titles, names, ov) == es
    ensures |Search(es, q, lang, titles, names, ov)| <= |es|
    ensures q != [] ==> forall e :: e in Search(es, q, lang, titles, names, ov) <==> e in es && NodeMatches(e, q, lang, titles, names, ov)
  {
    FilterMatchingFacts(es, q, lang, titles, names, ov);
  }

  // ───────────── getters and setters ─────────────

  /** `getTitle`/`getName`: the override when there is one (even an empty one), else the
      table's value, else nothing. */
  function Get(overrides: Table, table: Table, lang: string, id: string): string {
    match Cell(overrides, id, lang)
    case Some(v) => v
    case None => Cell(table, lang, id).GetOr("")
  }

  function GetTitle(ov: Overrides, titles: Table, lang: string, id: string): string {
    Get(ov.titles, titles, lang, id)
  }

  function GetName(ov: Overrides, names: Table, lang: string, id: string): string {
    Get(ov.names, names, lang, id)
  }

  /** The copy-on-write `row[lang] = v` of `setTitle`/`setName` in one table. */
  function SetCell(t: Table, id: string, lang: string, v: string): Table {
    t[id := (if id in t then t[id] else map[])[lang := v]]
  }

  function SetTitle(ov: Overrides, lang: string, id: string, v: string): Overrides {
    ov.(titles := SetCell(ov.titles, id, lang, v))
  }

  function SetName(ov: Overrides, lang: string, id: string, v: string): Overrides {
    ov.(names := SetCell(ov.names, id, lang, v))
  }

  /** Setting a cell changes that cell only. */
  lemma SetCellFacts(t: Table, id: string, lang: string, v: string)
    ensures Cell(SetCell(t, id, lang, v), id, lang) == Some(v)
    ensures forall a, b :: (a != id || b != lang) ==> Cell(SetCell(t, id, lang, v), a, b) == Cell(t, a, b)
  {
  }

  /** After `setTitle` the panel shows the new title, whatever it is (even empty); every
      other title and every name shows as before. `setName` is the same on names. */
  lemma SetThenGet(ov: Overrides, titles: Table, names: Table, lang: string, id: string, v: string)
    ensures GetTitle(SetTitle(ov, lang, id, v), titles, lang, id) == v
    ensures forall l, k :: (l != lang || k != id) ==> GetTitle(SetTitle(ov, lang, id, v), titles, l, k) == GetTitle(ov, titles, l, k)
    ensures SetTitle(ov, lang, id, v).names == ov.names
    ensures GetName(SetName(ov, lang, id, v), names, lang, id) == v
    ensures forall l, k :: (l != lang || k != id) ==> GetName(SetName(ov, lang, id, v), names, l, k) == GetName(ov, names, l, k)
    ensures SetName(ov, lang, id, v).titles == ov.titles
  {
    SetCellFacts(ov.titles, id, lang, v);
    SetCellFacts(ov.names, id, lang, v);
  }

  /** Without an override the table's value shows; an override, even empty, hides it. */
  lemma GetPrecedence(ov: Table, table: Table, lang: string, id: string)
    ensures Cell(ov, id, lang).None? && Cell(table, lang, id).Some? ==> Get(ov, table, lang, id) == Cell(table, lang, id).value
    ensures Cell(ov, id, lang) == Some("") ==> Get(ov, table, lang, id) == ""
    ensures Cell(ov, id, lang).None? && Cell(table, lang, id).None? ==> Get(ov, table, lang, id) == ""
  {
  }

  /** `resetAll`: no overrides. */
  function ResetAll(): Overrides {
    Overrides(map[], map[])
  }

  /** After a reset every title and name is the table's again. */
  lemma ResetShowsTables(titles: Table, names: Table, lang: string, id: string)
    ensures GetTitle(ResetAll(), titles, lang, id) == Cell(titles, lang, id).GetOr("")
    ensures GetName(ResetAll(), names, lang, id) == Cell(names, lang, id).GetOr("")
  {
  }

  /** The outcome of `JSON.parse` on an imported file: a failure, `null`, an object with
      optional `titles` and `names`, or any other value. */
  datatype Parsed = ParseError | JsonNull | JsonObject(titles: Option<Table>, names: Option<Table>) | JsonOther

  /** `importJson`: a file that does not parse, or parses to `null`, changes nothing; otherwise
      a missing `titles` or `names` becomes an empty table. */
  function ImportJson(ov: Overrides, parsed: Parsed): Overrides {
    match parsed
    case ParseError => ov
    case JsonNull => ov
    case JsonObject(t, n) => Overrides(t.GetOr(map[]), n.GetOr(map[]))
    case JsonOther => Overrides(map[], map[])
  }

  /** Importing then reading gives back the imported cells, a missing table reading as no
      overrides; importing what was exported reproduces it. */
  lemma ImportFacts(ov: Overrides, parsed: Parsed, titles: Table, lang: string, id: string)
    ensures (parsed.ParseError? || parsed.JsonNull?) ==> ImportJson(ov, parsed) == ov
    ensures parsed.JsonObject? && parsed.titles.None? ==>
      GetTitle(ImportJson(ov, parsed), titles, lang, id) == GetTitle(ResetAll(), titles, lang, id)
    ensures ImportJson(ov, JsonObject(Some(ov.titles), Some(ov.names))) == ov
    ensures parsed.JsonOther? ==> ImportJson(ov, parsed) == ResetAll()
  {
  }
}
