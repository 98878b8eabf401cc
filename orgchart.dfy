/**
 * The clinic's organisation chart (akfa-orgchart/src/App.jsx): the blocks of the chart
 * data, the search that highlights and opens them, the index of who reports to whom, the
 * names shown for block owners, and the open/closed state of the blocks.
 *
 * The chart data (`ORG_DATA`), the per-language name table and the name overrides kept in
 * the browser's local storage are parameters.
 */
module OrgChart {
  import opened Opt
  import opened Text

  datatype Group = Group(title: Option<string>, items: Option<seq<string>>)

  /** A block of the chart data; every field but the id may be missing. */
  datatype Block = Block(id: string, kind: Option<string>, title: Option<string>, owner: Option<string>,
                         ownerKey: Option<string>, reportsTo: Option<string>,
                         items: Option<seq<string>>, groups: Option<seq<Group>>)

  /** `ORG_DATA`: the head, the spine owner, and four optional lists of blocks. */
  datatype OrgData = OrgData(headTitle: Option<string>, headOwner: Option<string>, spineOwner: Block,
                             deputies: Option<seq<Block>>, spine: Option<seq<Block>>,
                             sideLeft: Option<seq<Block>>, sideRight: Option<seq<Block>>)

  /** A node of the reporting index. */
  datatype Node = Node(id: string, title: Option<string>, owner: Option<string>, ownerKey: Option<string>,
                       kind: Option<string>, reportsTo: Option<string>)

  /** A JavaScript string used as a condition: present and not empty. */
  predicate Truthy(s: Option<string>) {
    s.Some? && s.value != []
  }

  // ───────────── matchQ ─────────────

  /** `norm`: `(s || '').toLowerCase()`. */
  function Norm(s: Option<string>): string {
    Lower(s.GetOr(""))
  }

  /** `xs.some(i => norm(i).includes(n))`. */
  function AnyContains(xs: seq<string>, n: string): bool
    decreases |xs|
  {
    xs != [] && (Contains(Lower(xs[0]), n) || AnyContains(xs[1..], n))
  }

  /** `groups.some(g => norm(g.title).includes(n) || (g.items || []).some(…))`. */
  function AnyGroupContains(gs: seq<Group>, n: string): bool
    decreases |gs|
  {
    gs != [] && (Contains(Norm(gs[0].title), n) || AnyContains(gs[0].items.GetOr([]), n) || AnyGroupContains(gs[1..], n))
  }

  /** `matchQ`: an empty query matches everything; otherwise the lower-cased query must
      occur in the title, the owner, an item, or a group's title or item. */
  function MatchQ(title: Option<string>, owner: Option<string>, items: Option<seq<string>>,
                  groups: Option<seq<Group>>, q: Option<string>): bool
  {
    if !Truthy(q) then true
    else
      var n := Lower(q.value);
      Contains(Norm(title), n) || (Truthy(owner) && Contains(Norm(owner), n))
      || AnyContains(items.GetOr([]), n) || AnyGroupContains(groups.GetOr([]), n)
  }

  function GroupStrings(gs: seq<Group>): seq<string>
    decreases |gs|
  {
    if gs == [] then [] else [gs[0].title.GetOr("")] + gs[0].items.GetOr([]) + GroupStrings(gs[1..])
  }

  /** Every text of a block the search looks at. */
  function Searchable(title: Option<string>, owner: Option<string>, items: Option<seq<string>>,
                      groups: Option<seq<Group>>): seq<string>
  {
    [title.GetOr(""), owner.GetOr("")] + items.GetOr([]) + GroupStrings(groups.GetOr([]))
  }

  lemma {:induction false} AnyContainsIff(xs: seq<string>, n: string)
    ensures AnyContains(xs, n) <==> exists s :: s in xs && Contains(Lower(s), n)
    decreases |xs|
  {
    if xs != [] {
      AnyContainsIff(xs[1..], n);
      if AnyContains(xs, n) {
        if Contains(Lower(xs[0]), n) {
          assert xs[0] in xs;
        } else {
          var s :| s in xs[1..] && Contains(Lower(s), n);
          assert s in xs;
        }
      } else {
        forall s | s in xs ensures !Contains(Lower(s), n) {
          var i :| 0 <= i < |xs| && xs[i] == s;
          if i > 0 {
            assert xs[1..][i - 1] == s;
          }
        }
      }
    }
  }

  lemma {:induction false} AnyGroupContainsIff(gs: seq<Group>, n: string)
    ensures AnyGroupContains(gs, n) <==> exists s :: s in GroupStrings(gs) && Contains(Lower(s), n)
    decreases |gs|
  {
    if gs != [] {
      AnyGroupContainsIff(gs[1..], n);
      AnyContainsIff(gs[0].items.GetOr([]), n);
      var head, its, rest := gs[0].title.GetOr(""), gs[0].items.GetOr([]), GroupStrings(gs[1..]);
      var all := GroupStrings(gs);
      assert all == [head] + its + rest;
      assert AnyGroupContains(gs, n) == (Contains(Lower(head), n) || AnyContains(its, n) || AnyGroupContains(gs[1..], n));
      if AnyGroupContains(gs, n) {
        if Contains(Lower(head), n) {
          assert head in all;
        } else if AnyContains(its, n) {
          var s :| s in its && Contains(Lower(s), n);
          assert s in all;
        } else {
          var s :| s in rest && Contains(Lower(s), n);
          assert s in all;
        }
      } else {
        forall s | s in all ensures !Contains(Lower(s), n) {
          assert s == head || s in its || s in rest;
        }
      }
    }
  }

  lemma EmptyContainsNothing(n: string)
    requires n != []
    ensures !Contains(Lower(""), n)
  {
  }

  /** A block matches a non-empty query exactly when the lower-cased query occurs in one of
      its searchable texts. */
  lemma MatchQIff(title: Option<string>, owner: Option<string>, items: Option<seq<string>>,
                  groups: Option<seq<Group>>, q: Option<string>)
    ensures !Truthy(q) ==> MatchQ(title, owner, items, groups, q)
    ensures Truthy(q) ==> (MatchQ(title, owner, items, groups, q) <==>
              exists s :: s in Searchable(title, owner, items, groups) && Contains(Lower(s), Lower(q.value)))
  {
    if Truthy(q) {
      var n := Lower(q.value);
      LowerAt(q.value);
      AnyContainsIff(items.GetOr([]), n);
      AnyGroupContainsIff(groups.GetOr([]), n);
      var t, o, its, gs := title.GetOr(""), owner.GetOr(""), items.GetOr([]), GroupStrings(groups.GetOr([]));
      var all := Searchable(title, owner, items, groups);
      assert all == [t, o] + its + gs;
      if !Truthy(owner) {
        EmptyContainsNothing(n);
      }
      if MatchQ(title, owner, items, groups, q) {
        if Contains(Lower(t), n) {
          assert t in all;
        } else if Truthy(owner) && Contains(Lower(o), n) {
          assert o in all;
        } else if AnyContains(its, n) {
          var s :| s in its && Contains(Lower(s), n);
          assert s in all;
        } else {
          var s :| s in gs && Contains(Lower(s), n);
          assert s in all;
        }
      } else {
        forall s | s in all ensures !Contains(Lower(s), n) {
          assert s == t || s == o || s in its || s in gs;
        }
      }
    }
  }

  lemma LowerSuffix(s: string, i: nat)
    requires i <= |s|
    ensures |Lower(s)| == |s| && Lower(s)[i..] == Lower(s[i..])
  {
    LowerAt(s);
    LowerAt(s[i..]);
  }

  lemma LowerStartsWith(t: string, p: string)
    requires StartsWith(t, p)
    ensures StartsWith(Lower(t), Lower(p))
  {
    LowerAt(t);
    LowerAt(p);
    assert forall k :: 0 <= k < |p| ==> t[k] == p[k];
  }

  lemma ContainsLower(s: string, p: string)
    requires Contains(s, p)
    ensures Contains(Lower(s), Lower(p))
  {
    var i :| 0 <= i <= |s| && StartsWith(s[i..], p);
    LowerStartsWith(s[i..], p);
    LowerSuffix(s, i);
    assert StartsWith(Lower(s)[i..], Lower(p));
  }

  lemma ContainsTrans(a: string, b: string, c: string)
    requires Contains(a, b) && Contains(b, c)
    ensures Contains(a, c)
  {
    var i :| 0 <= i <= |a| && StartsWith(a[i..], b);
    var j :| 0 <= j <= |b| && StartsWith(b[j..], c);
    assert b == a[i..i + |b|];
    assert c == b[j..j + |c|];
    assert b[j..j + |c|] == a[i + j..i + j + |c|];
    assert a[i + j..][..|c|] == a[i + j..i + j + |c|];
  }

  /** Narrowing the search never brings back a block that a longer query containing it hid:
      a block that matches a query matches every part of it. */
  lemma MatchNarrower(title: Option<string>, owner: Option<string>, items: Option<seq<string>>,
                      groups: Option<seq<Group>>, q1: string, q2: string)
    requires Contains(q1, q2)
    requires MatchQ(title, owner, items, groups, Some(q1))
    ensures MatchQ(title, owner, items, groups, Some(q2))
  {
    MatchQIff(title, owner, items, groups, Some(q1));
    MatchQIff(title, owner, items, groups, Some(q2));
    if q2 != [] {
      assert q1 != [];
      var s :| s in Searchable(title, owner, items, groups) && Contains(Lower(s), Lower(q1));
      ContainsLower(q1, q2);
      ContainsTrans(Lower(s), Lower(q1), Lower(q2));
    }
  }

  // ───────────── useOrgIndex ─────────────

  /** The `pick` of one block. */
  function NodeOf(b: Block): Node {
    Node(b.id, b.title, b.owner, b.ownerKey, b.kind, b.reportsTo)
  }

  function Pick(bs: Option<seq<Block>>): (r: seq<Node>)
    ensures |r| == |bs.GetOr([])| && forall i :: 0 <= i < |r| ==> r[i] == NodeOf(bs.GetOr([])[i])
  {
    seq(|bs.GetOr([])|, i requires 0 <= i < |bs.GetOr([])| => NodeOf(bs.GetOr([])[i]))
  }

  /** The nodes of the index: the head as 'ceo', the spine owner (reporting to 'ceo' unless
      it says otherwise), then the deputies, the spine and the two sides. */
  function Nodes(data: OrgData): seq<Node> {
    var so := data.spineOwner;
    [Node("ceo", data.headTitle, data.headOwner, None, Some("admin"), None),
     Node(so.id, so.title, so.owner, None, Some("clinic"), Some(if Truthy(so.reportsTo) then so.reportsTo.value else "ceo"))]
    + Pick(data.deputies) + Pick(data.spine) + Pick(data.sideLeft) + Pick(data.sideRight)
  }

  lemma SpineOwnerReportsToCeo(data: OrgData)
    ensures |Nodes(data)| >= 2 && Nodes(data)[0].id == "ceo" && Nodes(data)[0].reportsTo.None?
    ensures Nodes(data)[1].id == data.spineOwner.id
    ensures !Truthy(data.spineOwner.reportsTo) ==> Nodes(data)[1].reportsTo == Some("ceo")
    ensures Truthy(data.spineOwner.reportsTo) ==> Nodes(data)[1].reportsTo == data.spineOwner.reportsTo
  {
  }

  /** The parent a node reports to; an empty `reportsTo` counts as none. */
  function Parent(n: Node): Option<string> {
    if Truthy(n.reportsTo) then n.reportsTo else None
  }

  /** The ids of the nodes reporting to `p`, in node order. */
  function ChildrenOf(nodes: seq<Node>, p: string): seq<string>
    decreases |nodes|
  {
    if nodes == [] then []
    else
      var last := nodes[|nodes| - 1];
      ChildrenOf(nodes[..|nodes| - 1], p) + (if Parent(last) == Some(p) then [last.id] else [])
  }

  /** The `children` map: every parent with its children's ids in node order. */
  method BuildChildren(nodes: seq<Node>) returns (m: map<string, seq<string>>)
    ensures forall p :: p in m <==> ChildrenOf(nodes, p) != []
    ensures forall p :: p in m ==> m[p] == ChildrenOf(nodes, p)
  {
    m := map[];
    var i := 0;
    while i < |nodes|
      invariant 0 <= i <= |nodes|
      invariant forall p :: p in m <==> ChildrenOf(nodes[..i], p) != []
      invariant forall p :: p in m ==> m[p] == ChildrenOf(nodes[..i], p)
    {
      var n := nodes[i];
      assert nodes[..i + 1][..i] == nodes[..i];
      if Truthy(n.reportsTo) {
        var p := n.reportsTo.value;
        m := m[p := (if p in m then m[p] else []) + [n.id]];
      }
      i := i + 1;
    }
    assert nodes[..|nodes|] == nodes;
  }

  predicate DistinctIds(nodes: seq<Node>) {
    forall i, j :: 0 <= i < j < |nodes| ==> nodes[i].id != nodes[j].id
  }

  /** An id is listed under `p` exactly when a node with that id reports to `p`. */
  lemma {:induction false} ChildrenMembers(nodes: seq<Node>, p: string, x: string)
    ensures x in ChildrenOf(nodes, p) <==> exists i :: 0 <= i < |nodes| && nodes[i].id == x && Parent(nodes[i]) == Some(p)
    decreases |nodes|
  {
    if nodes != [] {
      var init := nodes[..|nodes| - 1];
      ChildrenMembers(init, p, x);
      if exists i :: 0 <= i < |init| && init[i].id == x && Parent(init[i]) == Some(p) {
        var i :| 0 <= i < |init| && init[i].id == x && Parent(init[i]) == Some(p);
        assert nodes[i] == init[i];
      }
      if exists i :: 0 <= i < |nodes| && nodes[i].id == x && Parent(nodes[i]) == Some(p) {
        var i :| 0 <= i < |nodes| && nodes[i].id == x && Parent(nodes[i]) == Some(p);
        if i < |init| {
          assert init[i] == nodes[i];
        }
      }
    }
  }

  /** With distinct ids, no id is listed twice under a parent. */
  lemma {:induction false} ChildrenNoRepeats(nodes: seq<Node>, p: string)
    requires DistinctIds(nodes)
    ensures forall a, b :: 0 <= a < b < |ChildrenOf(nodes, p)| ==> ChildrenOf(nodes, p)[a] != ChildrenOf(nodes, p)[b]
    decreases |nodes|
  {
    if nodes != [] {
      var init := nodes[..|nodes| - 1];
      var last := nodes[|nodes| - 1];
      ChildrenNoRepeats(init, p);
      if Parent(last) == Some(p) {
        var c := ChildrenOf(nodes, p);
        var ci := ChildrenOf(init, p);
        assert c == ci + [last.id];
        ChildrenMembers(init, p, last.id);
        forall a | 0 <= a < |ci| ensures ci[a] != last.id {
          assert ci[a] in ci;
        }
      }
    }
  }

  /** Every node with a parent is listed exactly once, under that parent only; a node
      without one is nobody's child. */
  lemma ChildrenExactlyOnce(nodes: seq<Node>, i: nat, p: string)
    requires DistinctIds(nodes) && i < |nodes|
    ensures nodes[i].id in ChildrenOf(nodes, p) <==> Parent(nodes[i]) == Some(p)
    ensures forall a, b :: 0 <= a < b < |ChildrenOf(nodes, p)| ==> ChildrenOf(nodes, p)[a] != ChildrenOf(nodes, p)[b]
  {
    ChildrenMembers(nodes, p, nodes[i].id);
    ChildrenNoRepeats(nodes, p);
  }

  /** `dict`: `Object.fromEntries`, where a later node with the same id wins. */
  function Dict(nodes: seq<Node>): map<string, Node>
    decreases |nodes|
  {
    if nodes == [] then map[]
    else Dict(nodes[..|nodes| - 1])[nodes[|nodes| - 1].id := nodes[|nodes| - 1]]
  }

  /** The dictionary has exactly the nodes' ids, and with distinct ids finds each node. */
  lemma {:induction false} DictFacts(nodes: seq<Node>)
    requires DistinctIds(nodes)
    ensures forall k :: k in Dict(nodes) <==> exists i :: 0 <= i < |nodes| && nodes[i].id == k
    ensures forall i :: 0 <= i < |nodes| ==> Dict(nodes)[nodes[i].id] == nodes[i]
    decreases |nodes|
  {
    if nodes != [] {
      var init := nodes[..|nodes| - 1];
      DictFacts(init);
      forall k ensures k in Dict(nodes) <==> exists i :: 0 <= i < |nodes| && nodes[i].id == k {
        if k in Dict(init) {
          var i :| 0 <= i < |init| && init[i].id == k;
          assert nodes[i].id == k;
        }
        if exists i :: 0 <= i < |nodes| && nodes[i].id == k {
          var i :| 0 <= i < |nodes| && nodes[i].id == k;
          if i < |init| { assert init[i].id == k; }
        }
      }
      forall i | 0 <= i < |nodes| ensures Dict(nodes)[nodes[i].id] == nodes[i] {
        if i < |init| {
          assert init[i] == nodes[i];
        }
      }
    }
  }

  // ───────────── owner names ─────────────

  /** `getNameFromAny`: a non-empty override for the key and language, else the fallback in
      that language, else the Russian fallback, else nothing. */
  function NameFromAny(lang: string, key: string, overrides: map<string, map<string, string>>,
                       fallback: Option<map<string, string>>): string
  {
    if key in overrides && lang in overrides[key] && overrides[key][lang] != [] then overrides[key][lang]
    else if fallback.Some? && lang in fallback.value && fallback.value[lang] != [] then fallback.value[lang]
    else if fallback.Some? && "ru" in fallback.value then fallback.value["ru"]
    else ""
  }

  function Lookup(m: map<string, string>, k: string): Option<string> {
    if k in m then Some(m[k]) else None
  }

  /** The first of the candidates that is present and not empty, or nothing. */
  function FirstNonEmpty(candidates: seq<Option<string>>): string
    decreases |candidates|
  {
    if candidates == [] then ""
    else if Truthy(candidates[0]) then candidates[0].value
    else FirstNonEmpty(candidates[1..])
  }

  /** The precedence of the name sources: override, fallback in the language, Russian. */
  lemma NamePrecedence(lang: string, key: string, overrides: map<string, map<string, string>>,
                       fallback: Option<map<string, string>>)
    ensures NameFromAny(lang, key, overrides, fallback) == FirstNonEmpty([
      if key in overrides then Lookup(overrides[key], lang) else None,
      if fallback.Some? then Lookup(fallback.value, lang) else None,
      if fallback.Some? then Lookup(fallback.value, "ru") else None])
  {
    var c := [
      if key in overrides then Lookup(overrides[key], lang) else None,
      if fallback.Some? then Lookup(fallback.value, lang) else None,
      if fallback.Some? then Lookup(fallback.value, "ru") else None];
    assert c[1..] == [c[1], c[2]];
    assert c[1..][1..] == [c[2]];
    assert c[1..][1..][1..] == [];
    assert FirstNonEmpty(c[1..][1..]) == if Truthy(c[2]) then c[2].value else "";
    assert FirstNonEmpty(c[1..]) == if Truthy(c[1]) then c[1].value else FirstNonEmpty(c[1..][1..]);
  }

  /** `resolveOwner`: the name under the block's owner key, or its id, falling back on the
      owner written in the chart data. */
  function ResolveOwner(lang: string, b: Block, names: map<string, map<string, string>>,
                        overrides: map<string, map<string, string>>): string
  {
    var key := if Truthy(b.ownerKey) then b.ownerKey.value else b.id;
    var fallback := if key in names then names[key] else map["ru" := b.owner.GetOr("")];
    NameFromAny(lang, key, overrides, Some(fallback))
  }

  /** The owner key, when there is one, replaces the block id; a non-empty override wins;
      with neither an override nor a table entry, the chart's owner is shown in every
      language. */
  lemma ResolveOwnerFacts(lang: string, b: Block, names: map<string, map<string, string>>,
                          overrides: map<string, map<string, string>>)
    ensures var key := if Truthy(b.ownerKey) then b.ownerKey.value else b.id;
      (key in overrides && lang in overrides[key] && overrides[key][lang] != [] ==>
         ResolveOwner(lang, b, names, overrides) == overrides[key][lang])
      && (key !in overrides && key !in names ==> ResolveOwner(lang, b, names, overrides) == b.owner.GetOr(""))
      && ResolveOwner(lang, b, names, overrides) == ResolveOwner(lang, b.(id := key, ownerKey := None), names, overrides)
  {
  }

  // ───────────── open blocks ─────────────

  /** `toggle`: flip one block (a missing entry counts as closed). */
  function Toggle(m: map<string, bool>, id: string): map<string, bool> {
    m[id := !(id in m && m[id])]
  }

  /** Toggling changes that block only, and toggling twice restores it. */
  lemma ToggleFacts(m: map<string, bool>, id: string)
    ensures Toggle(m, id)[id] == !(id in m && m[id])
    ensures forall k :: k != id ==> (k in Toggle(m, id) <==> k in m) && (k in m ==> Toggle(m, id)[k] == m[k])
    ensures id in m ==> Toggle(Toggle(m, id), id) == m
    ensures id !in m ==> Toggle(Toggle(m, id), id) == m[id := false]
  {
  }

  /** The ids `expandAll` opens: the spine owner and every listed block. */
  function AllIds(data: OrgData): seq<string> {
    [data.spineOwner.id] + Ids(data.deputies.GetOr([])) + Ids(data.spine.GetOr([]))
    + Ids(data.sideLeft.GetOr([])) + Ids(data.sideRight.GetOr([]))
  }

  function Ids(bs: seq<Block>): (r: seq<string>)
    ensures |r| == |bs| && forall i :: 0 <= i < |bs| ==> r[i] == bs[i].id
  {
    seq(|bs|, i requires 0 <= i < |bs| => bs[i].id)
  }

  function ExpandAll(ids: seq<string>): (m: map<string, bool>)
    ensures forall k :: k in m <==> k in ids
    ensures forall k :: k in m ==> m[k]
  {
    map k | k in ids :: true
  }

  function CollapseAll(): (m: map<string, bool>)
    ensures forall k :: k !in m
  {
    map[]
  }

  /** After expanding, every block is open and toggling one closes it; after collapsing,
      every block is closed and toggling one opens it. */
  lemma ExpandCollapse(data: OrgData, id: string)
    ensures id in AllIds(data) ==> Toggle(ExpandAll(AllIds(data)), id)[id] == false
    ensures Toggle(CollapseAll(), id) == map[id := true]
  {
  }

  /** The search effect: for a non-empty query each listed block is opened exactly when it
      matches (a later block with the same id wins); other entries are kept. */
  function OpenForQuery(m: map<string, bool>, blocks: seq<Block>, q: Option<string>): map<string, bool>
    decreases |blocks|
  {
    if !Truthy(q) || blocks == [] then m
    else
      var b := blocks[|blocks| - 1];
      OpenForQuery(m, blocks[..|blocks| - 1], q)[b.id := MatchQ(b.title, b.owner, b.items, b.groups, q)]
  }

  lemma {:induction false} OpenForQueryFacts(m: map<string, bool>, blocks: seq<Block>, q: Option<string>)
    requires Truthy(q)
    requires forall i, j :: 0 <= i < j < |blocks| ==> blocks[i].id != blocks[j].id
    ensures forall i :: 0 <= i < |blocks| ==>
      blocks[i].id in OpenForQuery(m, blocks, q)
      && OpenForQuery(m, blocks, q)[blocks[i].id] == MatchQ(blocks[i].title, blocks[i].owner, blocks[i].items, blocks[i].groups, q)
    ensures forall k :: k in m && k !in Ids(blocks) ==> k in OpenForQuery(m, blocks, q) && OpenForQuery(m, blocks, q)[k] == m[k]
    decreases |blocks|
  {
    if blocks != [] {
      var init := blocks[..|blocks| - 1];
      OpenForQueryFacts(m, init, q);
      assert Ids(blocks)[|blocks| - 1] == blocks[|blocks| - 1].id;
      forall i | 0 <= i < |init| ensures blocks[i] == init[i] { }
    }
  }

  // ───────────── role label ─────────────

  /** `roleLabelFor`: the head of department label, except for two blocks without one. */
  function RoleLabelFor(id: string): (r: string)
    ensures r == [] <==> id == "nursing-head" || id == "residency"
  {
    if id == "nursing-head" || id == "residency" then "" else "Заведующий отделением"
  }
}
