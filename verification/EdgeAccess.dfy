/**
  What can be read from a loaded node: the three outcomes of the edge accessors,
  and the conservation of neighbors over the nodes of a level.
 */
module EdgeAccess {
  import opened Options
  import opened Store
  import opened EagerLoad
  import opened EdgeLoaders
  import opened Refinement

  datatype Access<+T> = NotLoaded | NotFound | Got(value: T)

  /** The accessor of a unique edge. */
  function OneOrErr(t: Tree, name: string): Access<Tree> {
    if name in t.one then Got(t.one[name])
    else if name in t.loaded then NotFound
    else NotLoaded
  }

  /** The accessor of a list edge; a nil list reads as an empty one. */
  function ManyOrErr(t: Tree, name: string): Access<seq<Tree>> {
    if name in t.loaded then Got(if name in t.many then t.many[name] else []) else NotLoaded
  }

  /** The edge of the tree is what its lookup gave. */
  ghost predicate Holding(t: Tree, w: With, r: Result<seq<Tree>>) {
    && r.Ok?
    && (if w.edge.M2O? then
          (w.edge.name in t.one <==> r.value != []) &&
          (r.value != [] ==> t.one[w.edge.name] == r.value[|r.value| - 1])
        else w.edge.name in t.many && t.many[w.edge.name] == r.value)
  }

  ghost predicate NamedFrom(q: Query, k: nat, name: string) {
    exists j :: k <= j < |q.withs| && q.withs[j].edge.name == name
  }

  /** The two trees have the same neighbors under one name. */
  ghost predicate SameAt(t: Tree, u: Tree, name: string) {
    && (name in u.one <==> name in t.one) && (name in t.one ==> u.one[name] == t.one[name])
    && (name in u.many <==> name in t.many) && (name in t.many ==> u.many[name] == t.many[name])
  }

  lemma AttachHolds(w: With, t: Tree, ns: seq<Tree>)
    requires w.edge.name !in t.one
    ensures Holding(Attach(t, w.edge, ns), w, Ok(ns)) && Attach(t, w.edge, ns).loaded == t.loaded
    ensures forall name :: name != w.edge.name ==> SameAt(t, Attach(t, w.edge, ns), name)
  {
  }

  lemma RefEdgeHolds(db: Database, w: With, t: Tree, row: Row)
    requires w.edge.name !in t.one && RefEdge(db, w, t, row).Ok?
    ensures var u := RefEdge(db, w, t, row).value;
            && u.loaded == t.loaded
            && Holding(u, w, Lookup(db, w, row))
            && forall name :: name != w.edge.name ==> SameAt(t, u, name)
  {
    AttachHolds(w, t, Lookup(db, w, row).value);
  }

  lemma HoldingSameAt(t: Tree, u: Tree, w: With, r: Result<seq<Tree>>)
    requires Holding(t, w, r) && SameAt(t, u, w.edge.name)
    ensures Holding(u, w, r)
  {
  }

  lemma {:induction false} RefEdgesHold(db: Database, q: Query, t: Tree, row: Row, k: nat)
    requires k <= |q.withs| && DistinctNames(q)
    requires forall j :: k <= j < |q.withs| ==> q.withs[j].edge.name !in t.one
    requires RefEdges(db, q, t, row, k).Ok?
    ensures RefEdges(db, q, t, row, k).value.loaded == t.loaded
    ensures forall j :: k <= j < |q.withs| ==> Holding(RefEdges(db, q, t, row, k).value, q.withs[j], Lookup(db, q.withs[j], row))
    ensures forall name :: !NamedFrom(q, k, name) ==> SameAt(t, RefEdges(db, q, t, row, k).value, name)
    decreases |q.withs| - k
  {
    if k < |q.withs| {
      var w := q.withs[k];
      var t' := RefEdge(db, w, t, row).value;
      var u := RefEdges(db, q, t, row, k).value;
      RefEdgeHolds(db, w, t, row);
      forall j | k + 1 <= j < |q.withs| ensures q.withs[j].edge.name !in t'.one {
        assert q.withs[k].edge.name != q.withs[j].edge.name;
        assert SameAt(t, t', q.withs[j].edge.name);
      }
      RefEdgesHold(db, q, t', row, k + 1);
      assert !NamedFrom(q, k + 1, w.edge.name);
      HoldingSameAt(t', u, w, Lookup(db, w, row));
      forall name | !NamedFrom(q, k, name) ensures SameAt(t, u, name) {
        assert name != w.edge.name && !NamedFrom(q, k + 1, name);
        assert SameAt(t, t', name) && SameAt(t', u, name);
      }
    }
  }

  /** A node of a run, as it was looked up edge by edge. */
  lemma NodeOfRun(db: Database, q: Query, i: nat)
    requires WellTyped(q) && Fresh(q) && NestedUnlimited(q) && Keyed(db, q)
    requires BatchAll(db, q, q.cfg).Ok? && i < |BatchAll(db, q, q.cfg).value|
    ensures |BatchAll(db, q, q.cfg).value| == |Rows(db, q.entity, q.cfg)|
    ensures var row := Rows(db, q.entity, q.cfg)[i];
            RefEdges(db, q, Bare(q, q.cfg, row), row, 0) == Ok(BatchAll(db, q, q.cfg).value[i])
  {
    BatchRefinesLookup(db, q);
    var rows := Rows(db, q.entity, q.cfg);
    var rs := RefNodes(db, q, q.cfg, rows);
    RefTreesGather(db, q, q.cfg, rows, rs);
    assert rs[i].Ok? && RefEdges(db, q, Bare(q, q.cfg, rows[i]), rows[i], 0) == rs[i];
  }

  /** What the accessor of an edge gives, if its lookup gives the list. */
  ghost predicate Accessed(t: Tree, e: Edge, list: seq<Tree>) {
    if e.M2O? then OneOrErr(t, e.name) == (if list == [] then NotFound else Got(list[|list| - 1]))
    else ManyOrErr(t, e.name) == Got(list)
  }

  /** After a successful run, the accessor of every edge tells exactly whether the
      edge was requested and what its lookup finds. */
  lemma AccessorsAreExact(db: Database, q: Query, i: nat)
    requires WellTyped(q) && Fresh(q) && NestedUnlimited(q) && Keyed(db, q) && DistinctNames(q)
    requires BatchAll(db, q, q.cfg).Ok? && i < |BatchAll(db, q, q.cfg).value|
    ensures |BatchAll(db, q, q.cfg).value| == |Rows(db, q.entity, q.cfg)|
    ensures var t := BatchAll(db, q, q.cfg).value[i];
            forall name :: !NamedFrom(q, 0, name) ==> OneOrErr(t, name).NotLoaded? && ManyOrErr(t, name).NotLoaded?
    ensures var t, row := BatchAll(db, q, q.cfg).value[i], Rows(db, q.entity, q.cfg)[i];
            forall k :: 0 <= k < |q.withs| ==>
              var w := q.withs[k];
              Lookup(db, w, row).Ok? && Accessed(t, w.edge, Lookup(db, w, row).value)
  {
    var row := Rows(db, q.entity, q.cfg)[i];
    var t, bare := BatchAll(db, q, q.cfg).value[i], Bare(q, q.cfg, row);
    NodeOfRun(db, q, i);
    RefEdgesHold(db, q, bare, row, 0);
    var es := EdgesOf(q);
    forall name ensures name in t.loaded <==> NamedFrom(q, 0, name) {
      if NamedFrom(q, 0, name) {
        var j :| 0 <= j < |q.withs| && q.withs[j].edge.name == name;
        assert es[j].name == name;
      }
    }
    forall k | 0 <= k < |q.withs|
      ensures Lookup(db, q.withs[k], row).Ok? && Accessed(t, q.withs[k].edge, Lookup(db, q.withs[k], row).value)
    {
      assert NamedFrom(q, 0, q.withs[k].edge.name) && Holding(t, q.withs[k], Lookup(db, q.withs[k], row));
    }
  }

  /** A unique edge is found exactly if some visible row has the key. */
  lemma FoundIfRowExists(db: Database, w: With, row: Row, id: int)
    requires w.edge.M2O? && w.sub.cfg.Unlimited() && ForeignKey(row, w.edge.fk, w.edge.required) == Some(id)
    requires Lookup(db, w, row).Ok?
    ensures Lookup(db, w, row).value != [] <==>
            exists r :: r in Matching(db, w.sub.entity, w.sub.cfg) && Key(r, ID) == Some(id)
  {
    var p := ColIn(ID, [id]);
    var base := Matching(db, w.sub.entity, w.sub.cfg);
    var rows := Select([p], base);
    UnlimitedRows(db, w.sub.entity, w.sub.cfg, p);
    RefTreesGather(db, w.sub, w.sub.cfg.Where(p), rows, RefNodes(db, w.sub, w.sub.cfg.Where(p), rows));
    SelectMembers([p], base);
    if rows != [] {
      assert rows[0] in rows;
      HoldsOne(p, rows[0]);
    }
    if exists r :: r in base && Key(r, ID) == Some(id) {
      var r :| r in base && Key(r, ID) == Some(id);
      HoldsOne(p, r);
      assert r in rows;
    }
  }

  /******* Conservation *******/

  ghost function Total(lists: seq<seq<Tree>>): nat {
    if lists == [] then 0 else Total(lists[..|lists| - 1]) + |lists[|lists| - 1]|
  }

  lemma {:induction false} TotalAppended(nodes: seq<Node>, m: Node, lists: seq<seq<Tree>>, n: Tree)
    requires |nodes| == |lists| && Distinct(nodes)
    ensures Total(Appended(nodes, {m}, lists, n)) == Total(lists) + if m in nodes then 1 else 0
  {
    if nodes != [] {
      var init, last := nodes[..|nodes| - 1], nodes[|nodes| - 1];
      var before, after := lists[..|lists| - 1], Appended(nodes, {m}, lists, n);
      TotalAppended(init, m, before, n);
      assert after[..|after| - 1] == Appended(init, {m}, before, n);
      assert nodes == init + [last];
      if m in init {
        var i :| 0 <= i < |init| && init[i] == m;
        assert nodes[i] == m && nodes[i] != last;
      }
    }
  }

  lemma {:induction false} TotalOfEmpty(lists: seq<seq<Tree>>)
    requires forall i :: 0 <= i < |lists| ==> lists[i] == []
    ensures Total(lists) == 0
  {
    if lists != [] {
      TotalOfEmpty(lists[..|lists| - 1]);
    }
  }

  /** Every neighbor of an O2M batch goes to exactly one node: the lists together
      are as long as the batch, even if nodes share an ID. */
  lemma {:induction false} NeighborsAreConserved(nodes: seq<Node>, index: map<int, Node>, e: Edge, ns: seq<Tree>)
    requires e.O2M? && Distinct(nodes) && IsIndex(nodes, index)
    requires KeyError(index, e, ns).None?
    ensures Total(AllLists(nodes, index, e, ns)) == |ns|
  {
    if ns == [] {
      TotalOfEmpty(AllLists(nodes, index, e, ns));
    } else {
      var j := |ns| - 1;
      NeighborsAreConserved(nodes, index, e, ns[..j]);
      assert ns[..j + 1] == ns;
      var id := ForeignKey(ns[j].row, e.fk, e.required).value;
      AllListsSnoc(nodes, index, e, ns, j, id);
      TotalAppended(nodes, index[id], AllLists(nodes, index, e, ns[..j]), ns[j]);
    }
  }
}
