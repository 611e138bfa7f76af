/**
  Eager loading of a tree of edges, in two ways: in batches, one query per
  requested edge for all nodes of a level together, as the generated loaders
  work; and one node at a time, as anybody would write it down. The main
  theorem says that the first refines the second.
 */
module EagerLoad {
  import opened Options
  import opened Store

  /** How an edge is stored: in a foreign key of the node, in a foreign key of
      the neighbors, or in a join table. A required key is not nullable. */
  datatype Edge =
    | M2O(name: string, fk: string, required: bool)
    | O2M(name: string, fk: string, required: bool)
    | M2M(name: string, join: string)

  datatype With = With(edge: Edge, sub: Query)

  datatype Query = Query(entity: Entity, cfg: Config, withs: seq<With>)

  /** A loaded node: its decoded columns, the names of the requested edges, the
      neighbors of unique edges and the neighbors of list edges. */
  datatype Tree = Tree(row: Row, loaded: set<string>, one: map<string, Tree>, many: map<string, seq<Tree>>)

  /******* What a query may look like *******/

  predicate FitsEdge(entity: Entity, w: With) {
    match w.edge
    case M2O(_, fk, _) => fk in entity.columns && w.sub.entity.hasId
    case O2M(_, fk, _) => entity.hasId && fk in w.sub.entity.columns
    case M2M(_, _) => entity.hasId && w.sub.entity.hasId
  }

  /** The schema of the entities: what Go's types and the generator guarantee. */
  predicate WellTyped(q: Query) {
    && (q.entity.hasId ==> ID in q.entity.columns)
    && (forall k :: 0 <= k < |q.withs| ==> FitsEdge(q.entity, q.withs[k]) && WellTyped(q.withs[k].sub))
  }

  /** An entity names its edges apart. */
  predicate DistinctNames(q: Query) {
    forall i, j :: 0 <= i < j < |q.withs| ==> q.withs[i].edge.name != q.withs[j].edge.name
  }

  /** No builder in the tree carries a JOIN from an earlier run. */
  predicate Fresh(q: Query) {
    && Joins(q.cfg.preds) == []
    && (forall k :: 0 <= k < |q.withs| ==> Fresh(q.withs[k].sub))
  }

  predicate NestedUnlimited(q: Query) {
    forall k :: 0 <= k < |q.withs| ==> q.withs[k].sub.cfg.Unlimited() && NestedUnlimited(q.withs[k].sub)
  }

  /** Primary keys are unique in every table that the query touches. */
  ghost predicate Keyed(db: Database, q: Query) {
    && (q.entity.hasId ==> UniqueIds(db.Table(q.entity.table)))
    && (forall k :: 0 <= k < |q.withs| ==> Keyed(db, q.withs[k].sub))
  }

  /******* Columns *******/

  function Without(fields: seq<string>, col: string): seq<string> {
    if fields == [] then []
    else if fields[0] == col then Without(fields[1..], col)
    else [fields[0]] + Without(fields[1..], col)
  }

  function AddForeignKeys(edges: seq<Edge>, cols: seq<string>): seq<string> {
    if edges == [] then cols
    else
      var e := edges[0];
      AddForeignKeys(edges[1..], if e.M2O? && e.fk !in cols then cols + [e.fk] else cols)
  }

  /** The columns that are read for the requested edges and selected fields. */
  function ColumnList(entity: Entity, edges: seq<Edge>, fields: seq<string>): seq<string> {
    if fields == [] then entity.columns
    else AddForeignKeys(edges, if entity.hasId then [ID] + Without(fields, ID) else fields)
  }

  function EdgesOf(q: Query): (es: seq<Edge>)
    ensures |es| == |q.withs|
    ensures forall k :: 0 <= k < |es| ==> es[k] == q.withs[k].edge
  {
    seq(|q.withs|, k requires 0 <= k < |q.withs| => q.withs[k].edge)
  }

  function Columns(q: Query, fields: seq<string>): seq<string> {
    ColumnList(q.entity, EdgesOf(q), fields)
  }

  lemma {:induction false} WithoutMembers(fields: seq<string>, col: string)
    ensures forall c :: c in Without(fields, col) <==> c in fields && c != col
  {
    if fields != [] {
      WithoutMembers(fields[1..], col);
      assert fields == [fields[0]] + fields[1..];
    }
  }

  lemma {:induction false} AddForeignKeysMembers(edges: seq<Edge>, cols: seq<string>)
    ensures forall c :: c in AddForeignKeys(edges, cols) <==> c in cols || KeyOfEdges(edges, c)
  {
    if edges != [] {
      var e, rest := edges[0], edges[1..];
      AddForeignKeysMembers(rest, if e.M2O? && e.fk !in cols then cols + [e.fk] else cols);
      forall c ensures KeyOfEdges(edges, c) <==> (e.M2O? && e.fk == c) || KeyOfEdges(rest, c) {
        KeyOfFirstOrRest(edges, c);
      }
    }
  }

  /** One of the edges is stored in this column of the node. */
  ghost predicate KeyOfEdges(edges: seq<Edge>, c: string) {
    exists k :: 0 <= k < |edges| && edges[k].M2O? && edges[k].fk == c
  }

  lemma KeyOfFirstOrRest(edges: seq<Edge>, c: string)
    requires edges != []
    ensures KeyOfEdges(edges, c) <==> (edges[0].M2O? && edges[0].fk == c) || KeyOfEdges(edges[1..], c)
  {
    var rest := edges[1..];
    if k :| 0 <= k < |edges| && edges[k].M2O? && edges[k].fk == c {
      assert k > 0 ==> rest[k - 1] == edges[k];
    }
    if k :| 0 <= k < |rest| && rest[k].M2O? && rest[k].fk == c {
      assert edges[k + 1] == rest[k];
    }
  }

  /** A column that is read: without a selection every column, and otherwise the selected
      fields, the ID and the foreign keys of the requested M2O edges. */
  ghost predicate ReadsColumn(q: Query, fields: seq<string>, c: string) {
    if fields == [] then c in q.entity.columns
    else c in fields || (q.entity.hasId && c == ID) || KeyOfEdges(EdgesOf(q), c)
  }

  lemma ColumnsExactly(q: Query, fields: seq<string>)
    ensures forall c :: c in Columns(q, fields) <==> ReadsColumn(q, fields, c)
  {
    if fields != [] {
      WithoutMembers(fields, ID);
      AddForeignKeysMembers(EdgesOf(q), if q.entity.hasId then [ID] + Without(fields, ID) else fields);
    }
  }

  /** Whatever the selection, the ID, every selected field and every foreign key
      that a requested edge needs are read. */
  lemma ForcedColumns(q: Query, fields: seq<string>)
    requires WellTyped(q)
    ensures q.entity.hasId ==> ID in Columns(q, fields)
    ensures forall c :: c in fields ==> c in Columns(q, fields)
    ensures forall k :: 0 <= k < |q.withs| && q.withs[k].edge.M2O? ==> q.withs[k].edge.fk in Columns(q, fields)
  {
    ColumnsExactly(q, fields);
    forall k | 0 <= k < |q.withs| && q.withs[k].edge.M2O? ensures q.withs[k].edge.fk in Columns(q, fields) {
      assert EdgesOf(q)[k] == q.withs[k].edge && FitsEdge(q.entity, q.withs[k]);
    }
  }

  function EdgeNames(edges: seq<Edge>): set<string> {
    set k | 0 <= k < |edges| :: edges[k].name
  }

  function Bare(q: Query, cfg: Config, row: Row): Tree {
    Tree(Project(row, Columns(q, cfg.fields)), EdgeNames(EdgesOf(q)), map[], map[])
  }

  function BareAll(q: Query, cfg: Config, rows: seq<Row>): (ts: seq<Tree>)
    ensures |ts| == |rows|
    ensures forall i :: 0 <= i < |ts| ==> ts[i] == Bare(q, cfg, rows[i])
  {
    seq(|rows|, i requires 0 <= i < |rows| => Bare(q, cfg, rows[i]))
  }

  /******* One node at a time *******/

  function RefAll(db: Database, q: Query, cfg: Config): (r: Result<seq<Tree>>)
    ensures r.Err? ==> r.error == InvalidField
    decreases q, 3, 0
  {
    if !ValidFields(q.entity, cfg) then Err(InvalidField)
    else RefTrees(db, q, cfg, Rows(db, q.entity, cfg))
  }

  function RefTrees(db: Database, q: Query, cfg: Config, rows: seq<Row>): (r: Result<seq<Tree>>)
    ensures r.Err? ==> r.error == InvalidField
    decreases q, 2, |rows|
  {
    if rows == [] then Ok([])
    else
      var t :- RefNode(db, q, cfg, rows[0]);
      var ts :- RefTrees(db, q, cfg, rows[1..]);
      Ok([t] + ts)
  }

  function RefNode(db: Database, q: Query, cfg: Config, row: Row): (r: Result<Tree>)
    ensures r.Err? ==> r.error == InvalidField
    ensures r.Ok? ==> r.value.row == Project(row, Columns(q, cfg.fields))
    decreases q, 1, 0
  {
    RefEdges(db, q, Bare(q, cfg, row), row, 0)
  }

  function RefEdges(db: Database, q: Query, t: Tree, row: Row, k: nat): (r: Result<Tree>)
    requires k <= |q.withs|
    ensures r.Err? ==> r.error == InvalidField
    ensures r.Ok? ==> r.value.row == t.row
    decreases q, 0, |q.withs| - k
  {
    if k == |q.withs| then Ok(t)
    else
      var t' :- RefEdge(db, q.withs[k], t, row);
      RefEdges(db, q, t', row, k + 1)
  }

  /** The neighbors of one node along one edge, found with the node's own, complete row. */
  function Lookup(db: Database, w: With, row: Row): (r: Result<seq<Tree>>)
    ensures r.Err? ==> r.error == InvalidField
    decreases w, 0
  {
    match w.edge
    case M2O(_, fk, required) =>
      (match ForeignKey(row, fk, required)
       case None => Ok([])
       case Some(id) => RefAll(db, w.sub, w.sub.cfg.Where(ColIn(ID, [id]))))
    case O2M(_, fk, _) => RefAll(db, w.sub, w.sub.cfg.Force(fk).Where(ColIn(fk, [Id(row)])))
    case M2M(_, join) => RefAll(db, w.sub, w.sub.cfg.Where(Linked(db.Pairs(join), [Id(row)])))
  }

  /** Writes neighbors into a node: the last one for a unique edge, or all of them. */
  function Attach(t: Tree, e: Edge, ts: seq<Tree>): Tree {
    if !e.M2O? then t.(many := t.many[e.name := ts])
    else if ts == [] then t
    else t.(one := t.one[e.name := ts[|ts| - 1]])
  }

  function RefEdge(db: Database, w: With, t: Tree, row: Row): (r: Result<Tree>)
    ensures r.Err? ==> r.error == InvalidField
    ensures r.Ok? ==> r.value.row == t.row
    decreases w, 1
  {
    var ts :- Lookup(db, w, row);
    Ok(Attach(t, w.edge, ts))
  }

  /******* In batches *******/

  /** The foreign keys of the nodes, each once, in order of first appearance. */
  function KeyList(nodes: seq<Tree>, fk: string, required: bool): seq<int> {
    if nodes == [] then []
    else
      var ids := KeyList(nodes[..|nodes| - 1], fk, required);
      var key := ForeignKey(nodes[|nodes| - 1].row, fk, required);
      if key.Some? && key.value !in ids then ids + [key.value] else ids
  }

  lemma {:induction false} KeyListMembers(nodes: seq<Tree>, fk: string, required: bool)
    ensures forall id :: id in KeyList(nodes, fk, required) <==>
              exists i :: 0 <= i < |nodes| && ForeignKey(nodes[i].row, fk, required) == Some(id)
    ensures forall i, j :: 0 <= i < j < |KeyList(nodes, fk, required)| ==>
              KeyList(nodes, fk, required)[i] != KeyList(nodes, fk, required)[j]
  {
    if nodes != [] {
      var init := nodes[..|nodes| - 1];
      KeyListMembers(init, fk, required);
      var ids := KeyList(nodes, fk, required);
      forall id | id in ids
        ensures exists i :: 0 <= i < |nodes| && ForeignKey(nodes[i].row, fk, required) == Some(id)
      {
        if id in KeyList(init, fk, required) {
          var i :| 0 <= i < |init| && ForeignKey(init[i].row, fk, required) == Some(id);
          assert nodes[i] == init[i];
        } else {
          assert ForeignKey(nodes[|nodes| - 1].row, fk, required) == Some(id);
        }
      }
      forall i | 0 <= i < |nodes| && ForeignKey(nodes[i].row, fk, required).Some?
        ensures ForeignKey(nodes[i].row, fk, required).value in ids
      {
        if i < |init| {
          assert init[i] == nodes[i];
        }
      }
    }
  }

  function IdList(nodes: seq<Tree>): (ids: seq<int>)
    ensures |ids| == |nodes|
    ensures forall i :: 0 <= i < |ids| ==> ids[i] == Id(nodes[i].row)
  {
    seq(|nodes|, i requires 0 <= i < |nodes| => Id(nodes[i].row))
  }

  function LastWithId(ns: seq<Tree>, id: int): Option<Tree> {
    if ns == [] then None
    else if Id(ns[|ns| - 1].row) == id then Some(ns[|ns| - 1])
    else LastWithId(ns[..|ns| - 1], id)
  }

  function KeepKey(ns: seq<Tree>, fk: string, required: bool, id: int): seq<Tree> {
    if ns == [] then []
    else
      var kept := KeepKey(ns[..|ns| - 1], fk, required, id);
      if ForeignKey(ns[|ns| - 1].row, fk, required) == Some(id) then kept + [ns[|ns| - 1]] else kept
  }

  /** Some join row connects the owner with the neighbor. */
  predicate InJoin(js: seq<Joined>, owner: int, id: int) {
    js != [] &&
    (InJoin(js[..|js| - 1], owner, id) || (js[|js| - 1].owner == owner && Id(js[|js| - 1].row) == id))
  }

  lemma {:induction false} InJoinExactly(js: seq<Joined>, owner: int, id: int)
    ensures InJoin(js, owner, id) <==> exists k :: 0 <= k < |js| && js[k].owner == owner && Id(js[k].row) == id
  {
    if js != [] {
      var init := js[..|js| - 1];
      InJoinExactly(init, owner, id);
      if InJoin(init, owner, id) {
        var k :| 0 <= k < |init| && init[k].owner == owner && Id(init[k].row) == id;
        assert js[k] == init[k];
      }
      if exists k :: 0 <= k < |js| - 1 && js[k].owner == owner && Id(js[k].row) == id {
        var k :| 0 <= k < |js| - 1 && js[k].owner == owner && Id(js[k].row) == id;
        assert init[k] == js[k];
      }
    }
  }

  function KeepJoined(ns: seq<Tree>, js: seq<Joined>, owner: int): seq<Tree> {
    if ns == [] then []
    else
      var kept := KeepJoined(ns[..|ns| - 1], js, owner);
      if InJoin(js, owner, Id(ns[|ns| - 1].row)) then kept + [ns[|ns| - 1]] else kept
  }

  function AttachOne(t: Tree, e: Edge, ns: seq<Tree>): Tree
    requires e.M2O?
  {
    match ForeignKey(t.row, e.fk, e.required)
    case None => t
    case Some(id) =>
      (match LastWithId(ns, id)
       case None => t
       case Some(n) => t.(one := t.one[e.name := n]))
  }

  function AttachMany(t: Tree, e: Edge, ns: seq<Tree>): Tree
    requires e.O2M?
  {
    t.(many := t.many[e.name := KeepKey(ns, e.fk, e.required, Id(t.row))])
  }

  function AttachJoined(t: Tree, e: Edge, ns: seq<Tree>, js: seq<Joined>): Tree
    requires e.M2M?
  {
    t.(many := t.many[e.name := KeepJoined(ns, js, Id(t.row))])
  }

  ghost predicate SameRows(ts: seq<Tree>, nodes: seq<Tree>) {
    |ts| == |nodes| && forall i :: 0 <= i < |ts| ==> ts[i].row == nodes[i].row
  }

  function BatchAll(db: Database, q: Query, cfg: Config): Result<seq<Tree>>
    decreases q, 2, 0
  {
    if !ValidFields(q.entity, cfg) then Err(InvalidField)
    else BatchLoad(db, q, cfg, Rows(db, q.entity, cfg))
  }

  /** A builder whose rows come from a join: each neighbor is decoded once. A row
      with the columns of more than one join in front cannot be decoded. */
  function BatchJoined(db: Database, q: Query, cfg: Config): Result<seq<Tree>>
    decreases q, 2, 0
  {
    if !ValidFields(q.entity, cfg) then Err(InvalidField)
    else if Undecodable(db, q.entity, cfg) then Err(ColumnShift)
    else BatchLoad(db, q, cfg, FirstOfEach(JoinRows(db, q.entity, cfg), {}))
  }

  function BatchLoad(db: Database, q: Query, cfg: Config, rows: seq<Row>): Result<seq<Tree>>
    decreases q, 1, 0
  {
    if rows == [] then Ok([]) else BatchEdges(db, q, BareAll(q, cfg, rows), 0)
  }

  function BatchEdges(db: Database, q: Query, nodes: seq<Tree>, k: nat): (r: Result<seq<Tree>>)
    requires k <= |q.withs|
    ensures r.Ok? ==> SameRows(r.value, nodes)
    decreases q, 0, |q.withs| - k
  {
    if k == |q.withs| then Ok(nodes)
    else
      var nodes' :- BatchEdge(db, q.withs[k], nodes);
      BatchEdges(db, q, nodes', k + 1)
  }

  /** The configuration under which the neighbors of a batch are queried. */
  function BatchConfig(w: With, nodes: seq<Tree>): Config {
    match w.edge
    case M2O(_, fk, required) => w.sub.cfg.Where(ColIn(ID, KeyList(nodes, fk, required)))
    case O2M(_, fk, _) => w.sub.cfg.Force(fk).Where(ColIn(fk, IdList(nodes)))
    case M2M(_, join) => w.sub.cfg.Where(JoinIn(join, IdList(nodes)))
  }

  function BatchEdge(db: Database, w: With, nodes: seq<Tree>): (r: Result<seq<Tree>>)
    ensures r.Ok? ==> SameRows(r.value, nodes)
    decreases w
  {
    var cfg := BatchConfig(w, nodes);
    match w.edge
    case M2O(_, fk, required) =>
      if KeyList(nodes, fk, required) == [] then Ok(nodes)
      else
        var ns :- BatchAll(db, w.sub, cfg);
        Ok(seq(|nodes|, i requires 0 <= i < |nodes| => AttachOne(nodes[i], w.edge, ns)))
    case O2M(_, _, _) =>
      var ns :- BatchAll(db, w.sub, cfg);
      Ok(seq(|nodes|, i requires 0 <= i < |nodes| => AttachMany(nodes[i], w.edge, ns)))
    case M2M(_, _) =>
      var ns :- BatchJoined(db, w.sub, cfg);
      var js := JoinRows(db, w.sub.entity, cfg);
      Ok(seq(|nodes|, i requires 0 <= i < |nodes| => AttachJoined(nodes[i], w.edge, ns, js)))
  }

  /******* What a run leaves behind *******/

  /** The loaders narrow the nested builders in place. This is the tree of
      builders after a run, with the predicates and fields it has added. */
  function AfterAll(db: Database, q: Query, cfg: Config): Query
    decreases q, 2, 0
  {
    Query(q.entity, cfg,
          if !ValidFields(q.entity, cfg) then q.withs else AfterLoad(db, q, cfg, Rows(db, q.entity, cfg)))
  }

  function AfterJoined(db: Database, q: Query, cfg: Config): Query
    decreases q, 2, 0
  {
    Query(q.entity, cfg,
          if !ValidFields(q.entity, cfg) then q.withs
          else AfterLoad(db, q, cfg, FirstOfEach(JoinRows(db, q.entity, cfg), {})))
  }

  function AfterLoad(db: Database, q: Query, cfg: Config, rows: seq<Row>): (ws: seq<With>)
    ensures |ws| == |q.withs|
    decreases q, 1, 0
  {
    if rows == [] then q.withs else AfterEdges(db, q, BareAll(q, cfg, rows), 0)
  }

  function AfterEdges(db: Database, q: Query, nodes: seq<Tree>, k: nat): (ws: seq<With>)
    requires k <= |q.withs|
    ensures |ws| == |q.withs| - k
    decreases q, 0, |q.withs| - k
  {
    if k == |q.withs| then []
    else
      var w := q.withs[k];
      [With(w.edge, AfterEdge(db, w, nodes))] +
      (match BatchEdge(db, w, nodes)
       case Err(_) => q.withs[k + 1..]
       case Ok(nodes') => AfterEdges(db, q, nodes', k + 1))
  }

  function AfterEdge(db: Database, w: With, nodes: seq<Tree>): Query
    decreases w
  {
    match w.edge
    case M2O(_, fk, required) =>
      if KeyList(nodes, fk, required) == [] then w.sub else AfterAll(db, w.sub, BatchConfig(w, nodes))
    case O2M(_, _, _) => AfterAll(db, w.sub, BatchConfig(w, nodes))
    case M2M(_, _) => AfterJoined(db, w.sub, BatchConfig(w, nodes))
  }
}
