/**
  The loops of the eager loaders. They index the nodes of a level in maps, and
  write the neighbors that a batch query returned into the nodes in place.
 */
module EdgeLoaders {
  import opened Options
  import opened Store
  import opened EagerLoad
  import opened JoinOrder

  /** A node while its edges are being loaded. */
  class Node {
    const row: Row
    const loaded: set<string>
    var one: map<string, Tree>
    var many: map<string, seq<Tree>>

    constructor (row: Row, loaded: set<string>)
      ensures this.row == row && this.loaded == loaded
      ensures one == map[] && many == map[]
    {
      this.row, this.loaded := row, loaded;
      one, many := map[], map[];
    }

    function View(): Tree
      reads this
    {
      Tree(row, loaded, one, many)
    }
  }

  function Views(nodes: seq<Node>): (ts: seq<Tree>)
    reads nodes
    ensures |ts| == |nodes|
    ensures forall i :: 0 <= i < |nodes| ==> ts[i] == nodes[i].View()
  {
    seq(|nodes|, i requires 0 <= i < |nodes| reads nodes => nodes[i].View())
  }

  /******* M2O: nodes grouped by foreign key *******/

  function WithKey(nodes: seq<Node>, fk: string, required: bool, id: int): seq<Node> {
    if nodes == [] then []
    else
      var kept := WithKey(nodes[..|nodes| - 1], fk, required, id);
      var n := nodes[|nodes| - 1];
      if ForeignKey(n.row, fk, required) == Some(id) then kept + [n] else kept
  }

  lemma {:induction false} WithKeyMembers(nodes: seq<Node>, fk: string, required: bool, id: int)
    ensures forall n :: n in WithKey(nodes, fk, required, id) <==> n in nodes && ForeignKey(n.row, fk, required) == Some(id)
  {
    if nodes != [] {
      WithKeyMembers(nodes[..|nodes| - 1], fk, required, id);
      assert nodes == nodes[..|nodes| - 1] + [nodes[|nodes| - 1]];
    }
  }

  /** The nodes that have a key, partitioned by it, each part in order. */
  ghost predicate Groups(nodes: seq<Node>, fk: string, required: bool, nodeids: map<int, seq<Node>>) {
    && (forall id :: id in nodeids ==> nodeids[id] == WithKey(nodes, fk, required, id))
    && (forall n :: n in nodes && ForeignKey(n.row, fk, required).Some? ==> ForeignKey(n.row, fk, required).value in nodeids)
  }

  /** The map has exactly the listed keys. */
  ghost predicate KeyedBy<T>(ids: seq<int>, m: map<int, T>) {
    m.Keys == set id | id in ids
  }

  lemma KeyedBySnoc<T>(ids: seq<int>, m: map<int, T>, id: int, v: T)
    requires KeyedBy(ids, m)
    ensures id in m <==> id in ids
    ensures KeyedBy(if id in ids then ids else ids + [id], m[id := v])
  {
  }

  lemma KeyListSnoc(ts: seq<Tree>, i: nat, fk: string, required: bool)
    requires i < |ts|
    ensures var ids, key := KeyList(ts[..i], fk, required), ForeignKey(ts[i].row, fk, required);
            KeyList(ts[..i + 1], fk, required) == if key.Some? && key.value !in ids then ids + [key.value] else ids
  {
    assert ts[..i + 1][..i] == ts[..i];
  }

  method GroupByKey(nodes: seq<Node>, fk: string, required: bool)
    returns (ids: seq<int>, nodeids: map<int, seq<Node>>)
    ensures ids == KeyList(Views(nodes), fk, required)
    ensures Distinct(ids) && nodeids.Keys == set id | id in ids
    ensures Groups(nodes, fk, required, nodeids)
  {
    ids, nodeids := [], map[];
    ghost var ts := Views(nodes);
    for i := 0 to |nodes|
      invariant ids == KeyList(ts[..i], fk, required) && KeyedBy(ids, nodeids)
      invariant Grouped(nodes[..i], fk, required, nodeids)
    {
      assert nodes[..i + 1] == nodes[..i] + [nodes[i]];
      KeyListSnoc(ts, i, fk, required);
      GroupSnoc(nodes[..i], fk, required, nodeids, nodes[i]);
      var key := ForeignKey(nodes[i].row, fk, required);
      if key.Some? {
        var id := key.value;
        KeyedBySnoc(ids, nodeids, id, Group(nodeids, id) + [nodes[i]]);
        if id !in nodeids {
          ids := ids + [id];
        }
        nodeids := nodeids[id := Group(nodeids, id) + [nodes[i]]];
      }
    }
    assert nodes[..|nodes|] == nodes && ts[..|nodes|] == ts;
    KeyListMembers(ts, fk, required);
    GroupedGroups(nodes, fk, required, nodeids);
  }

  /** A missing key of a Go map reads as an empty slice. */
  function Group(nodeids: map<int, seq<Node>>, id: int): seq<Node> {
    if id in nodeids then nodeids[id] else []
  }

  ghost predicate Grouped(nodes: seq<Node>, fk: string, required: bool, nodeids: map<int, seq<Node>>) {
    forall id :: Group(nodeids, id) == WithKey(nodes, fk, required, id)
  }

  lemma GroupSnoc(nodes: seq<Node>, fk: string, required: bool, nodeids: map<int, seq<Node>>, n: Node)
    requires Grouped(nodes, fk, required, nodeids)
    ensures match ForeignKey(n.row, fk, required)
            case None => Grouped(nodes + [n], fk, required, nodeids)
            case Some(key) => Grouped(nodes + [n], fk, required, nodeids[key := Group(nodeids, key) + [n]])
  {
    var key := ForeignKey(n.row, fk, required);
    var nodeids' := if key.None? then nodeids else nodeids[key.value := Group(nodeids, key.value) + [n]];
    forall id ensures Group(nodeids', id) == WithKey(nodes + [n], fk, required, id) {
      assert Group(nodeids, id) == WithKey(nodes, fk, required, id);
      WithKeySnoc(nodes, n, fk, required, id);
    }
  }

  lemma GroupedGroups(nodes: seq<Node>, fk: string, required: bool, nodeids: map<int, seq<Node>>)
    requires Grouped(nodes, fk, required, nodeids)
    ensures Groups(nodes, fk, required, nodeids)
  {
    forall id | id in nodeids ensures nodeids[id] == WithKey(nodes, fk, required, id) {
      assert Group(nodeids, id) == WithKey(nodes, fk, required, id);
    }
    forall n | n in nodes && ForeignKey(n.row, fk, required).Some? ensures ForeignKey(n.row, fk, required).value in nodeids {
      var id := ForeignKey(n.row, fk, required).value;
      WithKeyMembers(nodes, fk, required, id);
      assert n in Group(nodeids, id);
    }
  }

  lemma WithKeySnoc(nodes: seq<Node>, n: Node, fk: string, required: bool, id: int)
    ensures WithKey(nodes + [n], fk, required, id) ==
            if ForeignKey(n.row, fk, required) == Some(id) then WithKey(nodes, fk, required, id) + [n]
            else WithKey(nodes, fk, required, id)
  {
    assert (nodes + [n])[..|nodes|] == nodes;
  }

  /** Gives every neighbor to all nodes that hold its ID as their foreign key. */
  method AssignOne(nodes: seq<Node>, nodeids: map<int, seq<Node>>, e: Edge, ns: seq<Tree>)
    returns (err: Option<Error>)
    requires e.M2O? && Distinct(nodes)
    requires Groups(nodes, e.fk, e.required, nodeids)
    modifies nodes
    ensures err == if forall j :: 0 <= j < |ns| ==> Id(ns[j].row) in nodeids then None else Some(UnexpectedKey)
    ensures err.None? ==> forall n :: n in nodes ==> n.View() == AttachOne(old(n.View()), e, ns)
  {
    for j := 0 to |ns|
      invariant forall i :: 0 <= i < j ==> Id(ns[i].row) in nodeids
      invariant forall n :: n in nodes ==> n.View() == AttachOne(old(n.View()), e, ns[..j])
    {
      var id := Id(ns[j].row);
      if id !in nodeids {
        return Some(UnexpectedKey);
      }
      WithKeyMembers(nodes, e.fk, e.required, id);
      SetOnAll(nodes, nodeids[id], e.name, ns[j]);
      forall n | n in nodes ensures n.View() == AttachOne(old(n.View()), e, ns[..j + 1]) {
        AttachOneSnoc(old(n.View()), e, ns, j);
      }
    }
    assert ns[..|ns|] == ns;
    err := None;
  }

  lemma AttachOneSnoc(t: Tree, e: Edge, ns: seq<Tree>, j: nat)
    requires e.M2O? && j < |ns|
    ensures AttachOne(t, e, ns[..j + 1]) ==
            var t' := AttachOne(t, e, ns[..j]);
            if ForeignKey(t.row, e.fk, e.required) == Some(Id(ns[j].row)) then t'.(one := t'.one[e.name := ns[j]]) else t'
  {
    assert ns[..j + 1][..j] == ns[..j];
  }

  method SetOnAll(nodes: seq<Node>, group: seq<Node>, name: string, n: Tree)
    requires forall m :: m in group ==> m in nodes
    modifies nodes
    ensures forall m :: m in nodes ==> m.many == old(m.many)
    ensures forall m :: m in nodes ==> m.one == if m in group then old(m.one)[name := n] else old(m.one)
  {
    for i := 0 to |group|
      invariant forall m :: m in nodes ==> m.many == old(m.many)
      invariant forall m :: m in nodes ==> m.one == if m in group[..i] then old(m.one)[name := n] else old(m.one)
    {
      assert group[i] in group;
      group[i].one := group[i].one[name := n];
      assert group[..i + 1] == group[..i] + [group[i]];
    }
    assert group[..|group|] == group;
  }

  /******* List edges *******/

  /** Ranges over a set of nodes as Go ranges over a map: the order is arbitrary. */
  method AppendToAll(nodes: seq<Node>, members: set<Node>, name: string, n: Tree)
    requires forall m :: m in members ==> m in nodes && name in m.many
    modifies nodes
    ensures forall m :: m in nodes ==> m.one == old(m.one)
    ensures forall m :: m in nodes ==>
      m.many == if m in members then old(m.many)[name := old(m.many)[name] + [n]] else old(m.many)
  {
    var left := members;
    while left != {}
      invariant left <= members
      invariant forall m :: m in nodes ==> m.one == old(m.one)
      invariant forall m :: m in nodes ==>
        m.many == if m in members && m !in left then old(m.many)[name := old(m.many)[name] + [n]] else old(m.many)
      decreases left
    {
      var m :| m in left;
      m.many := m.many[name := m.many[name] + [n]];
      left := left - {m};
    }
  }

  /** Every node holds what it held before, except for the list of one edge. */
  ghost predicate Lists(nodes: seq<Node>, before: seq<Tree>, name: string, lists: seq<seq<Tree>>)
    reads nodes
  {
    && |nodes| == |before| == |lists|
    && forall i :: 0 <= i < |nodes| ==> nodes[i].View() == before[i].(many := before[i].many[name := lists[i]])
  }

  ghost function Appended(nodes: seq<Node>, members: set<Node>, lists: seq<seq<Tree>>, n: Tree): (r: seq<seq<Tree>>)
    requires |nodes| == |lists|
    ensures |r| == |lists|
    ensures forall i :: 0 <= i < |r| ==> r[i] == if nodes[i] in members then lists[i] + [n] else lists[i]
  {
    seq(|lists|, i requires 0 <= i < |lists| => if nodes[i] in members then lists[i] + [n] else lists[i])
  }

  method AppendStep(nodes: seq<Node>, members: set<Node>, name: string, n: Tree,
                    ghost before: seq<Tree>, ghost lists: seq<seq<Tree>>)
    requires Lists(nodes, before, name, lists)
    requires forall m :: m in members ==> m in nodes
    modifies nodes
    ensures Lists(nodes, before, name, Appended(nodes, members, lists, n))
  {
    assert forall i :: 0 <= i < |nodes| ==> nodes[i].many == before[i].many[name := lists[i]];
    AppendToAll(nodes, members, name, n);
    ghost var lists' := Appended(nodes, members, lists, n);
    forall i | 0 <= i < |nodes|
      ensures nodes[i].View() == before[i].(many := before[i].many[name := lists'[i]])
    {
      assert nodes[i] in nodes;
      assert nodes[i].one == before[i].one;
    }
  }

  /******* O2M: nodes indexed by ID *******/

  /** The map holds nodes under their own IDs. */
  predicate OwnIds(byID: map<int, Node>) {
    forall id :: id in byID ==> Id(byID[id].row) == id
  }

  /** The last node with each ID: what a map from IDs to nodes ends up holding. */
  predicate IsIndex(nodes: seq<Node>, index: map<int, Node>) {
    && (forall n :: n in nodes ==> Id(n.row) in index)
    && OwnIds(index)
    && (forall id :: id in index ==> index[id] in nodes)
    && (forall i :: 0 <= i < |nodes| && IsLast(nodes, i) ==> index[Id(nodes[i].row)] == nodes[i])
  }

  predicate IsLast(nodes: seq<Node>, i: nat)
    requires i < |nodes|
  {
    forall j :: i < j < |nodes| ==> Id(nodes[j].row) != Id(nodes[i].row)
  }

  /** Indexes the nodes by ID and gives each an empty list to start with. */
  method IndexById(nodes: seq<Node>, name: string) returns (ids: seq<int>, index: map<int, Node>)
    requires Distinct(nodes)
    modifies nodes
    ensures |ids| == |nodes| && forall i :: 0 <= i < |ids| ==> ids[i] == Id(nodes[i].row)
    ensures IsIndex(nodes, index)
    ensures Lists(nodes, old(Views(nodes)), name, seq(|nodes|, i => []))
  {
    ids, index := [], map[];
    for i := 0 to |nodes|
      invariant |ids| == i && forall j :: 0 <= j < i ==> ids[j] == Id(nodes[j].row)
      invariant IsIndex(nodes[..i], index)
      invariant forall j :: 0 <= j < |nodes| ==> nodes[j].one == old(nodes[j].one)
      invariant forall j :: 0 <= j < |nodes| ==>
        nodes[j].many == if j < i then old(nodes[j].many)[name := []] else old(nodes[j].many)
    {
      ids := ids + [Id(nodes[i].row)];
      assert nodes[..i + 1] == nodes[..i] + [nodes[i]];
      IndexSnoc(nodes[..i], index, nodes[i]);
      index := index[Id(nodes[i].row) := nodes[i]];
      nodes[i].many := nodes[i].many[name := []];
    }
    assert nodes[..|nodes|] == nodes;
  }

  lemma IndexSnoc(nodes: seq<Node>, index: map<int, Node>, n: Node)
    requires IsIndex(nodes, index)
    ensures IsIndex(nodes + [n], index[Id(n.row) := n])
  {
    var more := nodes + [n];
    forall i | 0 <= i < |more| && IsLast(more, i)
      ensures index[Id(n.row) := n][Id(more[i].row)] == more[i]
    {
      if i < |nodes| {
        assert Id(more[|nodes|].row) != Id(more[i].row);
        forall j | i < j < |nodes| ensures Id(nodes[j].row) != Id(nodes[i].row) {
          assert more[j] == nodes[j];
        }
        assert IsLast(nodes, i);
      }
    }
  }

  /** The error that the first bad neighbor causes, if there is one. */
  function KeyError(index: map<int, Node>, e: Edge, ns: seq<Tree>): Option<Error>
    requires e.O2M?
  {
    if ns == [] then None
    else
      var first := KeyError(index, e, ns[..|ns| - 1]);
      if first.Some? then first
      else
        match ForeignKey(ns[|ns| - 1].row, e.fk, e.required)
        case None => Some(NilForeignKey)
        case Some(id) => if id in index then None else Some(UnexpectedKey)
  }

  lemma {:induction false} KeyErrorExactly(index: map<int, Node>, e: Edge, ns: seq<Tree>)
    requires e.O2M?
    ensures KeyError(index, e, ns).None? <==>
            forall j :: 0 <= j < |ns| ==>
              var key := ForeignKey(ns[j].row, e.fk, e.required);
              key.Some? && key.value in index
  {
    if ns != [] {
      var init := ns[..|ns| - 1];
      KeyErrorExactly(index, e, init);
      if KeyError(index, e, init).Some? {
        var j :| 0 <= j < |init| &&
                 !(var key := ForeignKey(init[j].row, e.fk, e.required); key.Some? && key.value in index);
        assert ns[j] == init[j];
      }
    }
  }

  lemma {:induction false} KeyErrorPrefix(index: map<int, Node>, e: Edge, ns: seq<Tree>, j: nat)
    requires e.O2M? && j <= |ns|
    requires KeyError(index, e, ns[..j]).Some?
    ensures KeyError(index, e, ns) == KeyError(index, e, ns[..j])
    decreases |ns| - j
  {
    if j < |ns| {
      assert ns[..j + 1][..j] == ns[..j];
      KeyErrorPrefix(index, e, ns, j + 1);
    } else {
      assert ns[..j] == ns;
    }
  }

  /** The index holds this very node under its ID. By LastIsIndexed below, that
      is so exactly if no later node has the same ID. */
  predicate Indexed(index: map<int, Node>, n: Node) {
    Id(n.row) in index && index[Id(n.row)] == n
  }

  /** The list of a node: its neighbors, if the node can be found by its ID. */
  function ListOf(index: map<int, Node>, n: Node, e: Edge, ns: seq<Tree>): seq<Tree>
    requires e.O2M?
  {
    if Indexed(index, n) then KeepKey(ns, e.fk, e.required, Id(n.row)) else []
  }

  ghost function AllLists(nodes: seq<Node>, index: map<int, Node>, e: Edge, ns: seq<Tree>): (r: seq<seq<Tree>>)
    requires e.O2M?
    ensures |r| == |nodes|
    ensures forall i :: 0 <= i < |r| ==> r[i] == ListOf(index, nodes[i], e, ns)
  {
    seq(|nodes|, i requires 0 <= i < |nodes| => ListOf(index, nodes[i], e, ns))
  }

  lemma AllListsSnoc(nodes: seq<Node>, index: map<int, Node>, e: Edge, ns: seq<Tree>, j: nat, id: int)
    requires e.O2M? && j < |ns| && OwnIds(index)
    requires ForeignKey(ns[j].row, e.fk, e.required) == Some(id) && id in index
    ensures AllLists(nodes, index, e, ns[..j + 1]) == Appended(nodes, {index[id]}, AllLists(nodes, index, e, ns[..j]), ns[j])
  {
    assert ns[..j + 1][..j] == ns[..j];
  }

  /** Appends every neighbor to the one node that its foreign key names. */
  method AssignMany(nodes: seq<Node>, index: map<int, Node>, e: Edge, ns: seq<Tree>, ghost before: seq<Tree>)
    returns (err: Option<Error>)
    requires e.O2M? && OwnIds(index) && (forall id :: id in index ==> index[id] in nodes)
    requires Lists(nodes, before, e.name, seq(|nodes|, i => []))
    modifies nodes
    ensures err == KeyError(index, e, ns)
    ensures err.None? ==> Lists(nodes, before, e.name, AllLists(nodes, index, e, ns))
  {
    assert AllLists(nodes, index, e, ns[..0]) == seq(|nodes|, i => []);
    for j := 0 to |ns|
      invariant KeyError(index, e, ns[..j]).None?
      invariant Lists(nodes, before, e.name, AllLists(nodes, index, e, ns[..j]))
    {
      assert ns[..j + 1][..j] == ns[..j];
      var key := ForeignKey(ns[j].row, e.fk, e.required);
      if key.None? {
        KeyErrorPrefix(index, e, ns, j + 1);
        return Some(NilForeignKey);
      }
      if key.value !in index {
        KeyErrorPrefix(index, e, ns, j + 1);
        return Some(UnexpectedKey);
      }
      AllListsSnoc(nodes, index, e, ns, j, key.value);
      AppendStep(nodes, {index[key.value]}, e.name, ns[j], before, AllLists(nodes, index, e, ns[..j]));
    }
    assert ns[..|ns|] == ns;
    err := None;
  }

  /** The index holds a node exactly if no later node has the same ID. */
  lemma LastIsIndexed(nodes: seq<Node>, index: map<int, Node>, i: nat)
    requires i < |nodes| && Distinct(nodes) && IsIndex(nodes, index)
    ensures Indexed(index, nodes[i]) <==> IsLast(nodes, i)
  {
    if !IsLast(nodes, i) {
      var j := LastAfter(nodes, i);
      assert nodes[i] != nodes[j];
    }
  }

  lemma LastAfter(nodes: seq<Node>, i: nat) returns (j: nat)
    requires i < |nodes| && !IsLast(nodes, i)
    ensures i < j < |nodes| && Id(nodes[j].row) == Id(nodes[i].row) && IsLast(nodes, j)
    decreases |nodes| - i
  {
    j :| i < j < |nodes| && Id(nodes[j].row) == Id(nodes[i].row);
    if !IsLast(nodes, j) {
      j := LastAfter(nodes, j);
    }
  }

  /******* M2M: neighbors de-duplicated while their rows are read *******/

  /** The variables that the row callback of a joined query captures. */
  class JoinHook {
    const byID: map<int, Node>
    var nids: map<int, set<Node>>

    constructor (byID: map<int, Node>)
      ensures this.byID == byID && nids == map[]
    {
      this.byID := byID;
      nids := map[];
    }

    /** Records one join row; the neighbor is decoded only the first time. */
    method Assign(owner: int, id: int) returns (first: bool)
      requires owner in byID
      modifies this
      ensures first <==> id !in old(nids)
      ensures nids == old(nids)[id := (if id in old(nids) then old(nids)[id] else {}) + {byID[owner]}]
      ensures nids.Keys == if first then old(nids.Keys) + {id} else old(nids.Keys)
    {
      first := id !in nids;
      nids := nids[id := (if id in nids then nids[id] else {}) + {byID[owner]}];
    }
  }

  /** What the callback has recorded after the given join rows. */
  ghost predicate Records(nids: map<int, set<Node>>, byID: map<int, Node>, js: seq<Joined>) {
    && (forall j :: 0 <= j < |js| ==> js[j].owner in byID && Id(js[j].row) in nids && byID[js[j].owner] in nids[Id(js[j].row)])
    && (forall id, n :: id in nids && n in nids[id] ==>
          InJoin(js, Id(n.row), id) && Id(n.row) in byID && byID[Id(n.row)] == n)
  }

  /** Reads join rows in any order and with repetitions: one entry per neighbor, none
      missing, in order of first appearance. */
  method ReadJoin(hook: JoinHook, js: seq<Joined>) returns (rows: seq<Row>)
    requires hook.nids == map[] && OwnIds(hook.byID)
    requires forall j :: 0 <= j < |js| ==> js[j].owner in hook.byID
    modifies hook
    ensures rows == FirstOfEach(js, {}) && FirstAppearances(js, rows)
    ensures Records(hook.nids, hook.byID, js)
  {
    rows := ReadRows(hook, js);
    FirstOfEachAppearances(js);
  }

  method ReadRow(hook: JoinHook, j: Joined, ghost js: seq<Joined>) returns (first: bool)
    requires OwnIds(hook.byID) && j.owner in hook.byID && Records(hook.nids, hook.byID, js)
    modifies hook
    ensures first <==> Id(j.row) !in old(hook.nids)
    ensures hook.nids.Keys == if first then old(hook.nids.Keys) + {Id(j.row)} else old(hook.nids.Keys)
    ensures Records(hook.nids, hook.byID, js + [j])
  {
    RecordsSnoc(hook.nids, hook.byID, js, j);
    first := hook.Assign(j.owner, Id(j.row));
  }

  method ReadRows(hook: JoinHook, js: seq<Joined>) returns (rows: seq<Row>)
    requires hook.nids == map[] && OwnIds(hook.byID)
    requires forall j :: 0 <= j < |js| ==> js[j].owner in hook.byID
    modifies hook
    ensures rows == FirstOfEach(js, {})
    ensures Records(hook.nids, hook.byID, js)
  {
    rows := [];
    assert js[0..] == js && hook.nids.Keys == {};
    assert [] + FirstOfEach(js, {}) == FirstOfEach(js, {});
    for j := 0 to |js|
      invariant FirstOfEach(js, {}) == rows + FirstOfEach(js[j..], hook.nids.Keys)
      invariant Records(hook.nids, hook.byID, js[..j])
    {
      assert js[..j + 1] == js[..j] + [js[j]];
      FirstOfEachStep(js, j, rows, hook.nids.Keys);
      var first := ReadRow(hook, js[j], js[..j]);
      if first {
        rows := rows + [js[j].row];
      }
    }
    assert js[|js|..] == [] && js[..|js|] == js;
  }

  lemma FirstOfEachStep(js: seq<Joined>, j: nat, rows: seq<Row>, seen: set<int>)
    requires j < |js|
    requires FirstOfEach(js, {}) == rows + FirstOfEach(js[j..], seen)
    ensures FirstOfEach(js, {}) ==
            if Id(js[j].row) in seen then rows + FirstOfEach(js[j + 1..], seen)
            else rows + [js[j].row] + FirstOfEach(js[j + 1..], seen + {Id(js[j].row)})
  {
    assert js[j..][1..] == js[j + 1..];
    var rest := FirstOfEach(js[j + 1..], seen + {Id(js[j].row)});
    assert rows + ([js[j].row] + rest) == rows + [js[j].row] + rest;
  }

  lemma RecordsSnoc(nids: map<int, set<Node>>, byID: map<int, Node>, js: seq<Joined>, j: Joined)
    requires Records(nids, byID, js) && j.owner in byID && OwnIds(byID)
    ensures var id := Id(j.row);
            Records(nids[id := (if id in nids then nids[id] else {}) + {byID[j.owner]}], byID, js + [j])
  {
    assert (js + [j])[..|js|] == js;
  }

  /** A node is recorded for a neighbor exactly if a join row connects the two. */
  ghost predicate Connects(nodes: seq<Node>, nids: map<int, set<Node>>, byID: map<int, Node>, js: seq<Joined>) {
    forall id :: id in nids ==>
      && (forall n :: n in nids[id] ==> n in nodes)
      && (forall n :: n in nodes ==> (n in nids[id] <==> Indexed(byID, n) && InJoin(js, Id(n.row), id)))
  }

  lemma RecordsConnect(nodes: seq<Node>, nids: map<int, set<Node>>, byID: map<int, Node>, js: seq<Joined>)
    requires forall id :: id in byID ==> byID[id] in nodes
    requires Records(nids, byID, js)
    ensures Connects(nodes, nids, byID, js)
  {
    forall id, n | id in nids && n in nids[id] ensures n in nodes && Indexed(byID, n) && InJoin(js, Id(n.row), id) {
      assert byID[Id(n.row)] == n;
    }
    forall id, n | id in nids && n in nodes && Indexed(byID, n) && InJoin(js, Id(n.row), id)
      ensures n in nids[id]
    {
      InJoinExactly(js, Id(n.row), id);
      var j :| 0 <= j < |js| && js[j].owner == Id(n.row) && Id(js[j].row) == id;
      assert byID[js[j].owner] in nids[id];
    }
  }

  function JoinListOf(byID: map<int, Node>, n: Node, js: seq<Joined>, ns: seq<Tree>): seq<Tree> {
    if Indexed(byID, n) then KeepJoined(ns, js, Id(n.row)) else []
  }

  ghost function AllJoinLists(nodes: seq<Node>, byID: map<int, Node>, js: seq<Joined>, ns: seq<Tree>): (r: seq<seq<Tree>>)
    ensures |r| == |nodes|
    ensures forall i :: 0 <= i < |r| ==> r[i] == JoinListOf(byID, nodes[i], js, ns)
  {
    seq(|nodes|, i requires 0 <= i < |nodes| => JoinListOf(byID, nodes[i], js, ns))
  }

  lemma AllJoinListsSnoc(nodes: seq<Node>, nids: map<int, set<Node>>, byID: map<int, Node>, js: seq<Joined>, ns: seq<Tree>, j: nat)
    requires j < |ns| && Id(ns[j].row) in nids
    requires Connects(nodes, nids, byID, js)
    ensures AllJoinLists(nodes, byID, js, ns[..j + 1]) ==
            Appended(nodes, nids[Id(ns[j].row)], AllJoinLists(nodes, byID, js, ns[..j]), ns[j])
  {
    assert ns[..j + 1][..j] == ns[..j];
  }

  predicate AllKnown(ids: set<int>, ns: seq<Tree>) {
    ns == [] || (AllKnown(ids, ns[..|ns| - 1]) && Id(ns[|ns| - 1].row) in ids)
  }

  lemma {:induction false} AllKnownExactly(ids: set<int>, ns: seq<Tree>)
    ensures AllKnown(ids, ns) <==> forall j :: 0 <= j < |ns| ==> Id(ns[j].row) in ids
  {
    if ns != [] {
      AllKnownExactly(ids, ns[..|ns| - 1]);
    }
  }

  lemma {:induction false} UnknownPrefix(ids: set<int>, ns: seq<Tree>, j: nat)
    requires j <= |ns| && !AllKnown(ids, ns[..j])
    ensures !AllKnown(ids, ns)
    decreases |ns| - j
  {
    if j < |ns| {
      assert ns[..j + 1][..j] == ns[..j];
      UnknownPrefix(ids, ns, j + 1);
    } else {
      assert ns[..j] == ns;
    }
  }

  /** Gives every neighbor to the nodes recorded for it, in no particular order. */
  method AssignJoined(nodes: seq<Node>, nids: map<int, set<Node>>, e: Edge, ns: seq<Tree>,
                      ghost byID: map<int, Node>, ghost js: seq<Joined>, ghost before: seq<Tree>)
    returns (err: Option<Error>)
    requires e.M2M? && Connects(nodes, nids, byID, js)
    requires Lists(nodes, before, e.name, seq(|nodes|, i => []))
    modifies nodes
    ensures err == if AllKnown(nids.Keys, ns) then None else Some(UnexpectedKey)
    ensures err.None? ==> Lists(nodes, before, e.name, AllJoinLists(nodes, byID, js, ns))
  {
    assert AllJoinLists(nodes, byID, js, ns[..0]) == seq(|nodes|, i => []);
    for j := 0 to |ns|
      invariant AllKnown(nids.Keys, ns[..j])
      invariant Lists(nodes, before, e.name, AllJoinLists(nodes, byID, js, ns[..j]))
    {
      var id := Id(ns[j].row);
      assert ns[..j + 1][..j] == ns[..j];
      if id !in nids {
        UnknownPrefix(nids.Keys, ns, j + 1);
        return Some(UnexpectedKey);
      }
      AllJoinListsSnoc(nodes, nids, byID, js, ns, j);
      AppendStep(nodes, nids[id], e.name, ns[j], before, AllJoinLists(nodes, byID, js, ns[..j]));
    }
    assert ns[..|ns|] == ns;
    err := None;
  }

  /** Reads join rows in any order and with repetitions, and gives the neighbors decoded
      from them to the nodes: every node that can be found by its ID gets the
      duplicate-free list of its neighbors in order of first appearance. */
  method LoadJoinRows(nodes: seq<Node>, byID: map<int, Node>, e: Edge, js: seq<Joined>, ns: seq<Tree>, ghost before: seq<Tree>)
    returns (err: Option<Error>)
    requires e.M2M? && IsIndex(nodes, byID) && ShowFirsts(js, ns)
    requires forall j :: 0 <= j < |js| ==> js[j].owner in byID
    requires Lists(nodes, before, e.name, seq(|nodes|, i => []))
    modifies nodes
    ensures err == None
    ensures forall i :: 0 <= i < |nodes| ==>
      && e.name in nodes[i].many
      && if Indexed(byID, nodes[i]) then JoinedInOrder(js, Id(nodes[i].row), nodes[i].many[e.name])
         else nodes[i].many[e.name] == []
  {
    var hook := new JoinHook(byID);
    var rows := ReadJoin(hook, js);
    RecordsConnect(nodes, hook.nids, byID, js);
    FirstsAreKnown(hook.nids, byID, js, ns);
    err := AssignJoined(nodes, hook.nids, e, ns, byID, js, before);
    forall i | 0 <= i < |nodes|
      ensures nodes[i].View() == before[i].(many := before[i].many[e.name := JoinListOf(byID, nodes[i], js, ns)])
      ensures JoinedInOrder(js, Id(nodes[i].row), KeepJoined(ns, js, Id(nodes[i].row)))
    {
      KeepJoinedInOrder(ns, js, Id(nodes[i].row));
    }
  }

  lemma FirstsAreKnown(nids: map<int, set<Node>>, byID: map<int, Node>, js: seq<Joined>, ns: seq<Tree>)
    requires Records(nids, byID, js) && ShowFirsts(js, ns)
    ensures AllKnown(nids.Keys, ns)
  {
    forall i | 0 <= i < |ns| ensures Id(ns[i].row) in nids.Keys {
      FirstOfEachSound(js, {}, i);
    }
    AllKnownExactly(nids.Keys, ns);
  }
}
