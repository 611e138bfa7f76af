/**
  Join rows in any order and with repetitions: which neighbors come out of them, and in
  what order.
 */
module JoinOrder {
  import opened Store
  import opened EagerLoad

  /** The position of the first join row of a neighbor, or the end if it has none. */
  function FirstAt(js: seq<Joined>, id: int): (k: nat)
    ensures k <= |js|
  {
    if js == [] || Id(js[0].row) == id then 0 else 1 + FirstAt(js[1..], id)
  }

  lemma {:induction false} FirstAtExactly(js: seq<Joined>, id: int)
    ensures FirstAt(js, id) < |js| ==> Id(js[FirstAt(js, id)].row) == id
    ensures forall l :: 0 <= l < FirstAt(js, id) ==> Id(js[l].row) != id
  {
    if js != [] && Id(js[0].row) != id {
      FirstAtExactly(js[1..], id);
      forall l | 0 <= l < FirstAt(js, id) ensures Id(js[l].row) != id {
        if l > 0 {
          assert js[1..][l - 1] == js[l];
        }
      }
    }
  }

  /** The rows are the first join rows of the neighbors, each neighbor once, none missing,
      in order of first appearance. */
  ghost predicate FirstAppearances(js: seq<Joined>, rows: seq<Row>) {
    && (forall i :: 0 <= i < |rows| ==> FirstAt(js, Id(rows[i])) < |js| && js[FirstAt(js, Id(rows[i]))].row == rows[i])
    && (forall i, j :: 0 <= i < j < |rows| ==> FirstAt(js, Id(rows[i])) < FirstAt(js, Id(rows[j])))
    && (forall k :: 0 <= k < |js| ==> exists i :: 0 <= i < |rows| && Id(rows[i]) == Id(js[k].row))
  }

  lemma FirstAtNext(js: seq<Joined>, id: int)
    requires js != [] && Id(js[0].row) != id
    ensures FirstAt(js, id) == 1 + FirstAt(js[1..], id)
  {
  }

  /** Every row that is kept is the first one of a neighbor not seen before. */
  lemma {:induction false} FirstOfEachSound(js: seq<Joined>, seen: set<int>, i: nat)
    requires i < |FirstOfEach(js, seen)|
    ensures var row := FirstOfEach(js, seen)[i];
            Id(row) !in seen && FirstAt(js, Id(row)) < |js| && js[FirstAt(js, Id(row))].row == row
  {
    var id := Id(js[0].row);
    if id in seen {
      FirstOfEachSound(js[1..], seen, i);
      FirstAtNext(js, Id(FirstOfEach(js, seen)[i]));
    } else if i > 0 {
      FirstOfEachSound(js[1..], seen + {id}, i - 1);
      FirstAtNext(js, Id(FirstOfEach(js, seen)[i]));
    }
  }

  lemma {:induction false} FirstOfEachOrdered(js: seq<Joined>, seen: set<int>, i: nat, j: nat)
    requires i < j < |FirstOfEach(js, seen)|
    ensures FirstAt(js, Id(FirstOfEach(js, seen)[i])) < FirstAt(js, Id(FirstOfEach(js, seen)[j]))
  {
    var id := Id(js[0].row);
    var (x, y) := (Id(FirstOfEach(js, seen)[i]), Id(FirstOfEach(js, seen)[j]));
    if id in seen {
      FirstOfEachSound(js, seen, i);
      FirstOfEachSound(js, seen, j);
      FirstOfEachOrdered(js[1..], seen, i, j);
      FirstAtNext(js, x);
      FirstAtNext(js, y);
    } else {
      FirstOfEachSound(js[1..], seen + {id}, j - 1);
      FirstAtNext(js, y);
      if i > 0 {
        FirstOfEachSound(js[1..], seen + {id}, i - 1);
        FirstOfEachOrdered(js[1..], seen + {id}, i - 1, j - 1);
        FirstAtNext(js, x);
      }
    }
  }

  /** No neighbor is missed. */
  lemma {:induction false} FirstOfEachComplete(js: seq<Joined>, seen: set<int>, k: nat) returns (i: nat)
    requires k < |js| && Id(js[k].row) !in seen
    ensures i < |FirstOfEach(js, seen)| && Id(FirstOfEach(js, seen)[i]) == Id(js[k].row)
  {
    var id := Id(js[0].row);
    if Id(js[k].row) == id {
      i := 0;
    } else if id in seen {
      i := FirstOfEachComplete(js[1..], seen, k - 1);
    } else {
      i := FirstOfEachComplete(js[1..], seen + {id}, k - 1);
      i := i + 1;
    }
  }

  /** Keeping the first row of each neighbor misses none and keeps them in order of first
      appearance, for all join rows. */
  lemma FirstOfEachAppearances(js: seq<Joined>)
    ensures FirstAppearances(js, FirstOfEach(js, {}))
  {
    var rows := FirstOfEach(js, {});
    forall i | 0 <= i < |rows| ensures FirstAt(js, Id(rows[i])) < |js| && js[FirstAt(js, Id(rows[i]))].row == rows[i] {
      FirstOfEachSound(js, {}, i);
    }
    forall i, j | 0 <= i < j < |rows| ensures FirstAt(js, Id(rows[i])) < FirstAt(js, Id(rows[j])) {
      FirstOfEachOrdered(js, {}, i, j);
    }
    forall k | 0 <= k < |js| ensures exists i :: 0 <= i < |rows| && Id(rows[i]) == Id(js[k].row) {
      var i := FirstOfEachComplete(js, {}, k);
    }
  }

  /** The neighbors of one owner: no two alike, exactly those that some join row connects
      with the owner, in order of first appearance. */
  ghost predicate JoinedInOrder(js: seq<Joined>, owner: int, list: seq<Tree>) {
    && (forall i, j :: 0 <= i < j < |list| ==> Id(list[i].row) != Id(list[j].row))
    && (forall i, j :: 0 <= i < j < |list| ==> FirstAt(js, Id(list[i].row)) < FirstAt(js, Id(list[j].row)))
    && (forall id :: ListsId(list, id) <==> exists k :: 0 <= k < |js| && js[k].owner == owner && Id(js[k].row) == id)
  }

  ghost predicate ListsId(list: seq<Tree>, id: int) {
    exists i :: 0 <= i < |list| && Id(list[i].row) == id
  }

  /** The neighbors show the rows that were decoded. */
  ghost predicate ShowFirsts(js: seq<Joined>, ns: seq<Tree>) {
    var rows := FirstOfEach(js, {});
    |ns| == |rows| && forall i :: 0 <= i < |ns| ==> Id(ns[i].row) == Id(rows[i])
  }

  ghost predicate InOrder(js: seq<Joined>, ns: seq<Tree>) {
    forall i, j :: 0 <= i < j < |ns| ==> FirstAt(js, Id(ns[i].row)) < FirstAt(js, Id(ns[j].row))
  }

  lemma {:induction false} KeepJoinedMembers(ns: seq<Tree>, js: seq<Joined>, owner: int)
    ensures forall n :: n in KeepJoined(ns, js, owner) <==> n in ns && InJoin(js, owner, Id(n.row))
  {
    if ns != [] {
      KeepJoinedMembers(ns[..|ns| - 1], js, owner);
      assert ns == ns[..|ns| - 1] + [ns[|ns| - 1]];
    }
  }

  lemma {:induction false} KeepJoinedKeepsOrder(ns: seq<Tree>, js: seq<Joined>, owner: int)
    requires InOrder(js, ns)
    ensures InOrder(js, KeepJoined(ns, js, owner))
  {
    if ns != [] {
      var init, last := ns[..|ns| - 1], ns[|ns| - 1];
      KeepJoinedKeepsOrder(init, js, owner);
      KeepJoinedMembers(init, js, owner);
      var kept := KeepJoined(init, js, owner);
      forall i | 0 <= i < |kept| ensures FirstAt(js, Id(kept[i].row)) < FirstAt(js, Id(last.row)) {
        assert kept[i] in init;
        var p :| 0 <= p < |init| && init[p] == kept[i];
        assert FirstAt(js, Id(ns[p].row)) < FirstAt(js, Id(ns[|ns| - 1].row));
      }
    }
  }

  lemma ListedIfJoined(ns: seq<Tree>, js: seq<Joined>, owner: int, k: nat)
    requires ShowFirsts(js, ns) && k < |js| && js[k].owner == owner
    ensures ListsId(KeepJoined(ns, js, owner), Id(js[k].row))
  {
    var list := KeepJoined(ns, js, owner);
    var i := FirstOfEachComplete(js, {}, k);
    InJoinExactly(js, owner, Id(ns[i].row));
    KeepJoinedMembers(ns, js, owner);
    assert ns[i] in list;
    var p :| 0 <= p < |list| && list[p] == ns[i];
  }

  lemma JoinedIfListed(ns: seq<Tree>, js: seq<Joined>, owner: int, id: int)
    requires ListsId(KeepJoined(ns, js, owner), id)
    ensures exists k :: 0 <= k < |js| && js[k].owner == owner && Id(js[k].row) == id
  {
    var list := KeepJoined(ns, js, owner);
    var i :| 0 <= i < |list| && Id(list[i].row) == id;
    KeepJoinedMembers(ns, js, owner);
    assert list[i] in list;
    InJoinExactly(js, owner, id);
  }

  /** For all join rows and every owner, the list that the loader builds is the
      duplicate-free list of the joined neighbors in order of first appearance. */
  lemma KeepJoinedInOrder(ns: seq<Tree>, js: seq<Joined>, owner: int)
    requires ShowFirsts(js, ns)
    ensures JoinedInOrder(js, owner, KeepJoined(ns, js, owner))
  {
    var list := KeepJoined(ns, js, owner);
    forall i, j | 0 <= i < j < |ns| ensures FirstAt(js, Id(ns[i].row)) < FirstAt(js, Id(ns[j].row)) {
      FirstOfEachOrdered(js, {}, i, j);
    }
    KeepJoinedKeepsOrder(ns, js, owner);
    forall id | ListsId(list, id) ensures exists k :: 0 <= k < |js| && js[k].owner == owner && Id(js[k].row) == id {
      JoinedIfListed(ns, js, owner, id);
    }
    forall k | 0 <= k < |js| && js[k].owner == owner ensures ListsId(list, Id(js[k].row)) {
      ListedIfJoined(ns, js, owner, k);
    }
  }
}
