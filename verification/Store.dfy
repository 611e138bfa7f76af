/**
  The row store that the generated query builders talk to, and the part of a
  builder that decides which of its rows come back, in which order and with
  which columns.
 */
module Store {
  import opened Options

  datatype Error =
    | InvalidField    // a selected field is not a column of the entity
    | NilForeignKey   // a neighbor came back with a nil foreign key
    | UnexpectedKey   // a neighbor came back with a key nobody asked for
    | ColumnShift     // a row carries one leading column too many, and decoding it panics
    | ColumnCount     // a row has more columns than the slice it is scanned into

  datatype Result<+T> = Err(error: Error) | Ok(value: T) {
    predicate IsFailure() {
      Err?
    }

    function PropagateFailure<U>(): Result<U>
      requires Err?
    {
      Err(error)
    }

    function Extract(): T
      requires Ok?
    {
      value
    }
  }

  /******* Rows *******/

  datatype Value = Null | Int(i: int) | Text(s: string)

  /** A row, or the decoded part of one: a column that is absent was not read. */
  type Row = map<string, Value>

  const ID := "id"

  /** The integer in a column, if there is one. */
  function Key(row: Row, col: string): Option<int> {
    if col in row && row[col].Int? then Some(row[col].i) else None
  }

  /** A foreign key as a decoded node shows it: a required column is a plain
      integer field, which is zero when nothing was read into it. */
  function ForeignKey(row: Row, col: string, required: bool): Option<int> {
    if required && Key(row, col).None? then Some(0) else Key(row, col)
  }

  /** A key that was read is shown as it is; one that was not reads as zero where the field
      is a plain integer, and as nil otherwise. */
  lemma KeysAreShown(row: Row, col: string, i: int, required: bool)
    ensures col in row && row[col] == Int(i) ==> ForeignKey(row, col, required) == Some(i)
    ensures col !in row || row[col] == Null ==> ForeignKey(row, col, true) == Some(0) && ForeignKey(row, col, false) == None
  {
  }

  /** The ID field of a decoded node: also a plain integer field. */
  function Id(row: Row): int {
    ForeignKey(row, ID, true).value
  }

  /** What is left of a row when only the given columns are selected. */
  function Project(row: Row, cols: seq<string>): Row {
    map c | c in row && c in cols :: row[c]
  }

  datatype Database = Database(
    tables: map<string, seq<Row>>,
    joins: map<string, seq<(int, int)>>)
  {
    function Table(name: string): seq<Row> {
      if name in tables then tables[name] else []
    }

    function Pairs(name: string): seq<(int, int)> {
      if name in joins then joins[name] else []
    }
  }

  /** Every row has an ID of its own: the primary-key constraint. */
  ghost predicate UniqueIds(rows: seq<Row>) {
    && (forall i :: 0 <= i < |rows| ==> Key(rows[i], ID).Some?)
    && (forall i, j :: 0 <= i < j < |rows| ==> Id(rows[i]) != Id(rows[j]))
  }

  /******* Predicates *******/

  datatype Pred =
    | Custom(holds: Row -> bool)
    | ColIn(col: string, ids: seq<int>)                // col IN (ids)
    | Linked(pairs: seq<(int, int)>, owners: seq<int>) // joined to one of owners
    | JoinIn(join: string, owners: seq<int>)           // the same, as a JOIN on the selector

  predicate IsLinked(pairs: seq<(int, int)>, owners: seq<int>, id: int) {
    exists k :: 0 <= k < |pairs| && pairs[k].1 == id && pairs[k].0 in owners
  }

  /** A JOIN does not narrow the rows of the entity's own table; what it does is
      described by Joined below. */
  predicate Holds(p: Pred, row: Row) {
    match p
    case Custom(f) => f(row)
    case ColIn(col, ids) => Key(row, col).Some? && Key(row, col).value in ids
    case Linked(pairs, owners) => IsLinked(pairs, owners, Id(row))
    case JoinIn(_, _) => true
  }

  predicate HoldsAll(ps: seq<Pred>, row: Row) {
    forall i :: 0 <= i < |ps| ==> Holds(ps[i], row)
  }

  function Select(ps: seq<Pred>, rows: seq<Row>): seq<Row> {
    if rows == [] then []
    else if HoldsAll(ps, rows[0]) then [rows[0]] + Select(ps, rows[1..])
    else Select(ps, rows[1..])
  }

  /******* Order *******/

  /** Lexicographic comparison on the order terms. */
  predicate Leq(order: seq<Row -> int>, a: Row, b: Row) {
    order == [] ||
    (var f := order[0];
     f(a) < f(b) || (f(a) == f(b) && Leq(order[1..], a, b)))
  }

  function Insert(order: seq<Row -> int>, x: Row, rows: seq<Row>): seq<Row> {
    if rows == [] || Leq(order, x, rows[0]) then [x] + rows
    else [rows[0]] + Insert(order, x, rows[1..])
  }

  /** Ties keep the order of the table. */
  function Sort(order: seq<Row -> int>, rows: seq<Row>): seq<Row> {
    if rows == [] then [] else Insert(order, rows[0], Sort(order, rows[1..]))
  }

  /******* Configuration of one builder *******/

  datatype Config = Config(
    preds: seq<Pred>,
    order: seq<Row -> int>,
    limit: Option<nat>,
    offset: Option<nat>,
    fields: seq<string>,
    locks: seq<string>)
  {
    function Where(p: Pred): Config {
      this.(preds := preds + [p])
    }

    /** Appends a field to a non-empty selection that does not have it yet. */
    function Force(col: string): Config {
      if fields == [] || col in fields then this else this.(fields := fields + [col])
    }

    /** The query specification holds plain integers, so that a limit or an
        offset of zero is the same as none. */
    predicate Unlimited() {
      Skip() == 0 && Take() == 0
    }

    function Skip(): nat {
      if offset.None? then 0 else offset.value
    }

    function Take(): nat {
      if limit.None? then 0 else limit.value
    }
  }

  /** Skips some elements and takes some of the others; zero takes all. */
  function Cut<T>(skip: nat, take: nat, s: seq<T>): seq<T> {
    var rest := if skip <= |s| then s[skip..] else [];
    if take == 0 || |rest| <= take then rest else rest[..take]
  }

  function Window<T>(cfg: Config, s: seq<T>): seq<T> {
    Cut(cfg.Skip(), cfg.Take(), s)
  }

  predicate Distinct<T(==)>(s: seq<T>) {
    forall i, j :: 0 <= i < j < |s| ==> s[i] != s[j]
  }

  datatype Entity = Entity(table: string, columns: seq<string>, hasId: bool)

  predicate ValidFields(entity: Entity, cfg: Config) {
    forall i :: 0 <= i < |cfg.fields| ==> cfg.fields[i] in entity.columns
  }

  /** The rows that meet the predicates, in the requested order. */
  function Matching(db: Database, entity: Entity, cfg: Config): seq<Row> {
    Sort(cfg.order, Select(cfg.preds, db.Table(entity.table)))
  }

  function Rows(db: Database, entity: Entity, cfg: Config): seq<Row> {
    Window(cfg, Matching(db, entity, cfg))
  }

  /******* Join rows *******/

  /** A row of the neighbor's table together with the owner it is joined to. */
  datatype Joined = Joined(owner: int, row: Row)

  function JoinOne(pairs: seq<(int, int)>, owners: seq<int>, row: Row): seq<Joined> {
    if pairs == [] then []
    else if pairs[0].1 == Id(row) && pairs[0].0 in owners then
      [Joined(pairs[0].0, row)] + JoinOne(pairs[1..], owners, row)
    else JoinOne(pairs[1..], owners, row)
  }

  function JoinAll(pairs: seq<(int, int)>, owners: seq<int>, rows: seq<Row>): seq<Joined> {
    if rows == [] then [] else JoinOne(pairs, owners, rows[0]) + JoinAll(pairs, owners, rows[1..])
  }

  /** The JOIN predicates among the predicates of a builder. */
  function Joins(ps: seq<Pred>): seq<Pred> {
    if ps == [] then []
    else if ps[0].JoinIn? then [ps[0]] + Joins(ps[1..])
    else Joins(ps[1..])
  }

  /** The rows that a builder with one JOIN hands to its callback. */
  function JoinRows(db: Database, entity: Entity, cfg: Config): seq<Joined> {
    var js := Joins(cfg.preds);
    if |js| == 1 && js[0].JoinIn? then
      Window(cfg, JoinAll(db.Pairs(js[0].join), js[0].owners, Matching(db, entity, cfg)))
    else []
  }

  function OwnRow(js: seq<Joined>): (rows: seq<Row>)
    ensures |rows| == |js|
    ensures forall i :: 0 <= i < |js| ==> rows[i] == js[i].row
  {
    seq(|js|, i requires 0 <= i < |js| => js[i].row)
  }

  /** The rows that are left, with repetitions, after any number of JOINs. */
  function Multiplied(db: Database, joins: seq<Pred>, rows: seq<Row>): seq<Row> {
    if joins == [] then rows
    else if joins[0].JoinIn? then
      Multiplied(db, joins[1..], OwnRow(JoinAll(db.Pairs(joins[0].join), joins[0].owners, rows)))
    else Multiplied(db, joins[1..], rows)
  }

  /** Every JOIN puts a column in front of a row, and the callback strips just one. */
  predicate Undecodable(db: Database, entity: Entity, cfg: Config) {
    var js := Joins(cfg.preds);
    |js| != 1 && Window(cfg, Multiplied(db, js, Matching(db, entity, cfg))) != []
  }

  /** The first row of each ID that is not among those seen already. */
  function FirstOfEach(js: seq<Joined>, seen: set<int>): seq<Row> {
    if js == [] then []
    else if Id(js[0].row) in seen then FirstOfEach(js[1..], seen)
    else [js[0].row] + FirstOfEach(js[1..], seen + {Id(js[0].row)})
  }

  lemma {:induction false} JoinsAreJoins(ps: seq<Pred>)
    ensures forall i :: 0 <= i < |Joins(ps)| ==> Joins(ps)[i].JoinIn?
  {
    if ps != [] {
      JoinsAreJoins(ps[1..]);
    }
  }

  lemma {:induction false} JoinsAppend(ps: seq<Pred>, p: Pred)
    ensures Joins(ps + [p]) == Joins(ps) + (if p.JoinIn? then [p] else [])
  {
    if ps != [] {
      assert (ps + [p])[1..] == ps[1..] + [p];
      JoinsAppend(ps[1..], p);
    }
  }

  lemma {:induction false} JoinOneMembers(pairs: seq<(int, int)>, owners: seq<int>, row: Row)
    ensures forall j :: j in JoinOne(pairs, owners, row) <==>
              j.row == row && j.owner in owners && (j.owner, Id(row)) in pairs
  {
    if pairs != [] {
      JoinOneMembers(pairs[1..], owners, row);
      assert pairs == [pairs[0]] + pairs[1..];
      if pairs[0].1 == Id(row) {
        assert pairs[0] == (pairs[0].0, Id(row));
      }
    }
  }

  lemma {:induction false} JoinAllMembers(pairs: seq<(int, int)>, owners: seq<int>, rows: seq<Row>)
    ensures forall j :: j in JoinAll(pairs, owners, rows) <==>
              j.row in rows && j.owner in owners && (j.owner, Id(j.row)) in pairs
  {
    if rows != [] {
      JoinOneMembers(pairs, owners, rows[0]);
      JoinAllMembers(pairs, owners, rows[1..]);
      assert rows == [rows[0]] + rows[1..];
    }
  }

  lemma WindowMembers<T>(cfg: Config, s: seq<T>)
    ensures forall x :: x in Window(cfg, s) ==> x in s
  {
  }

  /******* Selection *******/

  lemma {:induction false} SelectMembers(ps: seq<Pred>, rows: seq<Row>)
    ensures forall r :: r in Select(ps, rows) <==> r in rows && HoldsAll(ps, r)
  {
    if rows != [] {
      SelectMembers(ps, rows[1..]);
      assert rows == [rows[0]] + rows[1..];
    }
  }

  lemma PlusAssoc<T>(r: seq<T>, s: seq<T>, t: seq<T>)
    ensures (r + s) + t == r + (s + t)
  {
  }

  lemma {:induction false} SelectConcat(ps: seq<Pred>, a: seq<Row>, b: seq<Row>)
    ensures Select(ps, a + b) == Select(ps, a) + Select(ps, b)
  {
    if a == [] {
      assert a + b == b;
    } else {
      assert (a + b)[0] == a[0] && (a + b)[1..] == a[1..] + b;
      SelectConcat(ps, a[1..], b);
      PlusAssoc([a[0]], Select(ps, a[1..]), Select(ps, b));
    }
  }

  lemma SelectCons(ps: seq<Pred>, x: Row, rows: seq<Row>)
    ensures Select(ps, [x] + rows) == (if HoldsAll(ps, x) then [x] + Select(ps, rows) else Select(ps, rows))
  {
    assert ([x] + rows)[1..] == rows;
  }

  /** One more predicate narrows the rows selected so far. */
  lemma {:induction false} SelectAppend(ps: seq<Pred>, p: Pred, rows: seq<Row>)
    ensures Select(ps + [p], rows) == Select([p], Select(ps, rows))
  {
    if rows != [] {
      SelectAppend(ps, p, rows[1..]);
      assert HoldsAll(ps + [p], rows[0]) <==> HoldsAll(ps, rows[0]) && Holds(p, rows[0]) by {
        assert (ps + [p])[|ps|] == p;
        assert forall i :: 0 <= i < |ps| ==> (ps + [p])[i] == ps[i];
      }
      assert HoldsAll([p], rows[0]) <==> Holds(p, rows[0]) by {
        assert [p][0] == p;
      }
      SelectCons([p], rows[0], Select(ps, rows[1..]));
    }
  }

  lemma HoldsOne(p: Pred, row: Row)
    ensures HoldsAll([p], row) <==> Holds(p, row)
  {
    assert [p][0] == p;
  }

  /** A predicate that implies another makes the other one redundant. */
  lemma {:induction false} SelectNarrow(p: Pred, wider: Pred, rows: seq<Row>)
    requires forall r :: r in rows && Holds(p, r) ==> Holds(wider, r)
    ensures Select([p], Select([wider], rows)) == Select([p], rows)
  {
    if rows != [] {
      HoldsOne(p, rows[0]);
      HoldsOne(wider, rows[0]);
      SelectNarrow(p, wider, rows[1..]);
      SelectCons([p], rows[0], Select([wider], rows[1..]));
    }
  }

  /** Predicates that agree on the rows select the same rows. */
  lemma {:induction false} SelectSame(p: Pred, q: Pred, rows: seq<Row>)
    requires forall r :: r in rows ==> (Holds(p, r) <==> Holds(q, r))
    ensures Select([p], rows) == Select([q], rows)
  {
    if rows != [] {
      HoldsOne(p, rows[0]);
      HoldsOne(q, rows[0]);
      SelectSame(p, q, rows[1..]);
    }
  }

  lemma {:induction false} SelectKeepsUniqueIds(ps: seq<Pred>, rows: seq<Row>)
    requires UniqueIds(rows)
    ensures UniqueIds(Select(ps, rows))
  {
    if rows != [] {
      SelectKeepsUniqueIds(ps, rows[1..]);
      var rest := Select(ps, rows[1..]);
      SelectMembers(ps, rows[1..]);
      forall i | 0 <= i < |rest| ensures Id(rest[i]) != Id(rows[0]) {
        assert rest[i] in rest;
        assert rest[i] in rows[1..];
      }
    }
  }

  /******* Sorting *******/

  lemma {:induction false} LeqTransitive(order: seq<Row -> int>, a: Row, b: Row, c: Row)
    requires Leq(order, a, b) && Leq(order, b, c)
    ensures Leq(order, a, c)
  {
    if order != [] && order[0](a) == order[0](c) {
      LeqTransitive(order[1..], a, b, c);
    }
  }

  lemma {:induction false} LeqTotal(order: seq<Row -> int>, a: Row, b: Row)
    ensures Leq(order, a, b) || Leq(order, b, a)
  {
    if order != [] {
      LeqTotal(order[1..], a, b);
    }
  }

  ghost predicate Sorted(order: seq<Row -> int>, rows: seq<Row>) {
    forall i, j :: 0 <= i < j < |rows| ==> Leq(order, rows[i], rows[j])
  }

  lemma {:induction false} InsertMembers(order: seq<Row -> int>, x: Row, rows: seq<Row>)
    ensures multiset(Insert(order, x, rows)) == multiset{x} + multiset(rows)
  {
    if rows == [] || Leq(order, x, rows[0]) {
    } else {
      InsertMembers(order, x, rows[1..]);
      assert rows == [rows[0]] + rows[1..];
    }
  }

  lemma {:induction false} InsertSorted(order: seq<Row -> int>, x: Row, rows: seq<Row>)
    requires Sorted(order, rows)
    ensures Sorted(order, Insert(order, x, rows))
  {
    if rows == [] {
    } else if Leq(order, x, rows[0]) {
      forall j | 0 <= j < |rows| ensures Leq(order, x, rows[j]) {
        if j > 0 {
          LeqTransitive(order, x, rows[0], rows[j]);
        }
      }
    } else {
      LeqTotal(order, x, rows[0]);
      InsertSorted(order, x, rows[1..]);
      InsertMembers(order, x, rows[1..]);
      var rest := Insert(order, x, rows[1..]);
      forall j | 0 <= j < |rest| ensures Leq(order, rows[0], rest[j]) {
        assert rest[j] in multiset(rest);
        assert rest[j] == x || rest[j] in rows[1..];
      }
    }
  }

  lemma {:induction false} SortSorts(order: seq<Row -> int>, rows: seq<Row>)
    ensures Sorted(order, Sort(order, rows))
    ensures multiset(Sort(order, rows)) == multiset(rows)
  {
    if rows != [] {
      SortSorts(order, rows[1..]);
      InsertSorted(order, rows[0], Sort(order, rows[1..]));
      InsertMembers(order, rows[0], Sort(order, rows[1..]));
      assert rows == [rows[0]] + rows[1..];
    }
  }

  lemma {:induction false} SelectInsert(ps: seq<Pred>, order: seq<Row -> int>, x: Row, rows: seq<Row>)
    requires Sorted(order, rows)
    ensures Select(ps, Insert(order, x, rows)) ==
            if HoldsAll(ps, x) then Insert(order, x, Select(ps, rows)) else Select(ps, rows)
  {
    if rows == [] {
    } else if Leq(order, x, rows[0]) {
      SelectCons(ps, x, rows);
      var kept := Select(ps, rows);
      if kept != [] {
        SelectMembers(ps, rows);
        assert kept[0] in kept;
        assert kept[0] in rows;
        var j :| 0 <= j < |rows| && rows[j] == kept[0];
        if j > 0 {
          LeqTransitive(order, x, rows[0], rows[j]);
        }
      }
    } else {
      SelectInsert(ps, order, x, rows[1..]);
      SelectCons(ps, rows[0], Insert(order, x, rows[1..]));
      var kept := Select(ps, rows[1..]);
      if HoldsAll(ps, rows[0]) {
        assert ([rows[0]] + kept)[1..] == kept;
        assert Select(ps, rows) == [rows[0]] + kept;
      }
    }
  }

  /** A stable sort commutes with selection. */
  lemma {:induction false} SelectSort(ps: seq<Pred>, order: seq<Row -> int>, rows: seq<Row>)
    ensures Select(ps, Sort(order, rows)) == Sort(order, Select(ps, rows))
  {
    if rows != [] {
      SelectSort(ps, order, rows[1..]);
      SortSorts(order, rows[1..]);
      SelectInsert(ps, order, rows[0], Sort(order, rows[1..]));
      var kept := Select(ps, rows[1..]);
      if HoldsAll(ps, rows[0]) {
        assert ([rows[0]] + kept)[1..] == kept;
      } else {
        assert Select(ps, rows) == kept;
      }
    }
  }

  /** Adding a predicate to a builder selects among the rows it gave before. */
  lemma MatchingWhere(db: Database, entity: Entity, cfg: Config, p: Pred)
    ensures Matching(db, entity, cfg.Where(p)) == Select([p], Matching(db, entity, cfg))
  {
    var table := db.Table(entity.table);
    SelectAppend(cfg.preds, p, table);
    SelectSort([p], cfg.order, Select(cfg.preds, table));
  }

  /******* Unique IDs *******/

  /** None of the rows has the given ID. */
  ghost predicate Lacks(rows: seq<Row>, id: int) {
    forall r :: r in rows ==> Id(r) != id
  }

  lemma UniqueCons(x: Row, rows: seq<Row>)
    ensures UniqueIds([x] + rows) <==> Key(x, ID).Some? && Lacks(rows, Id(x)) && UniqueIds(rows)
  {
    var all := [x] + rows;
    assert forall i :: 0 <= i < |rows| ==> all[i + 1] == rows[i];
    if UniqueIds(all) {
      assert Key(all[0], ID).Some?;
      forall r | r in rows ensures Id(r) != Id(x) {
        var i :| 0 <= i < |rows| && rows[i] == r;
        assert Id(all[0]) != Id(all[i + 1]);
      }
    }
  }

  lemma {:induction false} InsertKeepsUniqueIds(order: seq<Row -> int>, x: Row, rows: seq<Row>)
    requires Key(x, ID).Some? && Lacks(rows, Id(x)) && UniqueIds(rows)
    ensures UniqueIds(Insert(order, x, rows))
  {
    UniqueCons(x, rows);
    if rows != [] && !Leq(order, x, rows[0]) {
      assert rows == [rows[0]] + rows[1..];
      UniqueCons(rows[0], rows[1..]);
      InsertKeepsUniqueIds(order, x, rows[1..]);
      InsertMembers(order, x, rows[1..]);
      var rest := Insert(order, x, rows[1..]);
      forall r | r in rest ensures Id(r) != Id(rows[0]) {
        assert r in multiset(rest);
      }
      UniqueCons(rows[0], rest);
    }
  }

  lemma {:induction false} SortKeepsUniqueIds(order: seq<Row -> int>, rows: seq<Row>)
    requires UniqueIds(rows)
    ensures UniqueIds(Sort(order, rows))
  {
    if rows != [] {
      assert rows == [rows[0]] + rows[1..];
      UniqueCons(rows[0], rows[1..]);
      SortKeepsUniqueIds(order, rows[1..]);
      SortSorts(order, rows[1..]);
      var rest := Sort(order, rows[1..]);
      forall r | r in rest ensures r in rows[1..] {
        assert r in multiset(rest);
      }
      InsertKeepsUniqueIds(order, rows[0], rest);
    }
  }

  /** Distinct IDs are carried from a table to every result taken from it. */
  lemma MatchingUniqueIds(db: Database, entity: Entity, cfg: Config)
    requires UniqueIds(db.Table(entity.table))
    ensures UniqueIds(Matching(db, entity, cfg))
    ensures UniqueIds(Rows(db, entity, cfg))
  {
    SelectKeepsUniqueIds(cfg.preds, db.Table(entity.table));
    SortKeepsUniqueIds(cfg.order, Select(cfg.preds, db.Table(entity.table)));
  }
}
