/** Which rows a builder gives, and in which order. */
module RowOrder {
  import opened Store

  /** The first order term in which the rows differ is smaller in the first one. */
  predicate Ascends(order: seq<Row -> int>, a: Row, b: Row) {
    forall t :: 0 <= t < |order| && TiesUpTo(order, a, b, t) ==> order[t](a) <= order[t](b)
  }

  predicate TiesUpTo(order: seq<Row -> int>, a: Row, b: Row, n: nat)
    requires n <= |order|
  {
    forall t :: 0 <= t < n ==> order[t](a) == order[t](b)
  }

  predicate Ties(order: seq<Row -> int>, a: Row, b: Row) {
    TiesUpTo(order, a, b, |order|)
  }

  lemma {:induction false} LeqExactly(order: seq<Row -> int>, a: Row, b: Row)
    ensures Leq(order, a, b) <==> Ascends(order, a, b)
  {
    if order != [] {
      var rest := order[1..];
      LeqExactly(rest, a, b);
      assert TiesUpTo(order, a, b, 0);
      if order[0](a) == order[0](b) {
        forall t | 0 <= t < |rest| ensures TiesUpTo(rest, a, b, t) <==> TiesUpTo(order, a, b, t + 1) {
          TiesCons(order, a, b, t);
        }
        if Ascends(rest, a, b) {
          forall t | 1 <= t < |order| && TiesUpTo(order, a, b, t) ensures order[t](a) <= order[t](b) {
            assert TiesUpTo(rest, a, b, t - 1) && rest[t - 1] == order[t];
          }
        }
        if Ascends(order, a, b) {
          forall t | 0 <= t < |rest| && TiesUpTo(rest, a, b, t) ensures rest[t](a) <= rest[t](b) {
            assert TiesUpTo(order, a, b, t + 1);
          }
        }
      } else {
        forall t | 1 <= t < |order| ensures !TiesUpTo(order, a, b, t) {
        }
      }
    }
  }

  lemma TiesCons(order: seq<Row -> int>, a: Row, b: Row, t: nat)
    requires t < |order| && order[0](a) == order[0](b)
    ensures TiesUpTo(order[1..], a, b, t) <==> TiesUpTo(order, a, b, t + 1)
  {
    assert forall s :: 1 <= s < t + 1 ==> order[1..][s - 1] == order[s];
    if TiesUpTo(order, a, b, t + 1) {
      assert forall s :: 0 <= s < t ==> order[1..][s](a) == order[s + 1](a) == order[s + 1](b);
    }
  }

  lemma {:induction false} TiedStay(order: seq<Row -> int>, rows: seq<Row>)
    requires forall i, j :: 0 <= i < j < |rows| ==> Ties(order, rows[i], rows[j])
    ensures Sort(order, rows) == rows
  {
    if rows != [] {
      var rest := rows[1..];
      TiedStay(order, rest);
      if rest != [] {
        assert Ties(order, rows[0], rows[1]);
        LeqExactly(order, rows[0], rest[0]);
      }
      assert rows == [rows[0]] + rest;
    }
  }

  /** The rows that tie with a given one. */
  function TiedTo(order: seq<Row -> int>, row: Row): Pred {
    Custom((r: Row) => Ties(order, row, r))
  }

  /** A result consists of the table's rows that meet all predicates, as often as they are
      there, in ascending order of the terms, where rows that tie keep the table's order. */
  lemma MatchingExactly(db: Database, entity: Entity, cfg: Config)
    ensures var rows, kept := Matching(db, entity, cfg), Select(cfg.preds, db.Table(entity.table));
            && multiset(rows) == multiset(kept)
            && (forall r :: r in kept <==> r in db.Table(entity.table) && forall i :: 0 <= i < |cfg.preds| ==> Holds(cfg.preds[i], r))
            && (forall i, j :: 0 <= i < j < |rows| ==> Ascends(cfg.order, rows[i], rows[j]))
            && (forall row :: Select([TiedTo(cfg.order, row)], rows) == Select([TiedTo(cfg.order, row)], kept))
  {
    var kept := Select(cfg.preds, db.Table(entity.table));
    var rows := Sort(cfg.order, kept);
    SortSorts(cfg.order, kept);
    SelectMembers(cfg.preds, db.Table(entity.table));
    forall i, j | 0 <= i < j < |rows| ensures Ascends(cfg.order, rows[i], rows[j]) {
      LeqExactly(cfg.order, rows[i], rows[j]);
    }
    forall row ensures Select([TiedTo(cfg.order, row)], rows) == Select([TiedTo(cfg.order, row)], kept) {
      TiesKeepOrder(cfg.order, kept, row);
    }
  }

  lemma TiesKeepOrder(order: seq<Row -> int>, kept: seq<Row>, row: Row)
    ensures Select([TiedTo(order, row)], Sort(order, kept)) == Select([TiedTo(order, row)], kept)
  {
    var p := TiedTo(order, row);
    var tied := Select([p], kept);
    SelectSort([p], order, kept);
    SelectMembers([p], kept);
    forall i, j | 0 <= i < j < |tied| ensures Ties(order, tied[i], tied[j]) {
      assert tied[i] in tied && tied[j] in tied;
      HoldsOne(p, tied[i]);
      HoldsOne(p, tied[j]);
    }
    TiedStay(order, tied);
  }

  /** A window starts behind the offset and holds as many elements as the limit admits;
      a limit or an offset of zero is the same as none. */
  lemma WindowExactly<T>(cfg: Config, s: seq<T>)
    ensures var skipped := if cfg.offset.Some? then cfg.offset.value else 0;
            var rest := if skipped < |s| then |s| - skipped else 0;
            && |Window(cfg, s)| == (if cfg.limit.Some? && 0 < cfg.limit.value < rest then cfg.limit.value else rest)
            && forall i :: 0 <= i < |Window(cfg, s)| ==> Window(cfg, s)[i] == s[skipped + i]
  {
  }
}
