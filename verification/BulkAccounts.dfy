/** Bulk creation of accounts and of account groups. */
module BulkAccounts {
  import opened Options
  import opened AccountCodec
  import opened BulkCreate
  import opened BulkSave

  /******* Accounts *******/

  function Accounts(schema: Schema, hooks: seq<seq<Hook<Mutation>>>, insert: seq<Option<CreateSpec>> -> Insertion)
    : Env<Mutation, Account, CreateSpec>
  {
    Env(hooks,
        (m: Mutation) => Complaints(schema, m.values, CHECKS).None?,
        (m: Mutation) => (CreateSpecOf(m).node, CreateSpecOf(m).spec),
        (a: Account, id: int) => a.(id := id),
        insert)
  }

  /** The defaults of a builder; an error stops them and is dropped. */
  function WithDefaults(schema: Schema): Mutation -> Mutation {
    (m: Mutation) => m.(values := Defaulted(schema, m.values, DEFAULTED).0)
  }

  /** If the defaults of any builder fail, then although the error is dropped nothing is
      inserted, no mutation is done, and the save fails with a failing check. */
  lemma DefaultErrorsStopTheBatch(
    schema: Schema, hooks: seq<seq<Hook<Mutation>>>, insert: seq<Option<CreateSpec>> -> Insertion, ms: seq<Mutation>, i: nat)
    requires i < |ms| == |hooks|
    requires Defaulted(schema, ms[i].values, DEFAULTED).1.Some?
    requires AllPassThrough(Accounts(schema, hooks, insert))
    ensures var env := Accounts(schema, hooks, insert);
            var (st, out) := Run(env, 0, 0, Prepared(Start(ms), WithDefaults(schema)));
            && st.inserts == [] && (forall j :: 0 <= j < |ms| ==> !st.done[j])
            && exists j :: 0 <= j <= i && Reported(st, out) == Rejected(CheckFailed(j))
  {
    var env := Accounts(schema, hooks, insert);
    var st := Prepared(Start(ms), WithDefaults(schema));
    SaveStartsFresh(env, ms, WithDefaults(schema));
    DroppedErrorIsCaught(schema, ms[i].values);
    assert !env.check(st.mutations[i]);
    AllOrNothing(env, st);
  }

  /** Reading the row of a mutation back over all columns. */
  function ReadRow(codec: Codec, m: Mutation, id: int): Assigned
    requires Typed(m)
  {
    AssignAll(codec, Account(0, map[], map[]), ALL_COLUMNS, InsertedRow(codec, m, id, ALL_COLUMNS))
  }

  lemma RowReadsBack(codec: Codec, m: Mutation, id: int)
    requires Invertible(codec) && Typed(m)
    ensures ReadRow(codec, m, id).Done?
    ensures SameFields(ReadRow(codec, m, id).account, CreateSpecOf(m).node.(id := id))
  {
    WriteThenRead(codec, m, id);
  }

  /** When the insert succeeds, what is read back for the row of each builder, with the
      identifier that the database gave to it, is the returned node of that builder. */
  lemma BatchReadsBack(
    schema: Schema, hooks: seq<seq<Hook<Mutation>>>, insert: seq<Option<CreateSpec>> -> Insertion,
    codec: Codec, st: State<Mutation, Account, CreateSpec>, j: nat)
    requires Fresh(Accounts(schema, hooks, insert), st) && AllPassThrough(Accounts(schema, hooks, insert))
    requires j < |hooks| && Invertible(codec) && Typed(st.mutations[j])
    ensures var (st', out) := Run(Accounts(schema, hooks, insert), 0, 0, st);
            WasInserted(Accounts(schema, hooks, insert), st') && st'.Id(j).Some? ==>
              && st'.nodes[j].Some? && Reported(st', out) == Nodes(st'.nodes)
              && ReadRow(codec, st.mutations[j], st'.Id(j).value).Done?
              && SameFields(ReadRow(codec, st.mutations[j], st'.Id(j).value).account, st'.nodes[j].value)
  {
    var env := Accounts(schema, hooks, insert);
    AllOrNothing(env, st);
    var st' := Run(env, 0, 0, st).0;
    if WasInserted(env, st') && st'.Id(j).Some? {
      RowReadsBack(codec, st.mutations[j], st'.Id(j).value);
    }
  }

  /******* Account groups *******/

  datatype Link = Link(account: Option<int>, group: Option<int>, priority: Option<int>, createdAt: Option<int>)

  datatype LinkNode = LinkNode(account: int, group: int, priority: int, createdAt: int)

  const DEFAULT_PRIORITY := 50

  function LinkDefaults(now: int): Link -> Link {
    (m: Link) => m.(priority := if m.priority.None? then Some(DEFAULT_PRIORITY) else m.priority,
                    createdAt := if m.createdAt.None? then Some(now) else m.createdAt)
  }

  function OrZero(v: Option<int>): int {
    if v.Some? then v.value else 0
  }

  function LinkOf(m: Link): LinkNode {
    LinkNode(OrZero(m.account), OrZero(m.group), OrZero(m.priority), OrZero(m.createdAt))
  }

  /** Account groups have no identifier of their own to assign. */
  function Links(hooks: seq<seq<Hook<Link>>>, insert: seq<Option<Link>> -> Insertion): Env<Link, LinkNode, Link> {
    Env(hooks,
        (m: Link) => m.account.Some? && m.group.Some? && m.priority.Some? && m.createdAt.Some?,
        (m: Link) => (LinkOf(m), m),
        (n: LinkNode, id: int) => n,
        insert)
  }

  /** The node of a link: its two keys, and what was given or the defaults. */
  predicate IsNodeOf(m: Link, now: int, n: LinkNode) {
    && m.account == Some(n.account) && m.group == Some(n.group)
    && n.priority == (if m.priority.Some? then m.priority.value else 50)
    && n.createdAt == (if m.createdAt.Some? then m.createdAt.value else now)
  }

  /** A batch of account groups is inserted exactly if every builder names an account
      and a group; then every node has the keys of its own builder, and its priority and
      time or the defaults. */
  lemma LinksNeedBothEnds(
    hooks: seq<seq<Hook<Link>>>, insert: seq<Option<Link>> -> Insertion, now: int, ms: seq<Link>)
    requires |ms| == |hooks| > 0 && AllPassThrough(Links(hooks, insert))
    ensures var env := Links(hooks, insert);
            var (st, out) := Run(env, 0, 0, Prepared(Start(ms), LinkDefaults(now)));
            && (|st.inserts| == 1 <==> forall j :: 0 <= j < |ms| ==> ms[j].account.Some? && ms[j].group.Some?)
            && (WasInserted(env, st) ==> forall j :: 0 <= j < |ms| ==>
                  st.done[j] && st.nodes[j].Some? && IsNodeOf(ms[j], now, st.nodes[j].value))
  {
    var env := Links(hooks, insert);
    var st := Prepared(Start(ms), LinkDefaults(now));
    SaveStartsFresh(env, ms, LinkDefaults(now));
    AllOrNothing(env, st);
    assert forall j :: 0 <= j < |ms| ==> (env.check(st.mutations[j]) <==> ms[j].account.Some? && ms[j].group.Some?);
  }
}
