/**
  Bulk creation as a chain of mutators. Mutator i runs the hooks of builder i around its
  core; the core fills slot i and calls mutator i + 1, and the last core performs the one
  insert. Identifiers and done flags are written while the calls unwind.

  M, N and S are the mutations, nodes and specifications of the entity that is created.
 */
module BulkCreate {
  import opened Options

  datatype Error =
    | BadBatch
    | BuilderConflict(builder: nat)
    | MissingConflict
    | CheckFailed(builder: nat)
    | ConstraintViolated
    | InsertFailed
    | HookFailed(code: int)

  datatype Outcome = Success | Failure(error: Error)

  /** What the database answers: an identifier per row where it has one, or an error. */
  datatype Insertion = Inserted(ids: seq<Option<int>>) | Refused(constraint: bool)

  /** A hook looks at the mutation, and either hands it on, possibly edited, and may
      change the answer that comes back, or refuses and answers by itself. */
  datatype Hook<!M> = Hook(before: M -> Option<M>, reply: Outcome -> Outcome, refusal: Outcome)

  /** A closure of the chain: a core, or a hook around another mutator. */
  datatype Mutator<!M> =
    | Core(builder: nat)
    | Wrapped(builder: nat, position: nat, hook: Hook<M>, next: Mutator<M>)

  datatype Event = Enter(builder: nat, hook: nat) | Insert | Leave(builder: nat, hook: nat)

  /** The entity, the hooks of each builder and the database. */
  datatype Env<!M, !N, !S> = Env(
    hooks: seq<seq<Hook<M>>>,
    check: M -> bool,
    create: M -> (N, S),
    assign: (N, int) -> N,
    insert: seq<Option<S>> -> Insertion)

  datatype State<M, N, S> = State(
    mutations: seq<M>,
    nodes: seq<Option<N>>,
    specs: seq<Option<S>>,
    ids: seq<Option<int>>,
    done: seq<bool>,
    inserts: seq<seq<Option<S>>>,
    trace: seq<Event>)
  {
    predicate Sized(n: nat) {
      |mutations| == |nodes| == |specs| == |done| == n
    }

    function Note(e: Event): State<M, N, S> {
      this.(trace := trace + [e])
    }

    function Edit(i: nat, m: M): State<M, N, S>
      requires i < |mutations|
    {
      this.(mutations := mutations[i := m])
    }

    function Id(i: nat): Option<int> {
      if i < |ids| then ids[i] else None
    }
  }

  /** The mutator of a builder from one of its hooks inwards. */
  function Chain<M>(i: nat, hooks: seq<Hook<M>>, k: nat): Mutator<M>
    requires k <= |hooks|
    decreases |hooks| - k
  {
    if k == |hooks| then Core(i) else Wrapped(i, k, hooks[k], Chain(i, hooks, k + 1))
  }

  /******* One run *******/

  function Fill<M, N, S>(env: Env<M, N, S>, i: nat, st: State<M, N, S>): State<M, N, S>
    requires st.Sized(|env.hooks|) && i < |env.hooks|
  {
    var (node, spec) := env.create(st.mutations[i]);
    st.(nodes := st.nodes[i := Some(node)], specs := st.specs[i := Some(spec)])
  }

  function Answer(insertion: Insertion): Outcome {
    match insertion
    case Inserted(_) => Success
    case Refused(constraint) => Failure(if constraint then ConstraintViolated else InsertFailed)
  }

  function InsertAll<M, N, S>(env: Env<M, N, S>, st: State<M, N, S>): (State<M, N, S>, Outcome) {
    var insertion := env.insert(st.specs);
    var st' := st.Note(Insert).(inserts := st.inserts + [st.specs]);
    (if insertion.Inserted? then st'.(ids := insertion.ids) else st', Answer(insertion))
  }

  function WithId<M, N, S>(env: Env<M, N, S>, st: State<M, N, S>, i: nat, node: N): N {
    if st.Id(i).Some? then env.assign(node, st.Id(i).value) else node
  }

  function Settle<M, N, S>(env: Env<M, N, S>, i: nat, st: State<M, N, S>): State<M, N, S>
    requires st.Sized(|env.hooks|) && i < |env.hooks|
  {
    var node := if st.nodes[i].Some? then Some(WithId(env, st, i, st.nodes[i].value)) else None;
    st.(nodes := st.nodes[i := node], done := st.done[i := true])
  }

  /** Calls the mutator of builder i from its hook k inwards. */
  function Run<M, N, S>(env: Env<M, N, S>, i: nat, k: nat, st: State<M, N, S>): (r: (State<M, N, S>, Outcome))
    requires i < |env.hooks| && k <= |env.hooks[i]| && st.Sized(|env.hooks|)
    ensures r.0.Sized(|env.hooks|)
    decreases |env.hooks| - i, |env.hooks[i]| - k
  {
    var hooks := env.hooks[i];
    if k < |hooks| then
      match hooks[k].before(st.mutations[i])
      case None => (st.Note(Enter(i, k)).Note(Leave(i, k)), hooks[k].refusal)
      case Some(m) =>
        var (st', out) := Run(env, i, k + 1, st.Note(Enter(i, k)).Edit(i, m));
        (st'.Note(Leave(i, k)), hooks[k].reply(out))
    else if !env.check(st.mutations[i]) then (st, Failure(CheckFailed(i)))
    else
      var filled := Fill(env, i, st);
      var (st', out) := if i + 1 < |env.hooks| then Run(env, i + 1, 0, filled) else InsertAll(env, filled);
      if out.Failure? then (st', out) else (Settle(env, i, st'), Success)
  }

  /** The bulk builder with the slices that its closures share. */
  class Bulk<M, N, S> {
    const env: Env<M, N, S>
    const err: Option<Error>
    var mutations: seq<M>
    var nodes: seq<Option<N>>
    var specs: seq<Option<S>>
    var ids: seq<Option<int>>
    var done: seq<bool>
    var inserts: seq<seq<Option<S>>>
    var trace: seq<Event>
    var mutators: seq<Mutator<M>>

    constructor (env: Env<M, N, S>, err: Option<Error>, mutations: seq<M>)
      requires |mutations| == |env.hooks|
      ensures this.env == env && this.err == err
      ensures View() == Start(mutations)
    {
      this.env, this.err, this.mutations := env, err, mutations;
      nodes, specs := seq(|mutations|, _ => None), seq(|mutations|, _ => None);
      ids, inserts, trace, mutators := [], [], [], [];
      done := seq(|mutations|, _ => false);
    }

    function View(): State<M, N, S>
      reads this
    {
      State(mutations, nodes, specs, ids, done, inserts, trace)
    }

    ghost predicate Ready()
      reads this
    {
      View().Sized(|env.hooks|) && |mutators| == |env.hooks| &&
      forall i :: 0 <= i < |mutators| ==> mutators[i] == Chain(i, env.hooks[i], 0)
    }

    /** Wraps the core of a builder in its hooks, the first hook outermost. */
    method Wrap(i: nat) returns (mut: Mutator<M>)
      requires i < |env.hooks|
      ensures mut == Chain(i, env.hooks[i], 0)
    {
      mut := Core(i);
      for k := |env.hooks[i]| downto 0
        invariant mut == Chain(i, env.hooks[i], k)
      {
        mut := Wrapped(i, k, env.hooks[i][k], mut);
      }
    }

    method Mutate(mut: Mutator<M>, ghost k: nat) returns (out: Outcome)
      requires Ready() && mut.builder < |env.hooks| && k <= |env.hooks[mut.builder]|
      requires mut == Chain(mut.builder, env.hooks[mut.builder], k)
      modifies this
      ensures Ready() && (View(), out) == Run(env, mut.builder, k, old(View()))
      decreases |env.hooks| - mut.builder, |env.hooks[mut.builder]| - k, 1
    {
      var i := mut.builder;
      if mut.Wrapped? {
        trace := trace + [Enter(i, mut.position)];
        var before := mut.hook.before(mutations[i]);
        if before.None? {
          out := mut.hook.refusal;
        } else {
          mutations := mutations[i := before.value];
          out := Mutate(mut.next, k + 1);
          out := mut.hook.reply(out);
        }
        trace := trace + [Leave(i, mut.position)];
      } else {
        out := RunCore(i);
      }
    }

    method RunCore(i: nat) returns (out: Outcome)
      requires Ready() && i < |env.hooks|
      modifies this
      ensures Ready() && (View(), out) == Run(env, i, |env.hooks[i]|, old(View()))
      decreases |env.hooks| - i, 0, 0
    {
      ghost var start := View();
      if !env.check(mutations[i]) {
        return Failure(CheckFailed(i));
      }
      var (node, spec) := env.create(mutations[i]);
      nodes, specs := nodes[i := Some(node)], specs[i := Some(spec)];
      ghost var filled := View();
      assert filled == Fill(env, i, start);
      if i < |mutators| - 1 {
        out := Mutate(mutators[i + 1], 0);
      } else {
        out := InsertBatch();
      }
      if out.Failure? {
        return;
      }
      ghost var returned := View();
      assert nodes[i := nodes[i]] == nodes;
      if nodes[i].Some? && i < |ids| && ids[i].Some? {
        nodes := nodes[i := Some(env.assign(nodes[i].value, ids[i].value))];
      }
      done := done[i := true];
      assert View() == Settle(env, i, returned);
    }

    /** Performs the one insert, and tells a violated constraint from any other failure. */
    method InsertBatch() returns (out: Outcome)
      modifies this
      ensures mutators == old(mutators) && (View(), out) == InsertAll(env, old(View()))
    {
      var insertion := env.insert(specs);
      inserts, trace := inserts + [specs], trace + [Insert];
      if insertion.Inserted? {
        ids, out := insertion.ids, Success;
      } else {
        out := Failure(if insertion.constraint then ConstraintViolated else InsertFailed);
      }
    }

    /** Creates the whole batch. Builder.defaults is run for its effect only. */
    method Save(defaults: M -> M) returns (r: Saved<N>)
      requires View().Sized(|env.hooks|)
      modifies this
      ensures SavedAs(env, err, defaults, old(View()), View(), r)
    {
      if err.Some? {
        return Rejected(err.value);
      }
      nodes, specs := seq(|mutations|, _ => None), seq(|mutations|, _ => None);
      ids, mutators := [], [];
      for i := 0 to |mutations|
        invariant View() == Prepared(old(View()), defaults).(mutations := mutations)
        invariant |mutations| == |env.hooks| && |mutators| == i
        invariant forall j :: 0 <= j < |mutations| ==>
          mutations[j] == if j < i then defaults(old(mutations[j])) else old(mutations[j])
        invariant forall j :: 0 <= j < i ==> mutators[j] == Chain(j, env.hooks[j], 0)
      {
        mutations := mutations[i := defaults(mutations[i])];
        var mut := Wrap(i);
        mutators := mutators + [mut];
      }
      assert mutations == Prepared(old(View()), defaults).mutations;
      if |mutators| > 0 {
        var out := Mutate(mutators[0], 0);
        if out.Failure? {
          return Rejected(out.error);
        }
      }
      r := Nodes(nodes);
    }

    /** Creates or updates the whole batch, given the numbers of conflict options that
        are set on each builder and on the batch. */
    method Upsert(defaults: M -> M, onBuilders: seq<nat>, onBatch: nat) returns (r: Saved<N>)
      requires View().Sized(|env.hooks|) && |onBuilders| == |env.hooks|
      modifies this
      ensures err.Some? ==> View() == old(View()) && r == Rejected(err.value)
      ensures forall i ::
        err.None? && 0 <= i < |onBuilders| && onBuilders[i] != 0 && (forall j :: 0 <= j < i ==> onBuilders[j] == 0) ==>
        View() == old(View()) && r == Rejected(BuilderConflict(i))
      ensures err.None? && (forall i :: 0 <= i < |onBuilders| ==> onBuilders[i] == 0) ==>
        if onBatch == 0 then View() == old(View()) && r == Rejected(MissingConflict)
        else SavedAs(env, err, defaults, old(View()), View(), r)
    {
      if err.Some? {
        return Rejected(err.value);
      }
      for i := 0 to |onBuilders|
        invariant forall j :: 0 <= j < i ==> onBuilders[j] == 0
      {
        if onBuilders[i] != 0 {
          return Rejected(BuilderConflict(i));
        }
      }
      if onBatch == 0 {
        return Rejected(MissingConflict);
      }
      r := Save(defaults);
    }
  }

  /** The effect of a save: nothing at all if the batch is bad, nothing inserted if it is
      empty, and otherwise a run of the first mutator. */
  ghost predicate SavedAs<M, N, S>(
    env: Env<M, N, S>, err: Option<Error>, defaults: M -> M, st: State<M, N, S>, st': State<M, N, S>, r: Saved<N>)
    requires st.Sized(|env.hooks|)
  {
    if err.Some? then r == Rejected(err.value) && st' == st
    else
      var prepared := Prepared(st, defaults);
      if env.hooks == [] then r == Nodes([]) && st' == prepared
      else st' == Run(env, 0, 0, prepared).0 && r == Reported(st', Run(env, 0, 0, prepared).1)
  }

  datatype Saved<+N> = Nodes(nodes: seq<Option<N>>) | Rejected(error: Error)

  function Reported<M, N, S>(st: State<M, N, S>, out: Outcome): Saved<N> {
    match out
    case Success => Nodes(st.nodes)
    case Failure(error) => Rejected(error)
  }

  /** The state once defaults are filled in and the slices are allocated. */
  function Prepared<M, N, S>(st: State<M, N, S>, defaults: M -> M): State<M, N, S> {
    var n := |st.mutations|;
    st.(mutations := seq(n, i requires 0 <= i < n => defaults(st.mutations[i])),
        nodes := seq(n, _ => None), specs := seq(n, _ => None), ids := [])
  }

  function Start<M, N, S>(mutations: seq<M>): State<M, N, S> {
    var n := |mutations|;
    State(mutations, seq(n, _ => None), seq(n, _ => None), [], seq(n, _ => false), [], [])
  }
}
