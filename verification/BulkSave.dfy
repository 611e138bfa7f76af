/** The promises of a bulk save: one insert or none, all done or none, and when hooks
    can break them. */
module BulkSave {
  import opened Options
  import opened BulkCreate
  import opened BulkFacts

  /** Slices just allocated and mutations not yet done. */
  ghost predicate Fresh<M, N, S>(env: Env<M, N, S>, st: State<M, N, S>) {
    && st.Sized(|env.hooks|) && |env.hooks| > 0 && st.ids == [] && st.inserts == [] && st.trace == []
    && forall j :: 0 <= j < |env.hooks| ==> st.nodes[j] == None && st.specs[j] == None && !st.done[j]
  }

  /** A save of a new batch runs from fresh slices. */
  lemma SaveStartsFresh<M, N, S>(env: Env<M, N, S>, ms: seq<M>, defaults: M -> M)
    requires |ms| == |env.hooks| > 0
    ensures var prepared := Prepared(Start<M, N, S>(ms), defaults);
            && Fresh(env, prepared)
            && (forall j :: 0 <= j < |ms| ==> prepared.mutations[j] == defaults(ms[j]))
  {
  }

  /** All hooks of builder j hand on its mutation, and the check accepts the result. */
  predicate GetsThrough<M, N, S>(env: Env<M, N, S>, ms: seq<M>, j: nat)
    requires j < |env.hooks| == |ms|
  {
    Final(env, j, 0, ms[j]).Some?
  }

  ghost predicate AllGetThrough<M, N, S>(env: Env<M, N, S>, ms: seq<M>)
    requires |env.hooks| == |ms|
  {
    forall j :: 0 <= j < |ms| ==> GetsThrough(env, ms, j)
  }

  lemma ReachAll<M, N, S>(env: Env<M, N, S>, ms: seq<M>)
    requires |env.hooks| == |ms| > 0
    ensures Reach(env, 0, 0, ms) == |ms| <==> AllGetThrough(env, ms)
    ensures forall j :: 0 <= j < |ms| ==> FinalAt(env, 0, 0, ms, j) == Final(env, j, 0, ms[j])
  {
    ReachExactly(env, 0, 0, ms);
    var r := Reach(env, 0, 0, ms);
    assert forall j :: 0 <= j < |ms| ==> FinalAt(env, 0, 0, ms, j) == Final(env, j, 0, ms[j]);
    if r < |ms| {
      assert !GetsThrough(env, ms, r);
    } else {
      forall j | 0 <= j < |ms| ensures GetsThrough(env, ms, j) {
        assert FinalAt(env, 0, 0, ms, j).Some?;
      }
    }
  }

  /** Whatever hooks do that call the next mutator at most once, the insert is performed
      exactly once, with the specifications of all builders in their order, if every builder
      gets through, and never otherwise. */
  lemma InsertOnceOrNever<M, N, S>(env: Env<M, N, S>, st: State<M, N, S>)
    requires Fresh(env, st)
    ensures var st' := Run(env, 0, 0, st).0;
            && |st'.inserts| == (if AllGetThrough(env, st.mutations) then 1 else 0)
            && (AllGetThrough(env, st.mutations) ==>
                  && |st'.inserts[0]| == |env.hooks|
                  && forall j :: 0 <= j < |env.hooks| ==>
                       && GetsThrough(env, st.mutations, j)
                       && st'.inserts[0][j] == Some(env.create(Final(env, j, 0, st.mutations[j]).value).1))
  {
    InsertsExactly(env, 0, 0, st);
    ReachAll(env, st.mutations);
    var st' := Run(env, 0, 0, st).0;
    if AllGetThrough(env, st.mutations) {
      assert st'.inserts == [st'.specs];
      forall j | 0 <= j < |env.hooks|
        ensures && GetsThrough(env, st.mutations, j)
                && st'.specs[j] == Some(env.create(Final(env, j, 0, st.mutations[j]).value).1)
      {
        assert FinalAt(env, 0, 0, st.mutations, j) == Final(env, j, 0, st.mutations[j]);
      }
    }
  }

  /** The hooks are entered in the order builder 0 hook 0, hook 1, ..., builder 1 hook 0,
      ..., and left in exactly the reverse order; the insert is innermost. */
  lemma HooksAreBracketed<M, N, S>(env: Env<M, N, S>, st: State<M, N, S>)
    requires Fresh(env, st)
    ensures exists entered ::
              && entered <= Places(env, 0, 0)
              && (AllGetThrough(env, st.mutations) ==> entered == Places(env, 0, 0))
              && Run(env, 0, 0, st).0.trace == Bracketed(entered, Innermost(AllGetThrough(env, st.mutations)))
  {
    TraceExactly(env, 0, 0, st);
    EnteredInOrder(env, 0, 0, st.mutations);
    ReachAll(env, st.mutations);
    var entered := Entered(env, 0, 0, st.mutations);
    assert Run(env, 0, 0, st).0.trace == Bracketed(entered, Innermost(AllGetThrough(env, st.mutations)));
  }

  ghost predicate WasInserted<M, N, S>(env: Env<M, N, S>, st: State<M, N, S>) {
    |st.inserts| == 1 && env.insert(st.inserts[0]).Inserted?
  }

  /******* Honest hooks *******/

  /** A hook that never turns a failure into a success. */
  ghost predicate Honest<M>(hook: Hook<M>) {
    hook.refusal.Failure? && forall o: Outcome {:trigger hook.reply(o)} :: o.Failure? ==> hook.reply(o).Failure?
  }

  ghost predicate AllHonest<M, N, S>(env: Env<M, N, S>) {
    forall i :: 0 <= i < |env.hooks| ==> HonestHooks(env.hooks[i])
  }

  ghost predicate HonestHooks<M>(hooks: seq<Hook<M>>) {
    forall k :: 0 <= k < |hooks| ==> Honest(hooks[k])
  }

  /** With honest hooks, a success has come all the way from the insert. */
  lemma {:induction false} SuccessIsInherited<M, N, S>(
    env: Env<M, N, S>, i: nat, k: nat, ms: seq<M>, last: Outcome, j: nat)
    requires i < |env.hooks| == |ms| && k <= |env.hooks[i]| && AllHonest(env)
    requires Verdict(env, i, k, ms, last) == Success && i <= j < |ms|
    ensures Reach(env, i, k, ms) == |ms| && last == Success && Heard(env, j, ms, last) == Success
    decreases |ms| - i, |env.hooks[i]| - k
  {
    if k < |env.hooks[i]| {
      assert HonestHooks(env.hooks[i]) && Honest(env.hooks[i][k]);
      var m := env.hooks[i][k].before(ms[i]).value;
      assert Verdict(env, i, k + 1, ms[i := m], last) == Success;
      SuccessIsInherited(env, i, k + 1, ms[i := m], last, j);
      PastHook(env, i, k, ms);
      HeardLooksAhead(env, i, ms, m, last);
    } else if i + 1 < |ms| {
      assert Verdict(env, i + 1, 0, ms, last) == Success;
      SuccessIsInherited(env, i + 1, 0, ms, last, if j == i then i + 1 else j);
    }
  }

  /** With honest hooks, a done mutation has been inserted, the mutations after it are
      done too, and returned nodes mean that the whole batch is inserted and done. */
  lemma DoneMeansInserted<M, N, S>(env: Env<M, N, S>, st: State<M, N, S>)
    requires Fresh(env, st) && AllHonest(env)
    ensures var (st', out) := Run(env, 0, 0, st);
            && (forall j :: 0 <= j < |env.hooks| && st'.done[j] ==> WasInserted(env, st'))
            && (forall j, l :: 0 <= j <= l < |env.hooks| && st'.done[j] ==> st'.done[l])
            && (out == Success ==> WasInserted(env, st') && forall j :: 0 <= j < |env.hooks| ==> st'.done[j])
  {
    var (st', out) := Run(env, 0, 0, st);
    var last := Answer(env.insert(st'.specs));
    DoneExactly(env, 0, 0, st);
    InsertsExactly(env, 0, 0, st);
    forall j, l | 0 <= j <= l < |env.hooks| && st'.done[j] ensures WasInserted(env, st') && st'.done[l] {
      InheritedFrom(env, st.mutations, last, j, l);
    }
    if out == Success {
      forall l | 0 <= l < |env.hooks| ensures WasInserted(env, st') && st'.done[l] {
        SuccessIsInherited(env, 0, 0, st.mutations, last, l);
      }
      assert st'.done[0];
    }
  }

  lemma InheritedFrom<M, N, S>(env: Env<M, N, S>, ms: seq<M>, last: Outcome, j: nat, l: nat)
    requires j <= l < |env.hooks| == |ms| && AllHonest(env)
    requires j < Reach(env, 0, 0, ms) && Heard(env, j, ms, last) == Success
    ensures last == Success && Reach(env, 0, 0, ms) == |ms| && Heard(env, l, ms, last) == Success
  {
    if j + 1 < |ms| {
      assert Verdict(env, j + 1, 0, ms, last) == Success;
      SuccessIsInherited(env, j + 1, 0, ms, last, if l == j then j + 1 else l);
      ReachFromLater(env, 0, 0, ms, j + 1);
    }
  }

  lemma {:induction false} ReachFromLater<M, N, S>(env: Env<M, N, S>, i: nat, k: nat, ms: seq<M>, j: nat)
    requires i < j < |env.hooks| == |ms| && k <= |env.hooks[i]| && j <= Reach(env, i, k, ms)
    ensures Reach(env, i, k, ms) == Reach(env, j, 0, ms)
    decreases j - i
  {
    if i + 1 < j {
      ReachFromLater(env, i + 1, 0, ms, j);
    }
  }

  /******* Hooks that relay answers *******/

  ghost predicate Relays<M>(hook: Hook<M>) {
    forall o :: hook.reply(o) == o
  }

  ghost predicate AllRelay<M, N, S>(env: Env<M, N, S>) {
    forall i, k :: 0 <= i < |env.hooks| && 0 <= k < |env.hooks[i]| ==> Relays(env.hooks[i][k])
  }

  /** The answer of the hook of builder i that refuses a mutation, if one does. */
  function Refusal<M, N, S>(env: Env<M, N, S>, i: nat, k: nat, m: M): Option<Outcome>
    requires i < |env.hooks| && k <= |env.hooks[i]|
    decreases |env.hooks[i]| - k
  {
    if k == |env.hooks[i]| then None
    else
      match env.hooks[i][k].before(m)
      case None => Some(env.hooks[i][k].refusal)
      case Some(m') => Refusal(env, i, k + 1, m')
  }

  /** The answer at builder i, which does not get through. */
  function StopOutcome<M, N, S>(env: Env<M, N, S>, i: nat, k: nat, m: M): Outcome
    requires i < |env.hooks| && k <= |env.hooks[i]|
  {
    match Refusal(env, i, k, m)
    case Some(o) => o
    case None => Failure(CheckFailed(i))
  }

  /** The answer is that of the first refusal or failing check, or that of the insert. */
  lemma {:induction false} VerdictIsFirstStop<M, N, S>(env: Env<M, N, S>, i: nat, k: nat, ms: seq<M>, last: Outcome)
    requires i < |env.hooks| == |ms| && k <= |env.hooks[i]| && AllRelay(env)
    ensures var r := Reach(env, i, k, ms);
            Verdict(env, i, k, ms, last) == if r < |ms| then StopOutcome(env, r, if r == i then k else 0, ms[r]) else last
    decreases |ms| - i, |env.hooks[i]| - k
  {
    if k < |env.hooks[i]| {
      assert Relays(env.hooks[i][k]);
      var before := env.hooks[i][k].before(ms[i]);
      if before.Some? {
        PastHook(env, i, k, ms);
        VerdictIsFirstStop(env, i, k + 1, ms[i := before.value], last);
      }
    } else if env.check(ms[i]) && i + 1 < |ms| {
      VerdictIsFirstStop(env, i + 1, 0, ms, last);
    }
  }

  lemma HeardIsVerdict<M, N, S>(env: Env<M, N, S>, ms: seq<M>, last: Outcome, j: nat)
    requires j < |env.hooks| == |ms| && AllRelay(env) && j < Reach(env, 0, 0, ms)
    ensures Heard(env, j, ms, last) == Verdict(env, 0, 0, ms, last)
  {
    VerdictIsFirstStop(env, 0, 0, ms, last);
    if j + 1 < |ms| {
      VerdictIsFirstStop(env, j + 1, 0, ms, last);
      ReachFromLater(env, 0, 0, ms, j + 1);
    }
  }

  /** The builder that stops the batch is not the first, and the hook that stops it
      answers that all is well. */
  ghost predicate SilentlyRefused<M, N, S>(env: Env<M, N, S>, ms: seq<M>)
    requires |env.hooks| == |ms| > 0
  {
    var r := Reach(env, 0, 0, ms);
    0 < r < |ms| && Refusal(env, r, 0, ms[r]) == Some(Success)
  }

  /** Mutations are marked done without an insert exactly when a hook of a later builder
      refuses its mutation and reports success. */
  lemma DoneWithoutInsertExactly<M, N, S>(env: Env<M, N, S>, st: State<M, N, S>)
    requires Fresh(env, st) && AllRelay(env)
    ensures var st' := Run(env, 0, 0, st).0;
            (exists j :: 0 <= j < |env.hooks| && st'.done[j] && !WasInserted(env, st')) <==> SilentlyRefused(env, st.mutations)
  {
    var st', ms := Run(env, 0, 0, st).0, st.mutations;
    var last := Answer(env.insert(st'.specs));
    var r := Reach(env, 0, 0, ms);
    InsertsExactly(env, 0, 0, st);
    DoneExactly(env, 0, 0, st);
    VerdictIsFirstStop(env, 0, 0, ms, last);
    forall j | 0 <= j < r ensures Heard(env, j, ms, last) == Verdict(env, 0, 0, ms, last) {
      HeardIsVerdict(env, ms, last, j);
    }
    if SilentlyRefused(env, ms) {
      assert st'.done[0] && !WasInserted(env, st');
    }
  }

  /** Hands on what is not negative, and drops the rest without a complaint. */
  const DROP_NEGATIVES: Hook<int> := Hook((m: int) => if m < 0 then None else Some(m), (o: Outcome) => o, Success)

  const NUMBERS: Env<int, int, int> := Env(
    [[DROP_NEGATIVES], [DROP_NEGATIVES]], (m: int) => true, (m: int) => (m, m), (n: int, id: int) => id,
    (specs: seq<Option<int>>) => Insertion.Inserted([]))

  /** A batch of two in which the hook of the second builder drops its mutation and
      answers success: the first is marked done, and nothing is inserted. */
  lemma SilentRefusal()
    ensures var (st, out) := Run(NUMBERS, 0, 0, Start([1, -1]));
            out == Success && st.done == [true, false] && st.inserts == []
  {
    var st: State<int, int, int> := Start([1, -1]);
    assert NUMBERS.hooks[0] == NUMBERS.hooks[1] == [DROP_NEGATIVES];
    var filled := Fill(NUMBERS, 0, st.Note(Enter(0, 0)).Edit(0, 1));
    assert filled.mutations == [1, -1];
    assert Run(NUMBERS, 1, 0, filled) == (filled.Note(Enter(1, 0)).Note(Leave(1, 0)), Success);
    assert Run(NUMBERS, 0, 1, st.Note(Enter(0, 0)).Edit(0, 1)).0.done == [true, false];
  }

  /******* Pass-through hooks *******/

  ghost predicate PassesThrough<M(!new)>(hook: Hook<M>) {
    Relays(hook) && forall m {:trigger hook.before(m)} :: hook.before(m) == Some(m)
  }

  ghost predicate AllPassThrough<M(!new), N, S>(env: Env<M, N, S>) {
    forall i, k :: 0 <= i < |env.hooks| && 0 <= k < |env.hooks[i]| ==> PassesThrough(env.hooks[i][k])
  }

  lemma {:induction false} FinalIsChecked<M(!new), N, S>(env: Env<M, N, S>, i: nat, k: nat, m: M)
    requires i < |env.hooks| && k <= |env.hooks[i]| && AllPassThrough(env)
    ensures Final(env, i, k, m) == if env.check(m) then Some(m) else None
    ensures Refusal(env, i, k, m) == None
    decreases |env.hooks[i]| - k
  {
    if k < |env.hooks[i]| {
      assert PassesThrough(env.hooks[i][k]);
      FinalIsChecked(env, i, k + 1, m);
    }
  }

  /** Pass-through hooks leave the decision to the checks. */
  lemma ChecksDecide<M(!new), N, S>(env: Env<M, N, S>, ms: seq<M>)
    requires |env.hooks| == |ms| > 0 && AllPassThrough(env)
    ensures var r := Reach(env, 0, 0, ms);
            && (r == |ms| <==> AllChecksPass(env, ms))
            && (forall j :: 0 <= j < r ==> FinalAt(env, 0, 0, ms, j) == Some(ms[j]) && env.check(ms[j]))
            && (r < |ms| ==> !env.check(ms[r]) && Refusal(env, r, 0, ms[r]) == None)
  {
    ReachExactly(env, 0, 0, ms);
    forall j | 0 <= j < |ms| ensures FinalAt(env, 0, 0, ms, j) == if env.check(ms[j]) then Some(ms[j]) else None {
      FinalIsChecked(env, j, 0, ms[j]);
    }
    var r := Reach(env, 0, 0, ms);
    if r < |ms| {
      FinalIsChecked(env, r, 0, ms[r]);
    }
  }

  ghost predicate AllChecksPass<M, N, S>(env: Env<M, N, S>, ms: seq<M>) {
    forall j :: 0 <= j < |ms| ==> env.check(ms[j])
  }

  /** The error is that of the first builder whose check fails. */
  ghost predicate FirstCheckFails<M, N, S>(env: Env<M, N, S>, ms: seq<M>, r: Saved<N>) {
    exists j :: 0 <= j < |ms| && !env.check(ms[j]) && (forall l :: 0 <= l < j ==> env.check(ms[l])) && r == Rejected(CheckFailed(j))
  }

  /** The node with the identifier that the database gave to the j-th row, if it gave one. */
  function Identified<M, N, S>(env: Env<M, N, S>, ids: seq<Option<int>>, j: nat, node: N): N {
    if j < |ids| && ids[j].Some? then env.assign(node, ids[j].value) else node
  }

  /** With hooks that pass everything through, the insert runs exactly once if every
      check passes and never otherwise, with all specifications in builder order. If it
      succeeds, every mutation is done and every node carries the identifier of its own
      specification; if anything fails, no mutation is done, no nodes are returned, and
      the error is that of the first failing check or of the insert. */
  lemma AllOrNothing<M(!new), N, S>(env: Env<M, N, S>, st: State<M, N, S>)
    requires Fresh(env, st) && AllPassThrough(env)
    ensures var (st', out) := Run(env, 0, 0, st);
            var ms := st.mutations;
            && |st'.inserts| == (if AllChecksPass(env, ms) then 1 else 0)
            && (AllChecksPass(env, ms) ==>
                  && |st'.inserts[0]| == |ms|
                  && forall j :: 0 <= j < |ms| ==> st'.inserts[0][j] == Some(env.create(ms[j]).1))
            && (WasInserted(env, st') ==>
                  && Reported(st', out) == Nodes(st'.nodes) && st'.ids == env.insert(st'.inserts[0]).ids
                  && forall j :: 0 <= j < |ms| ==>
                       st'.done[j] && st'.nodes[j] == Some(Identified(env, st'.ids, j, env.create(ms[j]).0)))
            && (!WasInserted(env, st') ==>
                  && (forall j :: 0 <= j < |ms| ==> !st'.done[j])
                  && (AllChecksPass(env, ms) || FirstCheckFails(env, ms, Reported(st', out))))
            && (AllChecksPass(env, ms) ==>
                  && (Reported(st', out) == Rejected(ConstraintViolated) <==> env.insert(st'.inserts[0]) == Refused(true))
                  && (Reported(st', out) == Rejected(InsertFailed) <==> env.insert(st'.inserts[0]) == Refused(false)))
  {
    var (st', out) := Run(env, 0, 0, st);
    var ms, last := st.mutations, Answer(env.insert(Run(env, 0, 0, st).0.specs));
    ChecksDecide(env, ms);
    assert AllRelay(env);
    InsertsExactly(env, 0, 0, st);
    DoneExactly(env, 0, 0, st);
    NodesExactly(env, 0, 0, st);
    VerdictIsFirstStop(env, 0, 0, ms, last);
    forall j | 0 <= j < Reach(env, 0, 0, ms) ensures Heard(env, j, ms, last) == out {
      HeardIsVerdict(env, ms, last, j);
    }
  }

  /** Saves a new batch, which may be empty, and reports what became of it. */
  method SaveNew<M(!new), N, S>(env: Env<M, N, S>, ms: seq<M>, defaults: M -> M)
    returns (r: Saved<N>, inserts: seq<seq<Option<S>>>, done: seq<bool>)
    requires |ms| == |env.hooks| && AllPassThrough(env)
    ensures ms == [] ==> r == Nodes([]) && inserts == []
    ensures |inserts| == if ms != [] && (forall j :: 0 <= j < |ms| ==> env.check(defaults(ms[j]))) then 1 else 0
    ensures r.Nodes? <==> ms == [] || (|inserts| == 1 && env.insert(inserts[0]).Inserted?)
    ensures |done| == |ms| && forall j :: 0 <= j < |ms| ==> (done[j] <==> r.Nodes?)
    ensures r.Nodes? ==> |r.nodes| == |ms| && forall j :: 0 <= j < |ms| ==>
      && |inserts[0]| == |ms| && inserts[0][j] == Some(env.create(defaults(ms[j])).1)
      && r.nodes[j] == Some(Identified(env, env.insert(inserts[0]).ids, j, env.create(defaults(ms[j])).0))
    ensures |inserts| == 1 ==>
      && (r == Rejected(ConstraintViolated) <==> env.insert(inserts[0]) == Refused(true))
      && (r == Rejected(InsertFailed) <==> env.insert(inserts[0]) == Refused(false))
    ensures r.Rejected? && inserts == [] ==>
      exists j :: 0 <= j < |ms| && !env.check(defaults(ms[j])) && r.error == CheckFailed(j) &&
                  forall l :: 0 <= l < j ==> env.check(defaults(ms[l]))
  {
    var bulk := new Bulk(env, None, ms);
    r := bulk.Save(defaults);
    inserts, done := bulk.inserts, bulk.done;
    if ms != [] {
      SaveStartsFresh(env, ms, defaults);
      ghost var prepared := Prepared(Start<M, N, S>(ms), defaults);
      AllOrNothing(env, prepared);
      assert prepared.mutations == seq(|ms|, j requires 0 <= j < |ms| => defaults(ms[j]));
      assert AllChecksPass(env, prepared.mutations) <==> forall j :: 0 <= j < |ms| ==> env.check(defaults(ms[j]));
    }
  }
}
