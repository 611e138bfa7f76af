/** What a bulk create does, for every batch and all hooks. */
module BulkFacts {
  import opened Options
  import opened BulkCreate

  /** The mutation that core i accepts, entered at hook k; None if a hook refuses it or
      the check fails. */
  function Final<M, N, S>(env: Env<M, N, S>, i: nat, k: nat, m: M): Option<M>
    requires i < |env.hooks| && k <= |env.hooks[i]|
    decreases |env.hooks[i]| - k
  {
    if k < |env.hooks[i]| then
      match env.hooks[i][k].before(m)
      case None => None
      case Some(m') => Final(env, i, k + 1, m')
    else if env.check(m) then Some(m) else None
  }

  function FinalAt<M, N, S>(env: Env<M, N, S>, i: nat, k: nat, ms: seq<M>, j: nat): Option<M>
    requires i < |env.hooks| == |ms| && k <= |env.hooks[i]| && j < |ms|
  {
    Final(env, j, if j == i then k else 0, ms[j])
  }

  /** The first builder from i on that does not get through. */
  function Reach<M, N, S>(env: Env<M, N, S>, i: nat, k: nat, ms: seq<M>): (r: nat)
    requires i < |env.hooks| == |ms| && k <= |env.hooks[i]|
    ensures i <= r <= |ms|
    decreases |ms| - i
  {
    if Final(env, i, k, ms[i]).None? then i
    else if i + 1 < |ms| then Reach(env, i + 1, 0, ms)
    else |ms|
  }

  lemma {:induction false} ReachExactly<M, N, S>(env: Env<M, N, S>, i: nat, k: nat, ms: seq<M>)
    requires i < |env.hooks| == |ms| && k <= |env.hooks[i]|
    ensures var r := Reach(env, i, k, ms);
            && (forall j :: i <= j < r ==> FinalAt(env, i, k, ms, j).Some?)
            && (r < |ms| ==> FinalAt(env, i, k, ms, r).None?)
    decreases |ms| - i
  {
    if Final(env, i, k, ms[i]).Some? && i + 1 < |ms| {
      ReachExactly(env, i + 1, 0, ms);
      forall j | i <= j < Reach(env, i, k, ms) ensures FinalAt(env, i, k, ms, j).Some? {
        if j > i {
          assert FinalAt(env, i + 1, 0, ms, j).Some?;
        }
      }
    }
  }

  /** Passing a hook changes neither who gets through nor what the cores accept. */
  lemma PastHook<M, N, S>(env: Env<M, N, S>, i: nat, k: nat, ms: seq<M>)
    requires i < |env.hooks| == |ms| && k < |env.hooks[i]|
    requires env.hooks[i][k].before(ms[i]).Some?
    ensures var ms' := ms[i := env.hooks[i][k].before(ms[i]).value];
            && Reach(env, i, k + 1, ms') == Reach(env, i, k, ms)
            && (forall j :: i <= j < |ms| ==> FinalAt(env, i, k + 1, ms', j) == FinalAt(env, i, k, ms, j))
  {
    if i + 1 < |ms| {
      ReachLooksAhead(env, i + 1, ms, ms[i := env.hooks[i][k].before(ms[i]).value]);
    }
  }

  lemma {:induction false} ReachLooksAhead<M, N, S>(env: Env<M, N, S>, i: nat, ms: seq<M>, ms': seq<M>)
    requires i < |env.hooks| == |ms| == |ms'|
    requires forall j :: i <= j < |ms| ==> ms[j] == ms'[j]
    ensures Reach(env, i, 0, ms) == Reach(env, i, 0, ms')
    decreases |ms| - i
  {
    if i + 1 < |ms| {
      ReachLooksAhead(env, i + 1, ms, ms');
    }
  }

  /** Every builder that gets through has its specification filled in from what its
      core accepted; no other slot is touched. */
  ghost predicate Slots<M, N, S>(env: Env<M, N, S>, i: nat, k: nat, st: State<M, N, S>, specs: seq<Option<S>>)
    requires i < |env.hooks| && k <= |env.hooks[i]| && st.Sized(|env.hooks|)
  {
    && |specs| == |env.hooks|
    && forall j :: 0 <= j < |specs| ==>
         specs[j] == if i <= j < Reach(env, i, k, st.mutations) && FinalAt(env, i, k, st.mutations, j).Some?
                     then Some(env.create(FinalAt(env, i, k, st.mutations, j).value).1)
                     else st.specs[j]
  }

  /** The insert happens exactly once, with all specifications, if every builder gets
      through, and otherwise not at all. */
  ghost predicate InsertedOnce<M, N, S>(env: Env<M, N, S>, all: bool, st: State<M, N, S>, st': State<M, N, S>) {
    if all then
      && st'.inserts == st.inserts + [st'.specs]
      && st'.ids == (if env.insert(st'.specs).Inserted? then env.insert(st'.specs).ids else st.ids)
    else st'.inserts == st.inserts && st'.ids == st.ids
  }

  lemma {:induction false} InsertsExactly<M, N, S>(env: Env<M, N, S>, i: nat, k: nat, st: State<M, N, S>)
    requires i < |env.hooks| && k <= |env.hooks[i]| && st.Sized(|env.hooks|)
    ensures var st' := Run(env, i, k, st).0;
            && Slots(env, i, k, st, st'.specs)
            && InsertedOnce(env, Reach(env, i, k, st.mutations) == |env.hooks|, st, st')
    decreases |env.hooks| - i, |env.hooks[i]| - k
  {
    var ms := st.mutations;
    if k < |env.hooks[i]| {
      var before := env.hooks[i][k].before(ms[i]);
      if before.Some? {
        var edited := st.Note(Enter(i, k)).Edit(i, before.value);
        InsertsExactly(env, i, k + 1, edited);
        SlotsPastHook(env, i, k, st, Run(env, i, k + 1, edited).0.specs);
      }
    } else if env.check(ms[i]) && i + 1 < |ms| {
      InsertsExactly(env, i + 1, 0, Fill(env, i, st));
      SlotsPastCore(env, i, st, Run(env, i + 1, 0, Fill(env, i, st)).0.specs);
    }
  }

  lemma SlotsPastHook<M, N, S>(env: Env<M, N, S>, i: nat, k: nat, st: State<M, N, S>, specs: seq<Option<S>>)
    requires i < |env.hooks| && k < |env.hooks[i]| && st.Sized(|env.hooks|)
    requires env.hooks[i][k].before(st.mutations[i]).Some?
    requires Slots(env, i, k + 1, st.Note(Enter(i, k)).Edit(i, env.hooks[i][k].before(st.mutations[i]).value), specs)
    ensures Slots(env, i, k, st, specs)
    ensures var ms' := st.mutations[i := env.hooks[i][k].before(st.mutations[i]).value];
            Reach(env, i, k, st.mutations) == Reach(env, i, k + 1, ms')
  {
    PastHook(env, i, k, st.mutations);
  }

  lemma SlotsPastCore<M, N, S>(env: Env<M, N, S>, i: nat, st: State<M, N, S>, specs: seq<Option<S>>)
    requires i + 1 < |env.hooks| && st.Sized(|env.hooks|) && env.check(st.mutations[i])
    requires Slots(env, i + 1, 0, Fill(env, i, st), specs)
    ensures Slots(env, i, |env.hooks[i]|, st, specs)
  {
    var ms, k := st.mutations, |env.hooks[i]|;
    assert forall j :: i < j < |ms| ==> FinalAt(env, i + 1, 0, ms, j) == FinalAt(env, i, k, ms, j);
  }

  /******* Outcomes, done flags and nodes *******/

  /** What the mutator of builder i answers from hook k on, when the insert answers `last`. */
  function Verdict<M, N, S>(env: Env<M, N, S>, i: nat, k: nat, ms: seq<M>, last: Outcome): Outcome
    requires i < |env.hooks| == |ms| && k <= |env.hooks[i]|
    decreases |ms| - i, |env.hooks[i]| - k
  {
    if k < |env.hooks[i]| then
      var hook := env.hooks[i][k];
      match hook.before(ms[i])
      case None => hook.refusal
      case Some(m) => hook.reply(Verdict(env, i, k + 1, ms[i := m], last))
    else if !env.check(ms[i]) then Failure(CheckFailed(i))
    else if i + 1 < |ms| then Verdict(env, i + 1, 0, ms, last)
    else last
  }

  /** What the core of builder i is told: the answer of the next mutator, or of the insert. */
  function Heard<M, N, S>(env: Env<M, N, S>, i: nat, ms: seq<M>, last: Outcome): Outcome
    requires i < |env.hooks| == |ms|
  {
    if i + 1 < |ms| then Verdict(env, i + 1, 0, ms, last) else last
  }

  lemma {:induction false} VerdictLooksAhead<M, N, S>(env: Env<M, N, S>, i: nat, k: nat, ms: seq<M>, ms': seq<M>, last: Outcome)
    requires i < |env.hooks| == |ms| == |ms'| && k <= |env.hooks[i]|
    requires forall j :: i <= j < |ms| ==> ms[j] == ms'[j]
    ensures Verdict(env, i, k, ms, last) == Verdict(env, i, k, ms', last)
    decreases |ms| - i, |env.hooks[i]| - k
  {
    if k < |env.hooks[i]| {
      var before := env.hooks[i][k].before(ms[i]);
      if before.Some? {
        VerdictLooksAhead(env, i, k + 1, ms[i := before.value], ms'[i := before.value], last);
      }
    } else if i + 1 < |ms| {
      VerdictLooksAhead(env, i + 1, 0, ms, ms', last);
    }
  }

  lemma HeardLooksAhead<M, N, S>(env: Env<M, N, S>, i: nat, ms: seq<M>, m: M, last: Outcome)
    requires i < |env.hooks| == |ms|
    ensures forall j :: i <= j < |ms| ==> Heard(env, j, ms[i := m], last) == Heard(env, j, ms, last)
  {
    forall j | i <= j < |ms| ensures Heard(env, j, ms[i := m], last) == Heard(env, j, ms, last) {
      if j + 1 < |ms| {
        VerdictLooksAhead(env, j + 1, 0, ms[i := m], ms, last);
      }
    }
  }

  /** A mutation is done exactly if its core was reached and heard of a success. */
  ghost predicate DoneFlags<M, N, S>(env: Env<M, N, S>, i: nat, k: nat, st: State<M, N, S>, st': State<M, N, S>)
    requires i < |env.hooks| && k <= |env.hooks[i]| && st.Sized(|env.hooks|) && st'.Sized(|env.hooks|)
  {
    var last := Answer(env.insert(st'.specs));
    forall j :: 0 <= j < |st'.done| ==>
      st'.done[j] == (st.done[j] ||
                      (i <= j < Reach(env, i, k, st.mutations) && Heard(env, j, st.mutations, last) == Success))
  }

  lemma {:induction false} DoneExactly<M, N, S>(env: Env<M, N, S>, i: nat, k: nat, st: State<M, N, S>)
    requires i < |env.hooks| && k <= |env.hooks[i]| && st.Sized(|env.hooks|)
    ensures var (st', out) := Run(env, i, k, st);
            && out == Verdict(env, i, k, st.mutations, Answer(env.insert(st'.specs)))
            && DoneFlags(env, i, k, st, st')
    decreases |env.hooks| - i, |env.hooks[i]| - k
  {
    var ms := st.mutations;
    var last := Answer(env.insert(Run(env, i, k, st).0.specs));
    if k < |env.hooks[i]| {
      var before := env.hooks[i][k].before(ms[i]);
      if before.Some? {
        PastHook(env, i, k, ms);
        HeardLooksAhead(env, i, ms, before.value, last);
        DoneExactly(env, i, k + 1, st.Note(Enter(i, k)).Edit(i, before.value));
      }
    } else if env.check(ms[i]) && i + 1 < |ms| {
      DoneExactly(env, i + 1, 0, Fill(env, i, st));
    }
  }

  /** A builder that got through has its node, with the identifier of its own
      specification once it is done. */
  ghost predicate NodesAligned<M, N, S>(env: Env<M, N, S>, i: nat, k: nat, st: State<M, N, S>, st': State<M, N, S>)
    requires i < |env.hooks| && k <= |env.hooks[i]| && st.Sized(|env.hooks|) && st'.Sized(|env.hooks|)
  {
    var last := Answer(env.insert(st'.specs));
    forall j :: 0 <= j < |st'.nodes| ==>
      st'.nodes[j] ==
      if i <= j < Reach(env, i, k, st.mutations) && FinalAt(env, i, k, st.mutations, j).Some? then
        var node := env.create(FinalAt(env, i, k, st.mutations, j).value).0;
        Some(if Heard(env, j, st.mutations, last) == Success then WithId(env, st', j, node) else node)
      else st.nodes[j]
  }

  lemma {:induction false} NodesExactly<M, N, S>(env: Env<M, N, S>, i: nat, k: nat, st: State<M, N, S>)
    requires i < |env.hooks| && k <= |env.hooks[i]| && st.Sized(|env.hooks|)
    ensures NodesAligned(env, i, k, st, Run(env, i, k, st).0)
    decreases |env.hooks| - i, |env.hooks[i]| - k
  {
    var ms := st.mutations;
    if k < |env.hooks[i]| {
      var before := env.hooks[i][k].before(ms[i]);
      if before.Some? {
        var edited := st.Note(Enter(i, k)).Edit(i, before.value);
        NodesExactly(env, i, k + 1, edited);
        NodesPastHook(env, i, k, st, Run(env, i, k + 1, edited).0);
      }
    } else if env.check(ms[i]) && i + 1 < |ms| {
      NodesExactly(env, i + 1, 0, Fill(env, i, st));
      DoneExactly(env, i + 1, 0, Fill(env, i, st));
      NodesPastCore(env, i, st, Run(env, i + 1, 0, Fill(env, i, st)).0);
    }
  }

  lemma NodesPastHook<M, N, S>(env: Env<M, N, S>, i: nat, k: nat, st: State<M, N, S>, st': State<M, N, S>)
    requires i < |env.hooks| && k < |env.hooks[i]| && st.Sized(|env.hooks|) && st'.Sized(|env.hooks|)
    requires env.hooks[i][k].before(st.mutations[i]).Some?
    requires var m := env.hooks[i][k].before(st.mutations[i]).value;
             NodesAligned(env, i, k + 1, st.Note(Enter(i, k)).Edit(i, m), st')
    ensures NodesAligned(env, i, k, st, st'.Note(Leave(i, k)))
  {
    PastHook(env, i, k, st.mutations);
    var m := env.hooks[i][k].before(st.mutations[i]).value;
    HeardLooksAhead(env, i, st.mutations, m, Answer(env.insert(st'.specs)));
  }

  lemma NodesPastCore<M, N, S>(env: Env<M, N, S>, i: nat, st: State<M, N, S>, st': State<M, N, S>)
    requires i + 1 < |env.hooks| && st.Sized(|env.hooks|) && st'.Sized(|env.hooks|) && env.check(st.mutations[i])
    requires NodesAligned(env, i + 1, 0, Fill(env, i, st), st')
    ensures var out := Heard(env, i, st.mutations, Answer(env.insert(st'.specs)));
            NodesAligned(env, i, |env.hooks[i]|, st, if out.Failure? then st' else Settle(env, i, st'))
  {
    var ms, k := st.mutations, |env.hooks[i]|;
    assert forall j :: i < j < |ms| ==> FinalAt(env, i + 1, 0, ms, j) == FinalAt(env, i, k, ms, j);
    assert st'.nodes[i] == Some(env.create(ms[i]).0);
  }

  /******* The trace *******/

  datatype Place = Place(builder: nat, hook: nat)

  /** All hooks from hook k of builder i on, in lexicographic order. */
  function Places<M, N, S>(env: Env<M, N, S>, i: nat, k: nat): seq<Place>
    requires i < |env.hooks| && k <= |env.hooks[i]|
    decreases |env.hooks| - i, |env.hooks[i]| - k
  {
    if k < |env.hooks[i]| then [Place(i, k)] + Places(env, i, k + 1)
    else if i + 1 < |env.hooks| then Places(env, i + 1, 0)
    else []
  }

  /** The hooks that are entered: all of them, up to the first that refuses or to a failing check. */
  function Entered<M, N, S>(env: Env<M, N, S>, i: nat, k: nat, ms: seq<M>): seq<Place>
    requires i < |env.hooks| == |ms| && k <= |env.hooks[i]|
    decreases |ms| - i, |env.hooks[i]| - k
  {
    if k < |env.hooks[i]| then
      match env.hooks[i][k].before(ms[i])
      case None => [Place(i, k)]
      case Some(m) => [Place(i, k)] + Entered(env, i, k + 1, ms[i := m])
    else if env.check(ms[i]) && i + 1 < |ms| then Entered(env, i + 1, 0, ms)
    else []
  }

  /** Enters the places in order, does something innermost, and leaves in reverse order. */
  function Bracketed(places: seq<Place>, inner: seq<Event>): seq<Event> {
    seq(|places|, a requires 0 <= a < |places| => Enter(places[a].builder, places[a].hook)) +
    inner +
    seq(|places|, a requires 0 <= a < |places| => 
      var p := places[|places| - 1 - a]; Leave(p.builder, p.hook))
  }

  lemma BracketNone(before: seq<Event>, inner: seq<Event>)
    ensures before + Bracketed([], inner) == before + inner
  {
  }

  lemma BracketOne(before: seq<Event>, p: Place, places: seq<Place>, inner: seq<Event>)
    ensures before + Bracketed([p] + places, inner) ==
            before + [Enter(p.builder, p.hook)] + Bracketed(places, inner) + [Leave(p.builder, p.hook)]
  {
    assert Bracketed([p] + places, inner) ==
           [Enter(p.builder, p.hook)] + Bracketed(places, inner) + [Leave(p.builder, p.hook)];
  }

  /** Hooks are entered in lexicographic order, and all of them if every builder gets through. */
  lemma {:induction false} EnteredInOrder<M, N, S>(env: Env<M, N, S>, i: nat, k: nat, ms: seq<M>)
    requires i < |env.hooks| == |ms| && k <= |env.hooks[i]|
    ensures Entered(env, i, k, ms) <= Places(env, i, k)
    ensures Reach(env, i, k, ms) == |env.hooks| ==> Entered(env, i, k, ms) == Places(env, i, k)
    decreases |env.hooks| - i, |env.hooks[i]| - k
  {
    if k < |env.hooks[i]| {
      var before := env.hooks[i][k].before(ms[i]);
      if before.Some? {
        PastHook(env, i, k, ms);
        EnteredInOrder(env, i, k + 1, ms[i := before.value]);
      }
    } else if env.check(ms[i]) && i + 1 < |ms| {
      EnteredInOrder(env, i + 1, 0, ms);
    }
  }

  function Innermost(all: bool): seq<Event> {
    if all then [Insert] else []
  }

  /** The hooks that are entered are bracketed around the insert. */
  lemma {:induction false} TraceExactly<M, N, S>(env: Env<M, N, S>, i: nat, k: nat, st: State<M, N, S>)
    requires i < |env.hooks| && k <= |env.hooks[i]| && st.Sized(|env.hooks|)
    ensures Run(env, i, k, st).0.trace == st.trace +
            Bracketed(Entered(env, i, k, st.mutations), Innermost(Reach(env, i, k, st.mutations) == |env.hooks|))
    decreases |env.hooks| - i, |env.hooks[i]| - k
  {
    var ms := st.mutations;
    var inner := Innermost(Reach(env, i, k, ms) == |env.hooks|);
    if k < |env.hooks[i]| {
      var before := env.hooks[i][k].before(ms[i]);
      if before.Some? {
        PastHook(env, i, k, ms);
        TraceExactly(env, i, k + 1, st.Note(Enter(i, k)).Edit(i, before.value));
        BracketOne(st.trace, Place(i, k), Entered(env, i, k + 1, ms[i := before.value]), inner);
      } else {
        assert [Place(i, k)] + [] == [Place(i, k)];
        BracketOne(st.trace, Place(i, k), [], inner);
        BracketNone(st.Note(Enter(i, k)).trace, inner);
      }
    } else if env.check(ms[i]) && i + 1 < |ms| {
      TraceExactly(env, i + 1, 0, Fill(env, i, st));
    } else {
      BracketNone(st.trace, inner);
    }
  }
}
