/** When the order of the findings decides the verdict of the audit gate. */
module AuditOrder {
  import opened Options
  import opened AuditExceptions
  import opened AuditVerdict

  predicate Covered(env: Env, es: seq<Entry>, v: Vuln)
    requires Orderly(env, es)
  {
    exists k :: 0 <= k < |es| && Covers(env, es[k], v)
  }

  /** Every relevant finding, not only the first of its key, is covered. */
  predicate AllCovered(env: Env, es: seq<Entry>, vs: seq<Vuln>)
    requires Orderly(env, es)
  {
    forall i :: 0 <= i < |vs| && Relevant(env, vs[i]) ==> VulnKey(env, vs[i]).1 != "" && Covered(env, es, vs[i])
  }

  /** The finding is relevant, has the key and is covered. */
  predicate CoversKey(env: Env, es: seq<Entry>, v: Vuln, key: ExcKey)
    requires Orderly(env, es)
  {
    Relevant(env, v) && VulnKey(env, v) == key && Covered(env, es, v)
  }

  /** If the finding is relevant, it has an advisory, and some finding with its key is covered. */
  predicate KeyCoveredAt(env: Env, es: seq<Entry>, vs: seq<Vuln>, i: nat)
    requires Orderly(env, es) && i < |vs|
  {
    Relevant(env, vs[i]) ==>
      && VulnKey(env, vs[i]).1 != ""
      && exists j :: 0 <= j < |vs| && CoversKey(env, es, vs[j], VulnKey(env, vs[i]))
  }

  predicate EachKeyCovered(env: Env, es: seq<Entry>, vs: seq<Vuln>)
    requires Orderly(env, es)
  {
    forall i :: 0 <= i < |vs| ==> KeyCoveredAt(env, es, vs, i)
  }

  lemma InPermuted<T>(s: seq<T>, s': seq<T>, i: nat) returns (j: nat)
    requires multiset(s) == multiset(s') && i < |s|
    ensures j < |s'| && s'[j] == s[i]
  {
    assert s[i] in multiset(s');
    j :| 0 <= j < |s'| && s'[j] == s[i];
  }

  lemma MoveToFront<T>(s: seq<T>, i: nat)
    requires i < |s|
    ensures multiset([s[i]] + s[..i] + s[i + 1..]) == multiset(s)
  {
    assert s == s[..i] + [s[i]] + s[i + 1..];
  }

  /** The gate accepts the findings in every order if and only if every relevant one is
      covered by itself. */
  lemma EveryOrderAccepted(env: Env, es: seq<Entry>, vs: seq<Vuln>)
    ensures (forall vs' :: multiset(vs') == multiset(vs) ==> Accepts(env, es, vs')) <==>
            Orderly(env, es) && AllCovered(env, es, vs)
  {
    if forall vs' :: multiset(vs') == multiset(vs) ==> Accepts(env, es, vs') {
      assert Accepts(env, es, vs);
      forall i | 0 <= i < |vs| && Relevant(env, vs[i]) ensures VulnKey(env, vs[i]).1 != "" && Covered(env, es, vs[i]) {
        var vs' := [vs[i]] + vs[..i] + vs[i + 1..];
        MoveToFront(vs, i);
        assert Accepts(env, es, vs') && vs'[0] == vs[i];
        assert CoveredAt(env, es, vs', 0) && FirstOfKey(env, vs', 0);
      }
    }
    if Orderly(env, es) && AllCovered(env, es, vs) {
      forall vs' | multiset(vs') == multiset(vs) ensures Accepts(env, es, vs') {
        forall i | 0 <= i < |vs'| ensures CoveredAt(env, es, vs', i) {
          var j := InPermuted(vs', vs, i);
        }
      }
    }
  }

  /** The first relevant finding with the key of a given one. */
  lemma FirstWithKey(env: Env, vs: seq<Vuln>, p: nat) returns (f: nat)
    requires p < |vs| && Relevant(env, vs[p])
    ensures f <= p && Relevant(env, vs[f]) && VulnKey(env, vs[f]) == VulnKey(env, vs[p]) && FirstOfKey(env, vs, f)
  {
    KeyFreeExactly(env, vs, p, VulnKey(env, vs[p]));
    if FirstOfKey(env, vs, p) {
      f := p;
    } else {
      var j :| 0 <= j < p && Relevant(env, vs[j]) && VulnKey(env, vs[j]) == VulnKey(env, vs[p]);
      f := FirstWithKey(env, vs, j);
    }
  }

  /** The elements that have a property, and the others. */
  ghost function Split<T>(p: T -> bool, s: seq<T>): (seq<T>, seq<T>) {
    if s == [] then ([], [])
    else
      var (front, back) := Split(p, s[1..]);
      if p(s[0]) then ([s[0]] + front, back) else (front, [s[0]] + back)
  }

  lemma {:induction false} SplitPermutes<T>(p: T -> bool, s: seq<T>)
    ensures multiset(Split(p, s).0) + multiset(Split(p, s).1) == multiset(s)
  {
    if s != [] {
      SplitPermutes(p, s[1..]);
      assert s == [s[0]] + s[1..];
    }
  }

  lemma {:induction false} SplitByProperty<T>(p: T -> bool, s: seq<T>)
    ensures forall i :: 0 <= i < |Split(p, s).0| ==> p(Split(p, s).0[i])
    ensures forall i :: 0 <= i < |Split(p, s).1| ==> !p(Split(p, s).1[i])
  {
    if s != [] {
      SplitByProperty(p, s[1..]);
    }
  }

  lemma NotFirstOfKey(env: Env, vs: seq<Vuln>, j: nat, i: nat)
    requires j < i < |vs| && Relevant(env, vs[j]) && VulnKey(env, vs[j]) == VulnKey(env, vs[i])
    ensures !FirstOfKey(env, vs, i)
  {
    KeyFreeExactly(env, vs, i, VulnKey(env, vs[i]));
  }

  /** The gate accepts the findings in some order if and only if every key that a relevant
      finding has is covered at least once. */
  lemma SomeOrderAccepted(env: Env, es: seq<Entry>, vs: seq<Vuln>)
    ensures (exists vs' :: multiset(vs') == multiset(vs) && Accepts(env, es, vs')) <==>
            Orderly(env, es) && EachKeyCovered(env, es, vs)
  {
    if vs' :| multiset(vs') == multiset(vs) && Accepts(env, es, vs') {
      forall i | 0 <= i < |vs| ensures KeyCoveredAt(env, es, vs, i) {
        if Relevant(env, vs[i]) {
          var p := InPermuted(vs, vs', i);
          assert CoveredAt(env, es, vs', p);
          var f := FirstWithKey(env, vs', p);
          assert CoveredAt(env, es, vs', f);
          var j := InPermuted(vs', vs, f);
          assert CoversKey(env, es, vs[j], VulnKey(env, vs[i]));
        }
      }
    }
    if Orderly(env, es) && EachKeyCovered(env, es, vs) {
      CoveredFirstIsAccepted(env, es, vs);
    }
  }

  /** The covered findings stand in front of the others. */
  ghost predicate CoveredFirst(env: Env, es: seq<Entry>, vs: seq<Vuln>)
    requires Orderly(env, es)
  {
    forall l, i :: 0 <= l < |vs| && 0 <= i < |vs| && Covered(env, es, vs[l]) && !Covered(env, es, vs[i]) ==> l < i
  }

  lemma AcceptedAt(env: Env, es: seq<Entry>, vs: seq<Vuln>, i: nat, l: nat)
    requires Orderly(env, es) && CoveredFirst(env, es, vs) && i < |vs| && l < |vs|
    requires VulnKey(env, vs[i]).1 != "" && CoversKey(env, es, vs[l], VulnKey(env, vs[i]))
    ensures CoveredAt(env, es, vs, i)
  {
    if !Covered(env, es, vs[i]) {
      NotFirstOfKey(env, vs, l, i);
    }
  }

  lemma CoveringFinding(env: Env, es: seq<Entry>, vs: seq<Vuln>, vs': seq<Vuln>, i: nat) returns (l: nat)
    requires Orderly(env, es) && EachKeyCovered(env, es, vs) && multiset(vs') == multiset(vs)
    requires i < |vs'| && Relevant(env, vs'[i])
    ensures l < |vs'| && VulnKey(env, vs'[i]).1 != "" && CoversKey(env, es, vs'[l], VulnKey(env, vs'[i]))
  {
    var j := InPermuted(vs', vs, i);
    assert KeyCoveredAt(env, es, vs, j);
    var k :| 0 <= k < |vs| && CoversKey(env, es, vs[k], VulnKey(env, vs[j]));
    l := InPermuted(vs, vs', k);
  }

  lemma CoveredFirstIsAccepted(env: Env, es: seq<Entry>, vs: seq<Vuln>)
    requires Orderly(env, es) && EachKeyCovered(env, es, vs)
    ensures exists vs' :: multiset(vs') == multiset(vs) && Accepts(env, es, vs')
  {
    var p := (v: Vuln) => Covered(env, es, v);
    var (front, back) := Split(p, vs);
    var vs' := front + back;
    SplitPermutes(p, vs);
    SplitByProperty(p, vs);
    assert CoveredFirst(env, es, vs') by {
      assert forall i :: 0 <= i < |vs'| ==> (p(vs'[i]) <==> i < |front|);
    }
    forall i | 0 <= i < |vs'| ensures CoveredAt(env, es, vs', i) {
      if Relevant(env, vs'[i]) {
        var l := CoveringFinding(env, es, vs, vs', i);
        AcceptedAt(env, es, vs', i, l);
      }
    }
    assert Accepts(env, es, vs');
  }

  /** The order decides the verdict exactly if every key is covered but not every finding. */
  lemma OrderDecidesExactly(env: Env, es: seq<Entry>, vs: seq<Vuln>)
    ensures (exists a, b :: multiset(a) == multiset(vs) && multiset(b) == multiset(vs) &&
                            Accepts(env, es, a) && !Accepts(env, es, b)) <==>
            Orderly(env, es) && EachKeyCovered(env, es, vs) && !AllCovered(env, es, vs)
  {
    EveryOrderAccepted(env, es, vs);
    SomeOrderAccepted(env, es, vs);
  }

  /** The order of the vulnerabilities does matter: of two findings with the same
      key only the first is compared, so a stated severity passes or fails with it. */
  lemma VulnOrderMatters(env: Env, e: Entry, high: Vuln, critical: Vuln)
    requires WellFormed(env, e) && NormalSeverity(env, Field(e, "severity")) == "high"
    requires Relevant(env, high) && VulnSeverity(env, high) == "high" && Covers(env, e, high)
    requires Relevant(env, critical) && VulnSeverity(env, critical) == "critical"
    requires VulnKey(env, critical) == VulnKey(env, high)
    ensures Accepts(env, [e], [high, critical]) && !Accepts(env, [e], [critical, high])
  {
    assert Covers(env, [e][0], high);
    var vs, swapped := [high, critical], [critical, high];
    KeyFreeExactly(env, vs, 1, VulnKey(env, critical));
    assert !FirstOfKey(env, vs, 1);
    assert FirstOfKey(env, swapped, 0) && Relevant(env, swapped[0]);
    assert "high" != "critical" by {
      assert |"high"| != |"critical"|;
    }
    assert !Covers(env, e, swapped[0]);
    if Orderly(env, [e]) {
      assert !CoveredAt(env, [e], swapped, 0);
    }
  }

  const GATE := Env((s: string) => s, (s: string) => Some(20300101), (j: Json) => "", 20250101)

  const EXCEPTION: Entry := map[
    "package" := "axios", "advisory" := "ghsa-1", "severity" := "high", "mitigation" := "pinned",
    "expires_on" := "2030-01-01"]

  function Reported(severity: string): Vuln {
    Vuln(Str("axios"), Str(severity), Str("ghsa-1"))
  }

  /** One exception stated as high, and its advisory reported once as high and once as critical. */
  lemma VulnOrderExample()
    ensures Accepts(GATE, [EXCEPTION], [Reported("high"), Reported("critical")])
    ensures !Accepts(GATE, [EXCEPTION], [Reported("critical"), Reported("high")])
  {
    StripTrimmed("axios");
    StripTrimmed("ghsa-1");
    StripTrimmed("high");
    StripTrimmed("critical");
    assert Field(EXCEPTION, "package") == "axios" && Field(EXCEPTION, "advisory") == "ghsa-1";
    assert Field(EXCEPTION, "severity") == "high" && Field(EXCEPTION, "mitigation") == "pinned";
    VulnOrderMatters(GATE, EXCEPTION, Reported("high"), Reported("critical"));
  }
}
