/**
  What the findings say that the gate yields: each is read from an entry of the report by
  the preferences among its keys.
 */
module AuditReport {
  import opened AuditVerdict

  /******* Values *******/

  /** The falsy values of Python. */
  lemma FalsyExactly(j: Json)
    ensures !Truthy(j) <==> j in [Null, Bool(false), Str(""), Arr([]), Obj([])] || (j.Num? && j.zero)
  {
  }

  /** Where a key stands first, that value is found; where it does not stand, none is. */
  lemma {:induction false} GetExactly(fields: seq<(string, Json)>, key: string)
    ensures (forall i :: 0 <= i < |fields| ==> fields[i].0 != key) ==> Get(fields, key) == Null
    ensures forall i :: 0 <= i < |fields| && fields[i].0 == key && (forall j :: 0 <= j < i ==> fields[j].0 != key) ==>
              Get(fields, key) == fields[i].1
  {
    if fields != [] {
      GetExactly(fields[1..], key);
      assert forall i :: 1 <= i < |fields| ==> fields[1..][i - 1] == fields[i];
    }
  }

  /** Everything before the i-th value is falsy, and that value is truthy or the last one. */
  ghost predicate FirstAt(list: seq<Json>, i: nat) {
    && i < |list| && (Truthy(list[i]) || i == |list| - 1)
    && forall j :: 0 <= j < i ==> !Truthy(list[j])
  }

  /** What a chain of "or" gives: the first truthy value, or the last one. */
  ghost predicate FirstTruthy(list: seq<Json>, value: Json) {
    exists i: nat :: FirstAt(list, i) && list[i] == value
  }

  lemma OrIsFirst(a: Json, rest: seq<Json>, value: Json)
    requires FirstTruthy(rest, value)
    ensures FirstTruthy([a] + rest, Or(a, value))
  {
    var list := [a] + rest;
    var i: nat :| FirstAt(rest, i) && rest[i] == value;
    if Truthy(a) {
      assert FirstAt(list, 0);
    } else {
      assert forall j :: 1 <= j < |list| ==> list[j] == rest[j - 1];
      assert FirstAt(list, i + 1);
    }
  }

  lemma OneIsFirst(a: Json)
    ensures FirstTruthy([a], a)
  {
    assert FirstAt([a], 0);
  }

  lemma TwoPrefer(a: Json, b: Json)
    ensures FirstTruthy([a, b], Or(a, b))
  {
    OneIsFirst(b);
    OrIsFirst(a, [b], b);
    assert [a] + [b] == [a, b];
  }

  lemma ThreePrefer(a: Json, b: Json, c: Json)
    ensures FirstTruthy([a, b, c], Or(a, Or(b, c)))
  {
    TwoPrefer(b, c);
    OrIsFirst(a, [b, c], Or(b, c));
    assert [a] + [b, c] == [a, b, c];
  }

  lemma FourPrefer(a: Json, b: Json, c: Json, d: Json)
    ensures FirstTruthy([a, b, c, d], Or(a, Or(b, Or(c, d))))
  {
    ThreePrefer(b, c, d);
    OrIsFirst(a, [b, c, d], Or(b, Or(c, d)));
    assert [a] + [b, c, d] == [a, b, c, d];
  }

  lemma FivePrefer(a: Json, b: Json, c: Json, d: Json, e: Json)
    ensures FirstTruthy([a, b, c, d, e], Or(a, Or(b, Or(c, Or(d, e)))))
  {
    FourPrefer(b, c, d, e);
    OrIsFirst(a, [b, c, d, e], Or(b, Or(c, Or(d, e))));
    assert [a] + [b, c, d, e] == [a, b, c, d, e];
  }

  lemma SixPrefer(a: Json, b: Json, c: Json, d: Json, e: Json, f: Json)
    ensures FirstTruthy([a, b, c, d, e, f], Or(a, Or(b, Or(c, Or(d, Or(e, f))))))
  {
    FivePrefer(b, c, d, e, f);
    OrIsFirst(a, [b, c, d, e, f], Or(b, Or(c, Or(d, Or(e, f)))));
    assert [a] + [b, c, d, e, f] == [a, b, c, d, e, f];
  }

  lemma SevenInRow(a: Json, b: Json, c: Json, d: Json, e: Json, f: Json, g: Json)
    ensures [a] + [b, c, d, e, f, g] == [a, b, c, d, e, f, g]
  {
  }

  lemma SevenPrefer(a: Json, b: Json, c: Json, d: Json, e: Json, f: Json, g: Json)
    ensures FirstTruthy([a, b, c, d, e, f, g], Or(a, Or(b, Or(c, Or(d, Or(e, Or(f, g)))))))
  {
    SixPrefer(b, c, d, e, f, g);
    SevenInRow(a, b, c, d, e, f, g);
    OrIsFirst(a, [b, c, d, e, f, g], Or(b, Or(c, Or(d, Or(e, Or(f, g))))));
  }

  /******* Advisories *******/

  /** The first element of a list or of a text, if there is one. */
  function FirstElement(j: Json): Json {
    if j.Arr? && j.items != [] then j.items[0]
    else if j.Str? && j.s != "" then Str(j.s[..1])
    else Null
  }

  /** A value as a text, where there is one. */
  function Shown(env: Env, j: Json): Json {
    if j == Null then Null else Str(if j.Str? then j.s else env.show(j))
  }

  /** The finding that is read from an advisory. */
  ghost predicate ReadsAdvisory(env: Env, a: seq<(string, Json)>, v: Vuln) {
    && FirstTruthy([Get(a, "module_name"), Get(a, "name")], v.name)
    && v.severity == Get(a, "severity")
    && FirstTruthy([Get(a, "github_advisory_id"), Get(a, "url"), FirstElement(Get(a, "cves")), Shown(env, Get(a, "id")),
                    Get(a, "title"), Get(a, "advisory"), Get(a, "overview")], v.advisory)
  }

  lemma AdvisoryIsRead(env: Env, advisory: Json)
    requires !FromAdvisory(env, advisory).crashed
    ensures var vulns := FromAdvisory(env, advisory).vulns;
            advisory.Obj? && |vulns| == 1 && ReadsAdvisory(env, advisory.fields, vulns[0])
  {
    var a := advisory.fields;
    TwoPrefer(Get(a, "module_name"), Get(a, "name"));
    IdentifierIsPreferred(env, a);
  }

  lemma IdentifierIsPreferred(env: Env, a: seq<(string, Json)>)
    requires PickAdvisoryId(env, a).Some?
    ensures FirstTruthy(
      [Get(a, "github_advisory_id"), Get(a, "url"), FirstElement(Get(a, "cves")), Shown(env, Get(a, "id")),
       Get(a, "title"), Get(a, "advisory"), Get(a, "overview")], PickAdvisoryId(env, a).value)
  {
    SevenPrefer(Get(a, "github_advisory_id"), Get(a, "url"), FirstElement(Get(a, "cves")), Shown(env, Get(a, "id")),
                Get(a, "title"), Get(a, "advisory"), Get(a, "overview"));
    FirstCveIsElement(Get(a, "cves"));
  }

  lemma FirstCveIsElement(cves: Json)
    ensures FirstCve(cves).Some? ==> FirstCve(cves).value == FirstElement(cves)
  {
    if cves.Str? && cves.s != "" {
      assert cves.s[..1] == [cves.s[0]];
    }
  }

  /** Every advisory of the report yields one finding, in order. */
  lemma {:induction false} AdvisoriesAreRead(env: Env, fields: seq<(string, Json)>)
    requires !FromAdvisories(env, fields).crashed
    ensures var vulns := FromAdvisories(env, fields).vulns;
            && |vulns| == |fields|
            && forall i :: 0 <= i < |fields| ==> fields[i].1.Obj? && ReadsAdvisory(env, fields[i].1.fields, vulns[i])
  {
    if fields != [] {
      AdvisoryIsRead(env, fields[0].1);
      AdvisoriesAreRead(env, fields[1..]);
      assert forall i :: 1 <= i < |fields| ==> fields[1..][i - 1] == fields[i];
    }
  }

  /******* Vulnerabilities *******/

  /** The advisory that an entry of a "via" list names. */
  ghost predicate NamesAdvisory(item: Json, advisory: Json) {
    match item
    case Obj(a) => FirstTruthy([Get(a, "github_advisory_id"), Get(a, "url"), Get(a, "source"), Get(a, "title"), Get(a, "name")], advisory)
    case Str(_) => advisory == item
    case _ => false
  }

  /** The findings are those of the entries at the given places, in order, and no other
      entry names a truthy advisory. */
  ghost predicate ReadsVia(name: Json, severity: Json, items: seq<Json>, vulns: seq<Vuln>, at: seq<nat>) {
    && |at| == |vulns|
    && (forall k :: 0 <= k < |at| ==>
          && at[k] < |items| && NamesAdvisory(items[at[k]], vulns[k].advisory) && Truthy(vulns[k].advisory)
          && vulns[k].name == name && vulns[k].severity == severity)
    && (forall k, l :: 0 <= k < l < |at| ==> at[k] < at[l])
    && (forall i, a :: 0 <= i < |items| && i !in at && NamesAdvisory(items[i], a) ==> !Truthy(a))
  }

  /** A chain of "or" has one result. */
  lemma FirstTruthyIsUnique(list: seq<Json>, a: Json, b: Json)
    requires FirstTruthy(list, a) && FirstTruthy(list, b)
    ensures a == b
  {
    var i: nat :| FirstAt(list, i) && list[i] == a;
    var j: nat :| FirstAt(list, j) && list[j] == b;
    assert i == j;
  }

  lemma EntryIsRead(item: Json)
    ensures ViaItem(item).Some? ==> NamesAdvisory(item, ViaItem(item).value.0)
    ensures forall a :: NamesAdvisory(item, a) ==> ViaItem(item).Some? && ViaItem(item).value.0 == a
  {
    if item.Obj? {
      var f := item.fields;
      FivePrefer(Get(f, "github_advisory_id"), Get(f, "url"), Get(f, "source"), Get(f, "title"), Get(f, "name"));
      forall a | NamesAdvisory(item, a) ensures a == ViaAdvisory(f) {
        FirstTruthyIsUnique([Get(f, "github_advisory_id"), Get(f, "url"), Get(f, "source"), Get(f, "title"), Get(f, "name")],
                            a, ViaAdvisory(f));
      }
    }
  }

  lemma {:induction false} ViaIsRead(name: Json, severity: Json, items: seq<Json>) returns (at: seq<nat>)
    ensures ReadsVia(name, severity, items, Advisories(name, severity, ViaList(items)), at)
  {
    if items == [] {
      at := [];
    } else {
      var n := |items| - 1;
      at := ViaIsRead(name, severity, items[..n]);
      EntryIsRead(items[n]);
      var init := ViaList(items[..n]);
      ViaGrows(name, severity, items, n, Advisories(name, severity, init), at);
      if ViaItem(items[n]).Some? {
        var pair := ViaItem(items[n]).value;
        assert (init + [pair])[..|init|] == init;
        if Truthy(pair.0) {
          at := at + [n];
        }
      }
    }
  }

  lemma ViaGrows(name: Json, severity: Json, items: seq<Json>, n: nat, vulns: seq<Vuln>, at: seq<nat>)
    requires n == |items| - 1 && ReadsVia(name, severity, items[..n], vulns, at)
    ensures forall a :: NamesAdvisory(items[n], a) && Truthy(a) ==>
              ReadsVia(name, severity, items, vulns + [Vuln(name, severity, a)], at + [n])
    ensures (forall a :: NamesAdvisory(items[n], a) ==> !Truthy(a)) ==> ReadsVia(name, severity, items, vulns, at)
  {
    assert forall i :: 0 <= i < n ==> items[..n][i] == items[i];
    forall a | NamesAdvisory(items[n], a) && Truthy(a)
      ensures ReadsVia(name, severity, items, vulns + [Vuln(name, severity, a)], at + [n])
    {
      assert forall i :: i in at ==> i in at + [n];
      assert (at + [n])[|at|] == n;
    }
  }

  /** The entries of a vulnerability: those of a list, or a text by itself. */
  function Entries(via: Json): seq<Json> {
    match via
    case Arr(items) => items
    case Str(_) => [via]
    case _ => []
  }

  /** A vulnerability yields the truthy advisories of its entries in order, under its own
      name and severity. */
  lemma VulnerabilityIsRead(name: string, vuln: Json) returns (at: seq<nat>)
    requires !FromVulnerability(name, vuln).crashed
    ensures vuln.Obj?
    ensures ReadsVia(Str(name), Get(vuln.fields, "severity"), Entries(Get(vuln.fields, "via")), FromVulnerability(name, vuln).vulns, at)
  {
    var via, severity := Get(vuln.fields, "via"), Get(vuln.fields, "severity");
    at := ViaIsRead(Str(name), severity, Entries(via));
    if via.Str? {
      assert ViaList([via][..0]) == [];
      assert ViaList([via]) == [(via, via)];
    }
  }

  /** An entry stops the gate exactly if its first truthy description is not a text. */
  lemma UntitledExactly(item: Json)
    ensures Untitled(item) <==>
            item.Obj? &&
            (var a := item.fields;
             exists t :: FirstTruthy([Get(a, "title"), Get(a, "url"), Get(a, "advisory"), Get(a, "source")], t) && Truthy(t) && !t.Str?)
  {
    if item.Obj? {
      var a := item.fields;
      var list := [Get(a, "title"), Get(a, "url"), Get(a, "advisory"), Get(a, "source")];
      FourPrefer(Get(a, "title"), Get(a, "url"), Get(a, "advisory"), Get(a, "source"));
      if t :| FirstTruthy(list, t) && Truthy(t) && !t.Str? {
        FirstTruthyIsUnique(list, t, ViaTitle(a));
      }
    }
  }

  /******* The report *******/

  ghost function Flat(parts: seq<seq<Vuln>>): seq<Vuln> {
    if parts == [] then [] else parts[0] + Flat(parts[1..])
  }

  ghost predicate ReadsVulnerability(name: string, vuln: Json, vulns: seq<Vuln>) {
    vuln.Obj? && exists at :: ReadsVia(Str(name), Get(vuln.fields, "severity"), Entries(Get(vuln.fields, "via")), vulns, at)
  }

  lemma {:induction false} VulnerabilitiesAreRead(fields: seq<(string, Json)>) returns (parts: seq<seq<Vuln>>)
    requires !FromVulnerabilities(fields).crashed
    ensures |parts| == |fields| && Flat(parts) == FromVulnerabilities(fields).vulns
    ensures forall i :: 0 <= i < |fields| ==> ReadsVulnerability(fields[i].0, fields[i].1, parts[i])
  {
    if fields == [] {
      parts := [];
    } else {
      var first := FromVulnerability(fields[0].0, fields[0].1).vulns;
      var at := VulnerabilityIsRead(fields[0].0, fields[0].1);
      var rest := VulnerabilitiesAreRead(fields[1..]);
      parts := [first] + rest;
      assert parts[1..] == rest;
      assert forall i :: 1 <= i < |fields| ==> fields[1..][i - 1] == fields[i];
    }
  }

  /** The members of a dict; anything else has none. */
  function Members(j: Json): seq<(string, Json)> {
    if j.Obj? then j.fields else []
  }

  /** A whole report: first one finding for each advisory, then the findings of each
      vulnerability, all in the order of the report. */
  lemma ReportIsRead(env: Env, data: Json) returns (ofAdvisories: seq<Vuln>, parts: seq<seq<Vuln>>)
    requires !Vulns(env, data).crashed
    ensures data.Obj? && Vulns(env, data).vulns == ofAdvisories + Flat(parts)
    ensures var advisories := Members(Get(data.fields, "advisories"));
            && |ofAdvisories| == |advisories|
            && forall i :: 0 <= i < |advisories| ==>
                 advisories[i].1.Obj? && ReadsAdvisory(env, advisories[i].1.fields, ofAdvisories[i])
    ensures var vulnerabilities := Members(Get(data.fields, "vulnerabilities"));
            && |parts| == |vulnerabilities|
            && forall i :: 0 <= i < |vulnerabilities| ==>
                 ReadsVulnerability(vulnerabilities[i].0, vulnerabilities[i].1, parts[i])
  {
    var advisories, vulnerabilities := Members(Get(data.fields, "advisories")), Members(Get(data.fields, "vulnerabilities"));
    AdvisoriesAreRead(env, advisories);
    ofAdvisories := FromAdvisories(env, advisories).vulns;
    parts := VulnerabilitiesAreRead(vulnerabilities);
  }
}
