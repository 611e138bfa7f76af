/**
  The decision of the audit gate: which vulnerabilities of an audit report must be
  covered by an exception, and whether they all are.
 */
module AuditVerdict {
  import opened Options
  import opened AuditExceptions

  /******* The audit report *******/

  /** A decoded JSON value; an object keeps the order of its keys. */
  datatype Json =
    | Null
    | Bool(b: bool)
    | Num(zero: bool, text: string)
    | Str(s: string)
    | Arr(items: seq<Json>)
    | Obj(fields: seq<(string, Json)>)

  /** Python's truth value. */
  predicate Truthy(j: Json) {
    match j
    case Null => false
    case Bool(b) => b
    case Num(zero, _) => !zero
    case Str(s) => s != ""
    case Arr(items) => items != []
    case Obj(fields) => fields != []
  }

  /** dict.get: null if there is no such key. */
  function Get(fields: seq<(string, Json)>, key: string): Json {
    if fields == [] then Null else if fields[0].0 == key then fields[0].1 else Get(fields[1..], key)
  }

  /** Python's "or". */
  function Or(a: Json, b: Json): Json {
    if Truthy(a) then a else b
  }

  /** What the gate takes from outside: how text is lower-cased, how a date is
      read, how a value that is no string is shown, and the date of today. */
  datatype Env = Env(lower: string -> string, date: string -> Option<int>, show: Json -> string, today: int) {
    function Text(j: Json): string {
      if j.Str? then j.s else show(j)
    }
  }

  datatype Vuln = Vuln(name: Json, severity: Json, advisory: Json)

  /** The items that a generator yields, and whether it then raises an exception. */
  datatype Yield = Yield(vulns: seq<Vuln>, crashed: bool)

  /** The first element of a truthy "cves" value, or None where indexing fails. */
  function FirstCve(cves: Json): Option<Json> {
    if !Truthy(cves) then Some(Null)
    else
      match cves
      case Arr(items) => Some(items[0])
      case Str(s) => Some(Str([s[0]]))
      case _ => None
  }

  /** The identifier of an advisory, by preference; None where indexing fails. */
  function PickAdvisoryId(env: Env, a: seq<(string, Json)>): Option<Json> {
    var early := Or(Get(a, "github_advisory_id"), Get(a, "url"));
    if Truthy(early) then Some(early)
    else
      match FirstCve(Get(a, "cves"))
      case None => None
      case Some(cve) =>
        var id := Get(a, "id");
        Some(Or(cve, Or(if id == Null then Null else Str(env.Text(id)),
                        Or(Get(a, "title"), Or(Get(a, "advisory"), Get(a, "overview"))))))
  }

  function Concat(a: Yield, b: Yield): Yield {
    if a.crashed then a else Yield(a.vulns + b.vulns, b.crashed)
  }

  function FromAdvisory(env: Env, advisory: Json): Yield {
    if !advisory.Obj? then Yield([], true)
    else
      var a := advisory.fields;
      match PickAdvisoryId(env, a)
      case None => Yield([], true)
      case Some(id) => Yield([Vuln(Or(Get(a, "module_name"), Get(a, "name")), Get(a, "severity"), id)], false)
  }

  function ViaAdvisory(item: seq<(string, Json)>): Json {
    Or(Get(item, "github_advisory_id"), Or(Get(item, "url"), Or(Get(item, "source"),
       Or(Get(item, "title"), Get(item, "name")))))
  }

  function ViaTitle(item: seq<(string, Json)>): Json {
    Or(Get(item, "title"), Or(Get(item, "url"), Or(Get(item, "advisory"), Get(item, "source"))))
  }

  /** The advisories and the titles that a "via" entry contributes. */
  function ViaItem(item: Json): Option<(Json, Json)> {
    match item
    case Obj(fields) => Some((ViaAdvisory(fields), ViaTitle(fields)))
    case Str(_) => Some((item, item))
    case _ => None
  }

  function ViaItems(via: Json): seq<(Json, Json)> {
    match via
    case Arr(items) => ViaList(items)
    case Str(_) => [(via, via)]
    case _ => []
  }

  function ViaList(items: seq<Json>): seq<(Json, Json)> {
    if items == [] then []
    else
      var init := ViaList(items[..|items| - 1]);
      match ViaItem(items[|items| - 1])
      case None => init
      case Some(pair) => init + [pair]
  }

  /** Joining the titles fails on a title that is truthy and no string. */
  predicate Joinable(titles: seq<(Json, Json)>) {
    forall i :: 0 <= i < |titles| ==> Truthy(titles[i].1) ==> titles[i].1.Str?
  }

  function Advisories(name: Json, severity: Json, pairs: seq<(Json, Json)>): seq<Vuln> {
    if pairs == [] then []
    else
      var init := Advisories(name, severity, pairs[..|pairs| - 1]);
      var a := pairs[|pairs| - 1].0;
      if Truthy(a) then init + [Vuln(name, severity, a)] else init
  }

  function FromVulnerability(name: string, vuln: Json): Yield {
    if !vuln.Obj? then Yield([], true)
    else
      var pairs := ViaItems(Get(vuln.fields, "via"));
      if !Joinable(pairs) then Yield([], true)
      else Yield(Advisories(Str(name), Get(vuln.fields, "severity"), pairs), false)
  }

  function FromAdvisories(env: Env, fields: seq<(string, Json)>): Yield {
    if fields == [] then Yield([], false)
    else Concat(FromAdvisory(env, fields[0].1), FromAdvisories(env, fields[1..]))
  }

  function FromVulnerabilities(fields: seq<(string, Json)>): Yield {
    if fields == [] then Yield([], false)
    else Concat(FromVulnerability(fields[0].0, fields[0].1), FromVulnerabilities(fields[1..]))
  }

  /** Both report formats: a dict of advisories and a dict of vulnerabilities. */
  function Vulns(env: Env, data: Json): Yield {
    if !data.Obj? then Yield([], true)
    else
      var advisories, vulnerabilities := Get(data.fields, "advisories"), Get(data.fields, "vulnerabilities");
      Concat(if advisories.Obj? then FromAdvisories(env, advisories.fields) else Yield([], false),
             if vulnerabilities.Obj? then FromVulnerabilities(vulnerabilities.fields) else Yield([], false))
  }

  /** The generator: it walks the report and collects what it yields. */
  method IterVulns(env: Env, data: Json) returns (vulns: seq<Vuln>, crashed: bool)
    ensures Yield(vulns, crashed) == Vulns(env, data)
  {
    if !data.Obj? {
      return [], true;
    }
    var y := Yield([], false);
    var advisories := Get(data.fields, "advisories");
    if advisories.Obj? {
      y := WalkAdvisories(env, advisories.fields);
    }
    if y.crashed {
      return y.vulns, true;
    }
    var vulnerabilities := Get(data.fields, "vulnerabilities");
    var z := Yield([], false);
    if vulnerabilities.Obj? {
      z := WalkVulnerabilities(vulnerabilities.fields);
    }
    vulns, crashed := y.vulns + z.vulns, z.crashed;
  }

  method WalkAdvisories(env: Env, fields: seq<(string, Json)>) returns (y: Yield)
    ensures y == FromAdvisories(env, fields)
  {
    y := Yield([], false);
    assert fields[0..] == fields;
    assert [] + FromAdvisories(env, fields).vulns == FromAdvisories(env, fields).vulns;
    for i := 0 to |fields|
      invariant !y.crashed && Concat(y, FromAdvisories(env, fields[i..])) == FromAdvisories(env, fields)
    {
      assert fields[i..][1..] == fields[i + 1..];
      var next := FromAdvisory(env, fields[i].1);
      ConcatAssoc(y, next, FromAdvisories(env, fields[i + 1..]));
      y := Concat(y, next);
      if y.crashed {
        return;
      }
    }
    assert y.vulns + [] == y.vulns;
  }

  method WalkVulnerabilities(fields: seq<(string, Json)>) returns (y: Yield)
    ensures y == FromVulnerabilities(fields)
  {
    y := Yield([], false);
    assert fields[0..] == fields;
    assert [] + FromVulnerabilities(fields).vulns == FromVulnerabilities(fields).vulns;
    for i := 0 to |fields|
      invariant !y.crashed && Concat(y, FromVulnerabilities(fields[i..])) == FromVulnerabilities(fields)
    {
      assert fields[i..][1..] == fields[i + 1..];
      var next := WalkVulnerability(fields[i].0, fields[i].1);
      ConcatAssoc(y, next, FromVulnerabilities(fields[i + 1..]));
      y := Concat(y, next);
      if y.crashed {
        return;
      }
    }
    assert y.vulns + [] == y.vulns;
  }

  /** One vulnerability: collects advisories and titles, then yields the advisories. */
  method WalkVulnerability(name: string, vuln: Json) returns (y: Yield)
    ensures y == FromVulnerability(name, vuln)
  {
    if !vuln.Obj? {
      return Yield([], true);
    }
    var severity, via := Get(vuln.fields, "severity"), Get(vuln.fields, "via");
    var pairs: seq<(Json, Json)> := [];
    if via.Arr? {
      for i := 0 to |via.items|
        invariant pairs == ViaList(via.items[..i])
      {
        assert via.items[..i + 1][..i] == via.items[..i];
        var pair := ViaItem(via.items[i]);
        if pair.Some? {
          pairs := pairs + [pair.value];
        }
      }
      assert via.items[..|via.items|] == via.items;
    } else if via.Str? {
      pairs := [(via, via)];
    }
    if !Joinable(pairs) {
      return Yield([], true);
    }
    var vulns: seq<Vuln> := [];
    for i := 0 to |pairs|
      invariant vulns == Advisories(Str(name), severity, pairs[..i])
    {
      assert pairs[..i + 1][..i] == pairs[..i];
      if Truthy(pairs[i].0) {
        vulns := vulns + [Vuln(Str(name), severity, pairs[i].0)];
      }
    }
    assert pairs[..|pairs|] == pairs;
    y := Yield(vulns, false);
  }

  lemma ConcatAssoc(a: Yield, b: Yield, c: Yield)
    ensures Concat(Concat(a, b), c) == Concat(a, Concat(b, c))
  {
    if !a.crashed && !b.crashed {
      assert (a.vulns + b.vulns) + c.vulns == a.vulns + (b.vulns + c.vulns);
    }
  }

  /** A dict of a "via" list whose first truthy description is not a string. */
  predicate Untitled(item: Json) {
    item.Obj? && Truthy(ViaTitle(item.fields)) && !ViaTitle(item.fields).Str?
  }

  lemma {:induction false} JoinableExactly(items: seq<Json>)
    ensures Joinable(ViaList(items)) <==> forall i :: 0 <= i < |items| ==> !Untitled(items[i])
  {
    if items != [] {
      var n := |items| - 1;
      JoinableExactly(items[..n]);
      var init, all := ViaList(items[..n]), ViaList(items);
      assert forall i :: 0 <= i < n ==> items[..n][i] == items[i];
      if ViaItem(items[n]).Some? {
        assert all[|init|] == ViaItem(items[n]).value;
        assert forall i :: 0 <= i < |init| ==> all[i] == init[i];
      }
    }
  }

  /** Walking a dict of vulnerabilities raises an exception exactly if one of them is
      no dict or has an untitled dict in its "via" list. */
  lemma {:induction false} WalkCrashesExactly(fields: seq<(string, Json)>)
    ensures FromVulnerabilities(fields).crashed <==> SomeCannotWalk(fields)
  {
    if fields != [] {
      WalkCrashesExactly(fields[1..]);
      var vuln := fields[0].1;
      if vuln.Obj? && Get(vuln.fields, "via").Arr? {
        JoinableExactly(Get(vuln.fields, "via").items);
      }
      assert FromVulnerability(fields[0].0, vuln).crashed <==> CannotWalk(vuln);
      if i :| 0 <= i < |fields[1..]| && CannotWalk(fields[1..][i].1) {
        assert fields[i + 1] == fields[1..][i];
      }
      if i :| 1 <= i < |fields| && CannotWalk(fields[i].1) {
        assert fields[1..][i - 1] == fields[i];
      }
    }
  }

  ghost predicate CannotWalk(vuln: Json) {
    !vuln.Obj? ||
    (var via := Get(vuln.fields, "via");
     via.Arr? && exists i :: 0 <= i < |via.items| && Untitled(via.items[i]))
  }

  ghost predicate SomeCannotWalk(vulnerabilities: seq<(string, Json)>) {
    exists i :: 0 <= i < |vulnerabilities| && CannotWalk(vulnerabilities[i].1)
  }

  /** Neither a dict, nor one with an identifier that is preferred to its "cves", which are
      truthy and cannot be indexed. */
  predicate CannotPick(advisory: Json) {
    !advisory.Obj? ||
    (var a := advisory.fields;
     && !Truthy(Get(a, "github_advisory_id")) && !Truthy(Get(a, "url"))
     && Truthy(Get(a, "cves")) && !Get(a, "cves").Arr? && !Get(a, "cves").Str?)
  }

  ghost predicate SomeCannotPick(advisories: seq<(string, Json)>) {
    exists i :: 0 <= i < |advisories| && CannotPick(advisories[i].1)
  }

  lemma {:induction false} PickCrashesExactly(env: Env, fields: seq<(string, Json)>)
    ensures FromAdvisories(env, fields).crashed <==> SomeCannotPick(fields)
  {
    if fields != [] {
      PickCrashesExactly(env, fields[1..]);
      assert FromAdvisory(env, fields[0].1).crashed <==> CannotPick(fields[0].1);
      if i :| 0 <= i < |fields[1..]| && CannotPick(fields[1..][i].1) {
        assert fields[i + 1] == fields[1..][i];
      }
      if i :| 1 <= i < |fields| && CannotPick(fields[i].1) {
        assert fields[1..][i - 1] == fields[i];
      }
    }
  }

  /** Walking a whole report raises an exception exactly if it is no dict, or one of its
      advisories has no identifier to pick, or one of its vulnerabilities cannot be walked. */
  lemma ReportCrashesExactly(env: Env, data: Json)
    ensures Vulns(env, data).crashed <==>
            !data.Obj? ||
            (var advisories, vulns := Get(data.fields, "advisories"), Get(data.fields, "vulnerabilities");
             || (advisories.Obj? && SomeCannotPick(advisories.fields))
             || (vulns.Obj? && SomeCannotWalk(vulns.fields)))
  {
    if data.Obj? {
      var advisories, vulns := Get(data.fields, "advisories"), Get(data.fields, "vulnerabilities");
      if advisories.Obj? {
        PickCrashesExactly(env, advisories.fields);
      }
      if vulns.Obj? {
        WalkCrashesExactly(vulns.fields);
      }
    }
  }

  /** A dict of the "via" list whose only description is a numeric source, which
      the advisory comparison provides for, stops the gate with an exception. */
  lemma NumericSourceCrashes(name: string, severity: Json, text: string)
    ensures FromVulnerability(name, Obj([("severity", severity), ("via", Arr([Obj([("source", Num(false, text))])]))])).crashed
  {
    var item := [("source", Num(false, text))];
    var via := Arr([Obj(item)]);
    var fields := [("severity", severity), ("via", via)];
    assert fields[1..] == [("via", via)] && |"severity"| != |"via"|;
    assert Get(fields, "via") == via;
    assert item[1..] == [];
    assert |"source"| != |"title"| && |"source"| != |"url"| && |"source"| != |"advisory"|;
    assert Get(item, "title") == Null && Get(item, "url") == Null && Get(item, "advisory") == Null;
    assert Get(item, "source") == Num(false, text);
    assert ViaTitle(item) == Num(false, text);
    assert [Obj(item)][..0] == [];
    assert ViaList([Obj(item)]) == ViaList([]) + [(ViaAdvisory(item), ViaTitle(item))];
    assert ViaItems(via)[0].1 == Num(false, text);
  }

  /******* The decision *******/

  type ExcKey = (string, string)

  function Field(e: Entry, name: string): string {
    if name in e then e[name] else ""
  }

  function NormalSeverity(env: Env, s: string): string {
    env.lower(Strip(s))
  }

  function KeyOf(env: Env, e: Entry): ExcKey {
    (Strip(Field(e, "package")), env.lower(Strip(Field(e, "advisory"))))
  }

  /** All required fields are there, the date can be read and the key is not blank. */
  predicate WellFormed(env: Env, e: Entry) {
    && Field(e, "package") != "" && Field(e, "advisory") != "" && Field(e, "severity") != ""
    && Field(e, "mitigation") != "" && Field(e, "expires_on") != ""
    && env.date(Field(e, "expires_on")).Some?
    && KeyOf(env, e).0 != "" && KeyOf(env, e).1 != ""
  }

  /** A severity that is truthy and no string has no strip method. */
  predicate BadSeverity(v: Vuln) {
    Truthy(v.severity) && !v.severity.Str?
  }

  function VulnSeverity(env: Env, v: Vuln): string {
    NormalSeverity(env, if v.severity.Str? then v.severity.s else "")
  }

  function VulnKey(env: Env, v: Vuln): ExcKey {
    (Strip(env.Text(v.name)), if v.advisory == Null then "" else env.lower(Strip(env.Text(v.advisory))))
  }

  /** A high or critical vulnerability of a named package. */
  predicate Relevant(env: Env, v: Vuln) {
    !BadSeverity(v) && VulnSeverity(env, v) in {"high", "critical"} && Truthy(v.name)
  }

  /** None of the first n vulnerabilities is relevant and has the key. */
  predicate KeyFree(env: Env, vs: seq<Vuln>, n: nat, key: ExcKey)
    requires n <= |vs|
  {
    n == 0 || (KeyFree(env, vs, n - 1, key) && (Relevant(env, vs[n - 1]) ==> VulnKey(env, vs[n - 1]) != key))
  }

  lemma {:induction false} KeyFreeExactly(env: Env, vs: seq<Vuln>, n: nat, key: ExcKey)
    requires n <= |vs|
    ensures KeyFree(env, vs, n, key) <==>
            forall j :: 0 <= j < n && Relevant(env, vs[j]) ==> VulnKey(env, vs[j]) != key
  {
    if n > 0 {
      KeyFreeExactly(env, vs, n - 1, key);
    }
  }

  /** No earlier relevant vulnerability has the same key. */
  predicate FirstOfKey(env: Env, vs: seq<Vuln>, i: nat)
    requires i < |vs|
  {
    KeyFree(env, vs, i, VulnKey(env, vs[i]))
  }

  /** The exception has the key, does not contradict the severity and has not expired. */
  predicate Covers(env: Env, e: Entry, v: Vuln)
    requires WellFormed(env, e)
  {
    && KeyOf(env, e) == VulnKey(env, v)
    && (var severity := NormalSeverity(env, Field(e, "severity"));
        severity == "" || severity == VulnSeverity(env, v))
    && env.date(Field(e, "expires_on")).value >= env.today
  }

  predicate Orderly(env: Env, es: seq<Entry>) {
    && (forall i :: 0 <= i < |es| ==> WellFormed(env, es[i]))
    && (forall i, j :: 0 <= i < j < |es| ==> KeyOf(env, es[i]) != KeyOf(env, es[j]))
  }

  predicate CoveredAt(env: Env, es: seq<Entry>, vs: seq<Vuln>, i: nat)
    requires Orderly(env, es) && i < |vs|
  {
    Relevant(env, vs[i]) ==>
      && VulnKey(env, vs[i]).1 != ""
      && (FirstOfKey(env, vs, i) ==> exists k :: 0 <= k < |es| && Covers(env, es[k], vs[i]))
  }

  /** The policy that the gate enforces. */
  predicate Accepts(env: Env, es: seq<Entry>, vs: seq<Vuln>) {
    && Orderly(env, es)
    && forall i :: 0 <= i < |vs| ==> CoveredAt(env, es, vs, i)
  }

  datatype Problem = MissingFields | InvalidDate | BlankKey | Duplicate | MissingAdvisory | SeverityMismatch
                   | MissingException | Expired

  datatype Outcome = Crashed | Verdict(problems: seq<Problem>)

  datatype Indexed = Indexed(severity: string, expires: int)

  function RecordOf(env: Env, e: Entry): Indexed
    requires WellFormed(env, e)
  {
    Indexed(NormalSeverity(env, Field(e, "severity")), env.date(Field(e, "expires_on")).value)
  }

  ghost function KeySet(env: Env, es: seq<Entry>): set<ExcKey> {
    if es == [] then {} else KeySet(env, es[..|es| - 1]) + {KeyOf(env, es[|es| - 1])}
  }

  lemma {:induction false} KeySetMembers(env: Env, es: seq<Entry>, key: ExcKey)
    ensures key in KeySet(env, es) <==> exists i :: 0 <= i < |es| && KeyOf(env, es[i]) == key
  {
    if es != [] {
      var init := es[..|es| - 1];
      KeySetMembers(env, init, key);
      if exists i :: 0 <= i < |init| && KeyOf(env, init[i]) == key {
        var i :| 0 <= i < |init| && KeyOf(env, init[i]) == key;
        assert es[i] == init[i];
      }
      if exists i :: 0 <= i < |es| - 1 && KeyOf(env, es[i]) == key {
        var i :| 0 <= i < |es| - 1 && KeyOf(env, es[i]) == key;
        assert init[i] == es[i];
      }
    }
  }

  /** The index holds exactly the given exceptions under their keys. */
  ghost predicate IsIndexOf(env: Env, es: seq<Entry>, index: map<ExcKey, Indexed>) {
    && index.Keys == KeySet(env, es)
    && (forall i :: 0 <= i < |es| ==> WellFormed(env, es[i]) && Holds(env, index, es[i]))
  }

  ghost predicate Holds(env: Env, index: map<ExcKey, Indexed>, e: Entry)
    requires WellFormed(env, e)
  {
    KeyOf(env, e) in index && index[KeyOf(env, e)] == RecordOf(env, e)
  }

  /** Indexes the exceptions by package and advisory. */
  method IndexExceptions(env: Env, es: seq<Entry>) returns (index: map<ExcKey, Indexed>, problems: seq<Problem>)
    ensures problems == [] <==> Orderly(env, es)
    ensures problems == [] ==> IsIndexOf(env, es, index)
  {
    index, problems := map[], [];
    for i := 0 to |es|
      invariant problems == [] <==> Orderly(env, es[..i])
      invariant problems == [] ==> IsIndexOf(env, es[..i], index)
    {
      var e := es[i];
      OrderlySnoc(env, es[..i], e);
      assert es[..i + 1] == es[..i] + [e];
      if Field(e, "package") == "" || Field(e, "advisory") == "" || Field(e, "severity") == ""
         || Field(e, "mitigation") == "" || Field(e, "expires_on") == "" {
        problems := problems + [MissingFields];
        continue;
      }
      var date := env.date(Field(e, "expires_on"));
      if date.None? {
        problems := problems + [InvalidDate];
        continue;
      }
      var key := KeyOf(env, e);
      if key.0 == "" || key.1 == "" {
        problems := problems + [BlankKey];
        continue;
      }
      if key in index {
        KeySetMembers(env, es[..i], key);
        problems := problems + [Duplicate];
        continue;
      }
      if problems == [] {
        KeySetMembers(env, es[..i], key);
        IndexSnoc(env, es[..i], index, e);
      }
      index := index[key := RecordOf(env, e)];
    }
    assert es[..|es|] == es;
  }

  lemma OrderlySnoc(env: Env, es: seq<Entry>, e: Entry)
    ensures Orderly(env, es + [e]) <==>
            Orderly(env, es) && WellFormed(env, e) && forall i :: 0 <= i < |es| ==> KeyOf(env, es[i]) != KeyOf(env, e)
  {
    var more := es + [e];
    assert forall i :: 0 <= i < |es| ==> more[i] == es[i];
    assert more[|es|] == e;
  }

  lemma IndexSnoc(env: Env, es: seq<Entry>, index: map<ExcKey, Indexed>, e: Entry)
    requires IsIndexOf(env, es, index) && WellFormed(env, e) && KeyOf(env, e) !in index
    ensures IsIndexOf(env, es + [e], index[KeyOf(env, e) := RecordOf(env, e)])
  {
    var more := es + [e];
    assert more[..|es|] == es;
    var index' := index[KeyOf(env, e) := RecordOf(env, e)];
    forall i | 0 <= i < |more| ensures WellFormed(env, more[i]) && Holds(env, index', more[i]) {
      if i < |es| {
        assert more[i] == es[i] && Holds(env, index, es[i]);
      }
    }
  }

  /** Whether one vulnerability is covered can be decided with the index. */
  lemma CoveredByIndex(env: Env, es: seq<Entry>, index: map<ExcKey, Indexed>, v: Vuln)
    requires Orderly(env, es) && IsIndexOf(env, es, index)
    ensures (exists k :: 0 <= k < |es| && Covers(env, es[k], v)) <==>
            (var key := VulnKey(env, v);
             key in index && (index[key].severity == "" || index[key].severity == VulnSeverity(env, v)) && index[key].expires >= env.today)
  {
    var key := VulnKey(env, v);
    KeySetMembers(env, es, key);
    if key in index {
      var k :| 0 <= k < |es| && KeyOf(env, es[k]) == key;
      assert Holds(env, index, es[k]);
      assert Covers(env, es[k], v) <==>
          (index[key].severity == "" || index[key].severity == VulnSeverity(env, v)) && index[key].expires >= env.today;
      forall j | 0 <= j < |es| && Covers(env, es[j], v) ensures j == k {
      }
    }
  }

  /** What the gate compares of a vulnerability. */
  datatype Look = Look(relevant: bool, key: ExcKey, severity: string)

  function Looks(env: Env): Vuln -> Look {
    (v: Vuln) => Look(Relevant(env, v), VulnKey(env, v), VulnSeverity(env, v))
  }

  function LookedUp(l: Look): set<ExcKey> {
    if l.relevant && l.key.1 != "" then {l.key} else {}
  }

  /** The keys under which the first n vulnerabilities were looked up. */
  ghost function SeenKeys(look: Vuln -> Look, vs: seq<Vuln>, n: nat): set<ExcKey>
    requires n <= |vs|
  {
    if n == 0 then {} else SeenKeys(look, vs, n - 1) + LookedUp(look(vs[n - 1]))
  }

  lemma {:induction false} SeenIsNotFree(env: Env, vs: seq<Vuln>, n: nat, key: ExcKey)
    requires n <= |vs| && key.1 != ""
    ensures key in SeenKeys(Looks(env), vs, n) <==> !KeyFree(env, vs, n, key)
  {
    if n > 0 {
      SeenIsNotFree(env, vs, n - 1, key);
    }
  }

  /** What one vulnerability adds to the problems, given the keys seen before it. */
  function Finding(today: int, index: map<ExcKey, Indexed>, seen: set<ExcKey>, l: Look): seq<Problem> {
    if !l.relevant then []
    else if l.key.1 == "" then [MissingAdvisory]
    else if l.key in seen then []
    else if l.key !in index then [MissingException]
    else
      (if index[l.key].severity != "" && index[l.key].severity != l.severity then [SeverityMismatch] else []) +
      (if index[l.key].expires < today then [Expired] else [])
  }

  ghost function FindingAt(look: Vuln -> Look, today: int, index: map<ExcKey, Indexed>, vs: seq<Vuln>, i: nat): seq<Problem>
    requires i < |vs|
  {
    Finding(today, index, SeenKeys(look, vs, i), look(vs[i]))
  }

  lemma FindingIsExact(env: Env, es: seq<Entry>, index: map<ExcKey, Indexed>, vs: seq<Vuln>, i: nat)
    requires i < |vs|
    requires Orderly(env, es) && IsIndexOf(env, es, index)
    ensures FindingAt(Looks(env), env.today, index, vs, i) == [] <==> CoveredAt(env, es, vs, i)
  {
    var key := VulnKey(env, vs[i]);
    CoveredByIndex(env, es, index, vs[i]);
    if key.1 != "" {
      SeenIsNotFree(env, vs, i, key);
    }
  }

  /** The problems of the first n vulnerabilities. */
  ghost function Findings(look: Vuln -> Look, today: int, index: map<ExcKey, Indexed>, vs: seq<Vuln>, n: nat): seq<Problem>
    requires n <= |vs|
  {
    if n == 0 then [] else Findings(look, today, index, vs, n - 1) + FindingAt(look, today, index, vs, n - 1)
  }

  lemma {:induction false} NothingFoundExactly(look: Vuln -> Look, today: int, index: map<ExcKey, Indexed>, vs: seq<Vuln>, n: nat)
    requires n <= |vs|
    ensures Findings(look, today, index, vs, n) == [] <==>
            forall i :: 0 <= i < n ==> FindingAt(look, today, index, vs, i) == []
  {
    if n > 0 {
      NothingFoundExactly(look, today, index, vs, n - 1);
    }
  }

  /** The gate finds no problem exactly if the policy accepts the vulnerabilities. */
  lemma FindingsAreExact(env: Env, es: seq<Entry>, index: map<ExcKey, Indexed>, vs: seq<Vuln>)
    requires Orderly(env, es) && IsIndexOf(env, es, index)
    ensures Findings(Looks(env), env.today, index, vs, |vs|) == [] <==> Accepts(env, es, vs)
  {
    NothingFoundExactly(Looks(env), env.today, index, vs, |vs|);
    forall i | 0 <= i < |vs|
      ensures FindingAt(Looks(env), env.today, index, vs, i) == [] <==> CoveredAt(env, es, vs, i)
    {
      FindingIsExact(env, es, index, vs, i);
    }
  }

  /** Every severity of the first n is a string or falsy. */
  predicate GoodSeverities(vs: seq<Vuln>, n: nat)
    requires n <= |vs|
  {
    n == 0 || (GoodSeverities(vs, n - 1) && !BadSeverity(vs[n - 1]))
  }

  lemma {:induction false} GoodSeveritiesExactly(vs: seq<Vuln>, n: nat)
    requires n <= |vs|
    ensures GoodSeverities(vs, n) <==> forall i :: 0 <= i < n ==> !BadSeverity(vs[i])
  {
    if n > 0 {
      GoodSeveritiesExactly(vs, n - 1);
    }
  }

  lemma {:induction false} BadPrefix(vs: seq<Vuln>, n: nat)
    requires n <= |vs| && !GoodSeverities(vs, n)
    ensures !GoodSeverities(vs, |vs|)
    decreases |vs| - n
  {
    if n < |vs| {
      BadPrefix(vs, n + 1);
    }
  }

  /** Looks up every vulnerability in the index, each key once. */
  method Examine(look: Vuln -> Look, today: int, index: map<ExcKey, Indexed>, vs: seq<Vuln>)
      returns (crashed: bool, problems: seq<Problem>)
    ensures crashed <==> !GoodSeverities(vs, |vs|)
    ensures !crashed ==> problems == Findings(look, today, index, vs, |vs|)
  {
    problems := [];
    var seen: set<ExcKey> := {};
    for i := 0 to |vs|
      invariant GoodSeverities(vs, i)
      invariant seen == SeenKeys(look, vs, i)
      invariant problems == Findings(look, today, index, vs, i)
    {
      var v := vs[i];
      if BadSeverity(v) {
        BadPrefix(vs, i + 1);
        return true, problems;
      }
      var l := look(v);
      problems := problems + Finding(today, index, seen, l);
      if l.relevant && l.key.1 != "" {
        seen := seen + {l.key};
      }
    }
    crashed := false;
  }

  /** Checks the exceptions and then the vulnerabilities against them. */
  method Decide(env: Env, es: seq<Entry>, vs: seq<Vuln>) returns (r: Outcome)
    ensures r.Crashed? <==> exists i :: 0 <= i < |vs| && BadSeverity(vs[i])
    ensures !r.Crashed? ==> (r.problems == [] <==> Accepts(env, es, vs))
  {
    var index, early := IndexExceptions(env, es);
    var crashed, problems := Examine(Looks(env), env.today, index, vs);
    GoodSeveritiesExactly(vs, |vs|);
    if crashed {
      return Crashed;
    }
    if Orderly(env, es) {
      FindingsAreExact(env, es, index, vs);
    }
    r := Verdict(early + problems);
  }

  /** The list can be read, the report can be walked and the exceptions cover it according
      to the policy. */
  predicate Passes(env: Env, lines: seq<string>, data: Json) {
    var parsed, report := Parsed(lines), Vulns(env, data);
    && parsed.Some?
    && !report.crashed && (forall i :: 0 <= i < |report.vulns| ==> !BadSeverity(report.vulns[i]))
    && Accepts(env, parsed.value, report.vulns)
  }

  method Gate(env: Env, lines: seq<string>, data: Json) returns (r: Outcome)
    ensures r == Verdict([]) <==> Passes(env, lines, data)
  {
    var es := ParseExceptions(lines);
    if es.None? {
      return Crashed;
    }
    var vs, crashed := IterVulns(env, data);
    if crashed {
      return Crashed;
    }
    r := Decide(env, es.value, vs);
  }

  /******* The order of the exceptions does not matter *******/

  lemma TwiceInSeq<T>(s: seq<T>, i: nat, j: nat)
    requires i < j < |s| && s[i] == s[j]
    ensures multiset(s)[s[i]] >= 2
  {
    assert s == s[..j] + s[j..];
    assert s[..j][i] == s[i] && s[j..][0] == s[j];
    assert s[i] in multiset(s[..j]) && s[i] in multiset(s[j..]);
  }

  lemma {:induction false} TwicePositions<T>(s: seq<T>, x: T) returns (i: nat, j: nat)
    requires multiset(s)[x] >= 2
    ensures i < j < |s| && s[i] == x && s[j] == x
  {
    var last := |s| - 1;
    assert s == s[..last] + [s[last]];
    if s[last] == x {
      assert x in multiset(s[..last]);
      j := last;
      i :| 0 <= i < last && s[..last][i] == x;
    } else {
      i, j := TwicePositions(s[..last], x);
    }
  }

  lemma OrderlyPermuted(env: Env, es: seq<Entry>, es': seq<Entry>)
    requires multiset(es) == multiset(es') && Orderly(env, es)
    ensures Orderly(env, es')
  {
    forall i | 0 <= i < |es'| ensures es'[i] in es {
      assert es'[i] in multiset(es');
    }
    forall i, j | 0 <= i < j < |es'| ensures KeyOf(env, es'[i]) != KeyOf(env, es'[j]) {
      var p, q := TwoPositions(es, es', i, j);
      assert KeyOf(env, es[p]) != KeyOf(env, es[q]);
    }
  }

  /** Two positions of a permutation come from two positions of the original. */
  lemma TwoPositions<T>(s: seq<T>, s': seq<T>, i: nat, j: nat) returns (p: nat, q: nat)
    requires multiset(s) == multiset(s') && i < j < |s'|
    ensures p < q < |s| && ((s[p] == s'[i] && s[q] == s'[j]) || (s[p] == s'[j] && s[q] == s'[i]))
  {
    if s'[i] == s'[j] {
      TwiceInSeq(s', i, j);
      p, q := TwicePositions(s, s'[i]);
    } else {
      assert s'[i] in multiset(s') && s'[j] in multiset(s');
      var a :| 0 <= a < |s| && s[a] == s'[i];
      var b :| 0 <= b < |s| && s[b] == s'[j];
      p, q := if a < b then a else b, if a < b then b else a;
    }
  }

  lemma AcceptsPermutedOneWay(env: Env, es: seq<Entry>, es': seq<Entry>, vs: seq<Vuln>)
    requires multiset(es) == multiset(es') && Accepts(env, es, vs)
    ensures Accepts(env, es', vs)
  {
    OrderlyPermuted(env, es, es');
    forall i | 0 <= i < |vs| ensures CoveredAt(env, es', vs, i) {
      assert CoveredAt(env, es, vs, i);
      if Relevant(env, vs[i]) && FirstOfKey(env, vs, i) {
        var k :| 0 <= k < |es| && Covers(env, es[k], vs[i]);
        assert es[k] in multiset(es');
        var j :| 0 <= j < |es'| && es'[j] == es[k];
        assert Covers(env, es'[j], vs[i]);
      }
    }
  }

  /** Listing the exceptions in another order never changes the verdict. */
  lemma AcceptsPermuted(env: Env, es: seq<Entry>, es': seq<Entry>, vs: seq<Vuln>)
    requires multiset(es) == multiset(es')
    ensures Accepts(env, es, vs) <==> Accepts(env, es', vs)
  {
    if Accepts(env, es, vs) {
      AcceptsPermutedOneWay(env, es, es', vs);
    }
    if Accepts(env, es', vs) {
      AcceptsPermutedOneWay(env, es', es, vs);
    }
  }
}
