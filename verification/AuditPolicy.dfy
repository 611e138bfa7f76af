/** The policy of the audit gate in its own words, and a report on which it decides. */
module AuditPolicy {
  import opened Options
  import opened AuditExceptions
  import opened AuditVerdict
  import opened AuditReport

  predicate Given(e: Entry, name: string) {
    name in e && e[name] != ""
  }

  /** An exception with all required fields, a readable date and names on both sides. */
  predicate Sound(env: Env, e: Entry) {
    && Given(e, "package") && Given(e, "advisory") && Given(e, "severity") && Given(e, "mitigation") && Given(e, "expires_on")
    && env.date(e["expires_on"]).Some?
    && Strip(e["package"]) != "" && env.lower(Strip(e["advisory"])) != ""
  }

  /** The package keeps its case, the advisory does not. */
  predicate Names(env: Env, e: Entry, package: string, advisory: string)
    requires Sound(env, e)
  {
    Strip(e["package"]) == package && env.lower(Strip(e["advisory"])) == advisory
  }

  /** A text as it is, and any other value as the language shows it. */
  function AsText(env: Env, j: Json): string {
    if j.Str? then j.s else env.show(j)
  }

  function PackageOf(env: Env, v: Vuln): string {
    Strip(AsText(env, v.name))
  }

  function AdvisoryOf(env: Env, v: Vuln): string {
    if v.advisory == Null then "" else env.lower(Strip(AsText(env, v.advisory)))
  }

  function SeverityOf(env: Env, v: Vuln): string {
    env.lower(Strip(if v.severity.Str? then v.severity.s else ""))
  }

  /** A finding of high or critical severity with a name. */
  predicate Serious(env: Env, v: Vuln) {
    && (v.severity.Str? || !Truthy(v.severity))
    && (SeverityOf(env, v) == "high" || SeverityOf(env, v) == "critical") && Truthy(v.name)
  }

  /** The exception names the finding, states its severity or none that is left after
      stripping, and has not expired. */
  predicate Excuses(env: Env, e: Entry, v: Vuln)
    requires Sound(env, e)
  {
    && Names(env, e, PackageOf(env, v), AdvisoryOf(env, v))
    && env.lower(Strip(e["severity"])) in ["", SeverityOf(env, v)]
    && env.today <= env.date(e["expires_on"]).value
  }

  /** All exceptions are sound, and no two name the same advisory of a package. */
  ghost predicate SoundList(env: Env, es: seq<Entry>) {
    && (forall i :: 0 <= i < |es| ==> Sound(env, es[i]))
    && (forall i, j :: 0 <= i < j < |es| ==> !Names(env, es[j], Strip(es[i]["package"]), env.lower(Strip(es[i]["advisory"]))))
  }

  /** No earlier serious finding has the same package and advisory. */
  predicate FirstNamed(env: Env, vs: seq<Vuln>, i: nat)
    requires i < |vs|
  {
    forall j :: 0 <= j < i && Serious(env, vs[j]) ==>
      PackageOf(env, vs[j]) != PackageOf(env, vs[i]) || AdvisoryOf(env, vs[j]) != AdvisoryOf(env, vs[i])
  }

  predicate Excused(env: Env, es: seq<Entry>, v: Vuln)
    requires forall k :: 0 <= k < |es| ==> Sound(env, es[k])
  {
    exists k :: 0 <= k < |es| && Excuses(env, es[k], v)
  }

  /** Every serious finding has an advisory, and the first one of each package and advisory
      is excused. */
  ghost predicate Policy(env: Env, es: seq<Entry>, vs: seq<Vuln>) {
    && SoundList(env, es)
    && forall i :: 0 <= i < |vs| && Serious(env, vs[i]) ==>
         AdvisoryOf(env, vs[i]) != "" && (FirstNamed(env, vs, i) ==> Excused(env, es, vs[i]))
  }

  lemma SoundIsWellFormed(env: Env, e: Entry)
    ensures Sound(env, e) <==> WellFormed(env, e)
    ensures Sound(env, e) ==> KeyOf(env, e) == (Strip(e["package"]), env.lower(Strip(e["advisory"])))
  {
  }

  lemma SoundListIsOrderly(env: Env, es: seq<Entry>)
    ensures SoundList(env, es) <==> Orderly(env, es)
  {
    forall i | 0 <= i < |es| ensures Sound(env, es[i]) <==> WellFormed(env, es[i]) {
      SoundIsWellFormed(env, es[i]);
    }
    if forall i :: 0 <= i < |es| ==> Sound(env, es[i]) {
      forall i | 0 <= i < |es|
        ensures KeyOf(env, es[i]) == (Strip(es[i]["package"]), env.lower(Strip(es[i]["advisory"])))
      {
        SoundIsWellFormed(env, es[i]);
      }
    }
  }

  lemma SeriousIsRelevant(env: Env, v: Vuln)
    ensures Serious(env, v) <==> Relevant(env, v)
    ensures VulnKey(env, v) == (PackageOf(env, v), AdvisoryOf(env, v))
  {
  }

  lemma FirstNamedIsFirstOfKey(env: Env, vs: seq<Vuln>, i: nat)
    requires i < |vs|
    ensures FirstNamed(env, vs, i) <==> FirstOfKey(env, vs, i)
  {
    KeyFreeExactly(env, vs, i, VulnKey(env, vs[i]));
    SeriousIsRelevant(env, vs[i]);
    forall j | 0 <= j < i
      ensures (Serious(env, vs[j]) <==> Relevant(env, vs[j])) && VulnKey(env, vs[j]) == (PackageOf(env, vs[j]), AdvisoryOf(env, vs[j]))
    {
      SeriousIsRelevant(env, vs[j]);
    }
  }

  lemma ExcusesIsCovers(env: Env, e: Entry, v: Vuln)
    requires Sound(env, e) && WellFormed(env, e)
    ensures Excuses(env, e, v) <==> Covers(env, e, v)
  {
    SoundIsWellFormed(env, e);
    SeriousIsRelevant(env, v);
  }

  lemma ExcusedIsCovered(env: Env, es: seq<Entry>, v: Vuln)
    requires SoundList(env, es) && Orderly(env, es)
    ensures Excused(env, es, v) <==> exists k :: 0 <= k < |es| && Covers(env, es[k], v)
  {
    forall k | 0 <= k < |es| ensures Excuses(env, es[k], v) <==> Covers(env, es[k], v) {
      ExcusesIsCovers(env, es[k], v);
    }
  }

  /** The policy that the gate enforces, key by key, is the one stated in words. */
  lemma PolicyInWords(env: Env, es: seq<Entry>, vs: seq<Vuln>)
    ensures Accepts(env, es, vs) <==> Policy(env, es, vs)
  {
    SoundListIsOrderly(env, es);
    if Orderly(env, es) {
      forall i | 0 <= i < |vs|
        ensures CoveredAt(env, es, vs, i) <==>
                (Serious(env, vs[i]) ==> AdvisoryOf(env, vs[i]) != "" && (FirstNamed(env, vs, i) ==> Excused(env, es, vs[i])))
      {
        SeriousIsRelevant(env, vs[i]);
        FirstNamedIsFirstOfKey(env, vs, i);
        ExcusedIsCovered(env, es, vs[i]);
      }
    }
  }

  /******* An example *******/

  function Named(key: string, value: string, style: Style): PrintedField {
    PrintedField(key, value, style, "  ", "", " ", "")
  }

  function Fields(package: string, advisory: string): seq<PrintedField> {
    [Named("package", package, Plain), Named("advisory", advisory, Double), Named("severity", "high", Plain),
     Named("mitigation", "pinned", Single), Named("expires_on", "2030-01-01", Double)]
  }

  /** A list with one exception, written as the repository writes its own. */
  function ListText(package: string, advisory: string): string {
    Print(["version: 1", "exceptions:"], [Fields(package, advisory)], LF, true)
  }

  function Exception(package: string, advisory: string): Entry {
    map["package" := package, "advisory" := advisory, "severity" := "high", "mitigation" := "pinned", "expires_on" := "2030-01-01"]
  }

  /** One advisory, with both of the preferred identifiers. */
  const ADVISORY := [
    ("module_name", Str("xlsx")), ("severity", Str("high")), ("url", Str("https://a")), ("github_advisory_id", Str("GHSA-1"))]

  const REPORT := Obj([("advisories", Obj([("1", Obj(ADVISORY))]))])

  lemma AdvisoryKeys()
    ensures Get(ADVISORY, "module_name") == Str("xlsx") && Get(ADVISORY, "severity") == Str("high")
    ensures Get(ADVISORY, "url") == Str("https://a") && Get(ADVISORY, "github_advisory_id") == Str("GHSA-1")
  {
    var a := ADVISORY;
    assert |a[0].0| == 11 && |a[1].0| == 8 && |a[2].0| == 3 && |a[3].0| == 18;
    GetExactly(a, "module_name");
    GetExactly(a, "severity");
    GetExactly(a, "url");
    GetExactly(a, "github_advisory_id");
    assert a[0] == ("module_name", Str("xlsx")) && a[1] == ("severity", Str("high"));
    assert a[2] == ("url", Str("https://a")) && a[3] == ("github_advisory_id", Str("GHSA-1"));
  }

  lemma ReportHasOneFinding(env: Env)
    ensures Vulns(env, REPORT) == Yield([Vuln(Str("xlsx"), Str("high"), Str("GHSA-1"))], false)
  {
    var members := [("1", Obj(ADVISORY))];
    AdvisoryKeys();
    assert FromAdvisory(env, Obj(ADVISORY)) == Yield([Vuln(Str("xlsx"), Str("high"), Str("GHSA-1"))], false);
    assert members[1..] == [] && FromAdvisories(env, members) == FromAdvisory(env, Obj(ADVISORY));
    var fields := REPORT.fields;
    assert fields[1..] == [] && |"vulnerabilities"| != |"advisories"|;
    assert Get(fields, "advisories") == Obj(members) && Get(fields, "vulnerabilities") == Null;
  }

  /** A key of small letters and underscores. */
  predicate Wordlike(key: string) {
    key != "" && forall i :: 0 <= i < |key| ==> 'a' <= key[i] <= 'z' || key[i] == '_'
  }

  lemma NamedIsFollowing(key: string, value: string, style: Style)
    requires Wordlike(key) && key != "version" && key != "exceptions"
    requires NoBreaks(value) && (style.Plain? ==> PlainValue(value))
    ensures Following(Named(key, value, style))
  {
    assert key + "" == key;
  }

  lemma PackageFollows(value: string)
    requires NoBreaks(value) && PlainValue(value)
    ensures Following(Named("package", value, Plain))
  {
    assert Wordlike("package") && "package" != "version" && "package" != "exceptions" by {
      assert "package"[0] != "version"[0] && |"package"| != |"exceptions"|;
    }
    NamedIsFollowing("package", value, Plain);
  }

  lemma AdvisoryFollows(value: string)
    requires NoBreaks(value)
    ensures Following(Named("advisory", value, Double))
  {
    assert Wordlike("advisory") && "advisory" != "version" && "advisory" != "exceptions" by {
      assert |"advisory"| != |"version"| && |"advisory"| != |"exceptions"|;
    }
    NamedIsFollowing("advisory", value, Double);
  }

  lemma SeverityFollows()
    ensures Following(Named("severity", "high", Plain))
  {
    assert Wordlike("severity") && "severity" != "version" && "severity" != "exceptions" by {
      assert |"severity"| != |"version"| && |"severity"| != |"exceptions"|;
    }
    NamedIsFollowing("severity", "high", Plain);
  }

  lemma MitigationFollows()
    ensures Following(Named("mitigation", "pinned", Single))
  {
    assert Wordlike("mitigation") && "mitigation" != "version" && "mitigation" != "exceptions" by {
      assert |"mitigation"| != |"version"| && "mitigation"[0] != "exceptions"[0];
    }
    NamedIsFollowing("mitigation", "pinned", Single);
  }

  lemma ExpiryFollows()
    ensures Following(Named("expires_on", "2030-01-01", Double))
  {
    assert Wordlike("expires_on") && "expires_on" != "version" && "expires_on" != "exceptions" by {
      assert |"expires_on"| != |"version"| && "expires_on"[2] != "exceptions"[2];
    }
    NamedIsFollowing("expires_on", "2030-01-01", Double);
  }

  lemma FiveArePrintable(a: PrintedField, b: PrintedField, c: PrintedField, d: PrintedField, e: PrintedField)
    requires Following(a) && Following(b) && Following(c) && Following(d) && Following(e)
    ensures Printable([a, b, c, d, e])
  {
  }

  lemma FieldsArePrintable(package: string, advisory: string)
    requires PlainValue(package) && NoBreaks(package) && NoBreaks(advisory)
    ensures Printable(Fields(package, advisory))
  {
    var f := Fields(package, advisory);
    PackageFollows(package);
    AdvisoryFollows(advisory);
    SeverityFollows();
    MitigationFollows();
    ExpiryFollows();
    FiveArePrintable(f[0], f[1], f[2], f[3], f[4]);
  }

  lemma MeaningSnoc(fields: seq<PrintedField>, f: PrintedField)
    ensures Meaning(fields + [f]) == Meaning(fields)[f.key := f.value]
  {
    assert (fields + [f])[..|fields|] == fields;
  }

  lemma FiveMean(a: PrintedField, b: PrintedField, c: PrintedField, d: PrintedField, e: PrintedField)
    ensures Meaning([a, b, c, d, e]) ==
            map[][a.key := a.value][b.key := b.value][c.key := c.value][d.key := d.value][e.key := e.value]
  {
    MeaningSnoc([], a);
    MeaningSnoc([a], b);
    MeaningSnoc([a, b], c);
    MeaningSnoc([a, b, c], d);
    MeaningSnoc([a, b, c, d], e);
    assert [] + [a] == [a] && [a] + [b] == [a, b] && [a, b] + [c] == [a, b, c];
    assert [a, b, c] + [d] == [a, b, c, d] && [a, b, c, d] + [e] == [a, b, c, d, e];
  }

  lemma FieldsMean(package: string, advisory: string)
    ensures Meaning(Fields(package, advisory)) == Exception(package, advisory)
  {
    var f := Fields(package, advisory);
    FiveMean(f[0], f[1], f[2], f[3], f[4]);
  }

  lemma HeaderIsIgnored()
    ensures Ignored(Strip("version: 1")) && Ignored(Strip("exceptions:"))
    ensures NoBreaks("version: 1") && NoBreaks("exceptions:")
  {
    StripTrimmed("version: 1");
    StripTrimmed("exceptions:");
    assert "version: 1"[..8] == "version:";
  }

  lemma ListIsRead(package: string, advisory: string)
    requires PlainValue(package) && NoBreaks(package) && NoBreaks(advisory)
    ensures Parsed(Lines(ListText(package, advisory))) == Some([Exception(package, advisory)])
  {
    var fields := Fields(package, advisory);
    HeaderIsIgnored();
    FieldsArePrintable(package, advisory);
    RoundTrip(["version: 1", "exceptions:"], [fields], LF, true);
    FieldsMean(package, advisory);
    OneMeaning(fields);
  }

  lemma OneMeaning(fields: seq<PrintedField>)
    ensures Meanings([fields]) == [Meaning(fields)]
  {
    assert [fields][..0] == [];
  }

  lemma ExceptionFields(package: string, advisory: string)
    ensures var e := Exception(package, advisory);
            && "package" in e && e["package"] == package && "advisory" in e && e["advisory"] == advisory
            && "severity" in e && e["severity"] == "high" && "mitigation" in e && e["mitigation"] == "pinned"
            && "expires_on" in e && e["expires_on"] == "2030-01-01"
  {
    assert |"package"| == 7 && |"advisory"| == |"severity"| == 8 && |"mitigation"| == |"expires_on"| == 10;
    assert "advisory"[0] != "severity"[0] && "mitigation"[0] != "expires_on"[0];
  }

  lemma ExceptionIsSound(env: Env, package: string, advisory: string, d: int)
    requires package != "" && Strip(package) == package && advisory != "" && env.lower(Strip(advisory)) != ""
    requires env.date("2030-01-01") == Some(d)
    ensures Sound(env, Exception(package, advisory))
  {
    ExceptionFields(package, advisory);
  }

  lemma ExceptionExcuses(env: Env, package: string, advisory: string, v: Vuln, d: int)
    requires Sound(env, Exception(package, advisory)) && Strip(package) == package
    requires env.date("2030-01-01") == Some(d) && env.today <= d && env.lower(Strip("high")) == SeverityOf(env, v)
    ensures Excuses(env, Exception(package, advisory), v) <==>
            package == PackageOf(env, v) && env.lower(Strip(advisory)) == AdvisoryOf(env, v)
  {
    ExceptionFields(package, advisory);
  }

  lemma PolicyOfOne(env: Env, e: Entry, v: Vuln)
    requires Sound(env, e) && Serious(env, v) && AdvisoryOf(env, v) != ""
    ensures Policy(env, [e], [v]) <==> Excuses(env, e, v)
  {
    assert FirstNamed(env, [v], 0);
    assert Excused(env, [e], v) <==> Excuses(env, [e][0], v);
    assert Policy(env, [e], [v]) <==> Excused(env, [e], [v][0]);
  }

  lemma OneFindingDecides(env: Env, lines: seq<string>, data: Json, e: Entry, v: Vuln)
    requires Parsed(lines) == Some([e]) && Vulns(env, data) == Yield([v], false)
    requires Sound(env, e) && Serious(env, v) && AdvisoryOf(env, v) != ""
    ensures Passes(env, lines, data) <==> Excuses(env, e, v)
  {
    PolicyOfOne(env, e, v);
    PolicyInWords(env, [e], [v]);
    SeriousIsRelevant(env, v);
    assert Passes(env, lines, data) <==> Accepts(env, [e], [v]);
  }

  lemma FindingIsSerious(env: Env)
    requires env.lower("high") == "high" && env.lower("GHSA-1") == "ghsa-1"
    ensures var v := Vuln(Str("xlsx"), Str("high"), Str("GHSA-1"));
            && Serious(env, v) && SeverityOf(env, v) == "high" == env.lower(Strip("high"))
            && PackageOf(env, v) == "xlsx" && AdvisoryOf(env, v) == "ghsa-1" != ""
  {
    StripTrimmed("xlsx");
    StripTrimmed("GHSA-1");
    StripTrimmed("high");
  }

  lemma GateDecides(env: Env, package: string, advisory: string, d: int)
    requires GoodPackage(package) && GoodAdvisory(advisory) && env.lower(advisory) != ""
    requires env.lower("high") == "high" && env.date("2030-01-01") == Some(d) && env.today <= d
    requires env.lower("GHSA-1") == "ghsa-1"
    ensures Passes(env, Lines(ListText(package, advisory)), REPORT) <==> package == "xlsx" && env.lower(advisory) == "ghsa-1"
  {
    var e, v := Exception(package, advisory), Vuln(Str("xlsx"), Str("high"), Str("GHSA-1"));
    StripTrimmed(package);
    StripTrimmed(advisory);
    ReportHasOneFinding(env);
    ListIsRead(package, advisory);
    FindingIsSerious(env);
    ExceptionIsSound(env, package, advisory, d);
    ExceptionExcuses(env, package, advisory, v, d);
    OneFindingDecides(env, Lines(ListText(package, advisory)), REPORT, e, v);
  }

  predicate GoodPackage(package: string) {
    package != "" && PlainValue(package) && NoBreaks(package)
  }

  predicate GoodAdvisory(advisory: string) {
    advisory != "" && Trimmed(advisory) && NoBreaks(advisory)
  }

  lemma PackagesAreGood()
    ensures GoodPackage("xlsx") && GoodPackage("Xlsx") && "Xlsx" != "xlsx"
  {
    assert "Xlsx"[0] != "xlsx"[0];
  }

  lemma AdvisoriesAreGood()
    ensures GoodAdvisory("ghsa-1") && GoodAdvisory("https://a") && "https://a" != "ghsa-1"
  {
    assert "https://a"[0] != "ghsa-1"[0];
  }

  /** An advisory with both identifiers is excused under the one that is preferred, in
      either case, and not under the other one, nor under a package of another case. */
  lemma GateExample(env: Env, d: int)
    requires env.lower("high") == "high" && env.lower("GHSA-1") == env.lower("ghsa-1") == "ghsa-1"
    requires env.lower("https://a") == "https://a" && env.date("2030-01-01") == Some(d) && env.today <= d
    ensures Passes(env, Lines(ListText("xlsx", "ghsa-1")), REPORT)
    ensures !Passes(env, Lines(ListText("xlsx", "https://a")), REPORT)
    ensures !Passes(env, Lines(ListText("Xlsx", "ghsa-1")), REPORT)
  {
    PackagesAreGood();
    AdvisoriesAreGood();
    GateDecides(env, "xlsx", "ghsa-1", d);
    GateDecides(env, "xlsx", "https://a", d);
    GateDecides(env, "Xlsx", "ghsa-1", d);
  }
}
