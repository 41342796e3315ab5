/** One exceptions file, and two audits between which only the order decides. */
module AuditSamples {
  import opened Wrappers
  import opened AuditText
  import opened AuditParse
  import opened AuditRoundTrip
  import opened AuditVulns
  import opened AuditFindings
  import opened AuditGate
  import opened AuditVerdict
  import opened AuditAcceptance
  import opened AuditOrder
  import opened AuditReorder

  const SAMPLE_RECORD: seq<Entry> := EntriesOf("p", "a", "high", "2030-01-01")

  function SampleException(): Record {
    RecordWith("p", "a", "high", "2030-01-01")
  }

  /** Letters are lower case already, and the only date that can be read is day 10; today is day 5. */
  const SAMPLE_ENV: Env := Env(s => s, s => if s == "2030-01-01" then Some(10) else None, 5)

  function SampleAdvisory(severity: string): Advisory {
    Advisory(Text("p"), Missing, Text(severity), Text("a"), Missing, [], Missing, Missing, Missing, Missing)
  }

  function SampleFinding(severity: string): Finding {
    Finding(Text("p"), Text(severity), Text("a"), Missing)
  }

  lemma SampleText()
    ensures Parsed(Lines(FileText(AllLines([SAMPLE_RECORD])))) == Some([SampleException()])
  {
    EntriesAreRecord("p", "a", "high", "2030-01-01");
    FileOfOne(SAMPLE_RECORD);
  }

  lemma FileOfOne(es: seq<Entry>)
    requires Printable(es)
    ensures Parsed(Lines(FileText(AllLines([es])))) == Some([RecordOf(es)])
  {
    FileRoundTrip([es]);
    assert RecordsOf([es]) == [RecordOf(es)];
  }

  lemma SampleStrings()
    ensures Strip("p") == "p" && Strip("a") == "a" && Strip("high") == "high" && Strip("critical") == "critical"
  {
    StripTrimmed("p");
    StripTrimmed("a");
    StripTrimmed("high");
    StripTrimmed("critical");
  }

  lemma SampleIsWellFormed()
    ensures WellFormed(SAMPLE_ENV, SampleException()) && ExceptionKey(SAMPLE_ENV, SampleException()) == ("p", "a")
    ensures ExemptionOf(SAMPLE_ENV, SampleException()) == Exemption("high", 10)
  {
    SampleStrings();
    var exc := SampleException();
    assert Get(exc, "package") == "p" && Get(exc, "advisory") == "a" && Get(exc, "severity") == "high";
    assert Get(exc, "mitigation") == "m" && Get(exc, "expires_on") == "2030-01-01";
  }

  lemma SampleFindings(first: string, second: string)
    ensures Findings(Audit([SampleAdvisory(first), SampleAdvisory(second)], [])) ==
            Some([SampleFinding(first), SampleFinding(second)])
  {
    var advisories := [SampleAdvisory(first), SampleAdvisory(second)];
    assert AdvisoryFindings(advisories) == [SampleFinding(first), SampleFinding(second)];
    assert AdvisoryFindings(advisories) + [] == AdvisoryFindings(advisories);
  }

  lemma SampleIsBlocking(severity: string)
    requires severity == "high" || severity == "critical"
    ensures Counted(SAMPLE_ENV, SampleFinding(severity))
    ensures FindingKey(SAMPLE_ENV, SampleFinding(severity)) == ("p", "a")
    ensures SeverityOf(SAMPLE_ENV, Text(severity)) == Some(severity)
    ensures Exempts(SAMPLE_ENV, SampleException(), SampleFinding(severity)) <==> severity == "high"
  {
    SampleStrings();
    SampleIsWellFormed();
  }

  lemma SampleAccepts(first: string, second: string)
    requires first == "high" || first == "critical"
    requires second == "high" || second == "critical"
    ensures Accepts(SAMPLE_ENV, [SampleException()], [SampleFinding(first), SampleFinding(second)]) <==>
            first == "high"
  {
    SampleIsBlocking(first);
    SampleIsBlocking(second);
    SampleIsWellFormed();
    AcceptsTwo(SAMPLE_ENV, SampleException(), SampleFinding(first), SampleFinding(second));
  }

  /** One exception and two findings of one key. */
  lemma AcceptsTwo(env: Env, exc: Record, f: Finding, g: Finding)
    requires WellFormed(env, exc) && Counted(env, f) && Counted(env, g) && FindingKey(env, f) == FindingKey(env, g)
    ensures Accepts(env, [exc], [f, g]) <==> Exempts(env, exc, f)
  {
    var fs, excs := [f, g], [exc];
    assert excs[0] in excs;
    assert FirstWithKey(env, fs, 0) && !FirstWithKey(env, fs, 1);
    assert Exempted(env, excs, f) <==> Exempts(env, exc, f);
    assert Readable(env, fs);
  }

  /** One file, and two audits with the same two advisories: the gate passes with the high one in front, and fails
      with the critical one in front. */
  lemma OrderCanDecide() returns (env: Env, text: string, a: Audit, b: Audit)
    ensures SameEntries(a, b) && Verdict(env, text, a) == Validated && Verdict(env, text, b) != Validated
  {
    var x, y := SampleAdvisory("high"), SampleAdvisory("critical");
    env, text := SAMPLE_ENV, FileText(AllLines([SAMPLE_RECORD]));
    a, b := Audit([x, y], []), Audit([y, x], []);
    SampleText();
    SampleFindings("high", "critical");
    SampleFindings("critical", "high");
    SampleAccepts("high", "critical");
    SampleAccepts("critical", "high");
    ValidatedIff(env, text, a);
    ValidatedIff(env, text, b);
  }

  /** Only the first finding of a package and advisory is compared with the severity that the exception names: an audit
      passes with a critical advisory although every exception names another severity. */
  lemma SecondSeverityIsNotCompared() returns (env: Env, text: string, audit: Audit, a: Advisory)
    ensures Verdict(env, text, audit) == Validated && a in audit.advisories
    ensures a.severity.Text? && env.lower(Strip(a.severity.s)) == "critical"
    ensures Parsed(Lines(text)).Some?
    ensures forall exc | exc in Parsed(Lines(text)).value ::
              "severity" in exc && env.lower(Strip(exc["severity"])) == "high"
  {
    var x, y := SampleAdvisory("high"), SampleAdvisory("critical");
    env, text := SAMPLE_ENV, FileText(AllLines([SAMPLE_RECORD]));
    audit, a := Audit([x, y], []), y;
    SampleText();
    SampleFindings("high", "critical");
    SampleAccepts("high", "critical");
    SampleStrings();
    ValidatedIff(env, text, audit);
    assert audit.advisories[1] == y;
    assert SampleException()["severity"] == "high";
  }

  /** An advisory and a vulnerability with one key and two severities. The advisory comes first in any order of the
      audit, so no file tells the orders apart; one would if the two findings could trade places. */
  lemma AdvisoryAlwaysFirst() returns (env: Env, a: Audit)
    ensures Findings(a).Some? && Acceptable(env, Findings(a).value)
    ensures !OrderIrrelevant(env, Findings(a).value) && ReorderingIsIrrelevant(env, a)
  {
    env := SAMPLE_ENV;
    var g := Finding(Text("p"), Text("critical"), Text("a"), Text("a"));
    a := Audit([SampleAdvisory("high")], [Vulnerability("p", Text("critical"), ViaName("a"))]);
    SampleIsBlocking("high");
    SampleIsBlocking("critical");
    assert Untitled(g) == SampleFinding("critical");
    TitleDoesNotMatter(env, g);
    assert Dates(env, "2030-01-01");
    MixedAudit(env, SampleAdvisory("high"), "p", Text("critical"), "a");
  }

  lemma MixedAudit(env: Env, x: Advisory, name: string, severity: Scalar, s: string)
    requires var f, g := AdvisoryFinding(x), Finding(Text(name), severity, Text(s), Text(s));
             && Counted(env, f) && Counted(env, g) && FindingKey(env, f) == FindingKey(env, g)
             && SeverityOf(env, f.severity) != SeverityOf(env, g.severity) && CanBeWritten(FindingKey(env, f))
    requires PlainLower(env) && CanBeDated(env) && s != ""
    ensures var a := Audit([x], [Vulnerability(name, severity, ViaName(s))]);
            && Findings(a).Some? && Acceptable(env, Findings(a).value)
            && !OrderIrrelevant(env, Findings(a).value) && ReorderingIsIrrelevant(env, a)
  {
    var f, g := AdvisoryFinding(x), Finding(Text(name), severity, Text(s), Text(s));
    MixedFindings(x, name, severity, s);
    MixedParts(env, f, g);
    OrderIrrelevantIff(env, [f, g]);
    AuditOrderIff(env, Audit([x], [Vulnerability(name, severity, ViaName(s))]));
  }

  /** Two findings of one key and two severities, one in each part of an audit. */
  lemma MixedParts(env: Env, f: Finding, g: Finding)
    requires Counted(env, f) && Counted(env, g) && FindingKey(env, f) == FindingKey(env, g)
    requires SeverityOf(env, f.severity) != SeverityOf(env, g.severity)
    requires CanBeWritten(FindingKey(env, f)) && CanBeDated(env)
    ensures FirstsAgree(env, [f], [g]) && Acceptable(env, [f, g]) && !SeveritiesAgree(env, [f, g])
  {
    assert f in [f] && f in [f, g] && g in [f, g];
  }

  lemma MixedFindings(x: Advisory, name: string, severity: Scalar, s: string)
    requires s != ""
    ensures var f, g := AdvisoryFinding(x), Finding(Text(name), severity, Text(s), Text(s));
            var vs := [Vulnerability(name, severity, ViaName(s))];
            && AdvisoryFindings([x]) == [f] && AllVulnFindings(vs) == Some([g])
            && Findings(Audit([x], vs)) == Some([f, g])
  {
    var v := Vulnerability(name, severity, ViaName(s));
    NamedVuln(v, s);
    OneEntry(v);
    OneOfEach(x, [v], Finding(Text(name), severity, Text(s), Text(s)));
  }

  lemma OneOfEach(x: Advisory, vs: seq<Vulnerability>, g: Finding)
    requires AllVulnFindings(vs) == Some([g])
    ensures AdvisoryFindings([x]) == [AdvisoryFinding(x)]
    ensures Findings(Audit([x], vs)) == Some([AdvisoryFinding(x), g])
  {
    assert AdvisoryFindings([x]) == [AdvisoryFinding(x)];
    assert [AdvisoryFinding(x)] + [g] == [AdvisoryFinding(x), g];
  }

  lemma OneText(s: string)
    requires s != ""
    ensures TruthyOnes([Text(s)]) == [Text(s)] && JoinTitles([Text(s)]) == Some(s)
  {
    var one := [Text(s)];
    assert one[..|one| - 1] == [];
    assert TruthyOnes(one) == [] + one && JoinTitles(one) == Some(s);
  }

  lemma NamedVuln(v: Vulnerability, s: string)
    requires s != "" && v.via == ViaName(s)
    ensures VulnFindings(v) == Some([Finding(Text(v.name), v.severity, Text(s), Text(s))])
  {
    assert ItemIds(ViaItems(v.via)) == [Text(s)] && ItemTitles(ViaItems(v.via)) == [Text(s)];
    OneText(s);
    assert VulnTitle(v) == Some(s);
    var r := VulnFindings(v).value;
    assert r == [Finding(Text(v.name), v.severity, Text(s), Text(s))];
  }
}
