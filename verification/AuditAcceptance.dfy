/** Which findings some exceptions file can make the gate accept. */
module AuditAcceptance {
  import opened Wrappers
  import opened AuditText
  import opened AuditParse
  import opened AuditRoundTrip
  import opened AuditVulns
  import opened AuditGate
  import opened AuditVerdict

  /** What is assumed of `str.lower`. */
  ghost predicate PlainLower(env: Env) {
    && env.lower("") == "" && env.lower("high") == "high" && env.lower("critical") == "critical"
    && forall s :: OneLine(env.lower(s)) <==> OneLine(s)
  }

  /** This text is read as a date that has not passed. */
  ghost predicate Dates(env: Env, date: string) {
    date != "" && OneLine(date) && env.parseDate(date).Some? && env.parseDate(date).value >= env.today
  }

  ghost predicate CanBeDated(env: Env) {
    exists date :: Dates(env, date)
  }

  /** An exceptions file can hold a key with this package name and this advisory. */
  predicate CanBeWritten(key: Key) {
    key.0 != "" && OneLine(key.0) && OneLine(key.1)
  }

  /** Every severity can be read, every blocking finding has an id and a package name that can be written, and an
      unexpired exception could be written. */
  ghost predicate Acceptable(env: Env, fs: seq<Finding>) {
    Readable(env, fs) && forall f | f in fs && Counted(env, f) :: CanBeWritten(FindingKey(env, f)) && CanBeDated(env)
  }

  /** The exceptions file with this text makes the gate accept these findings. */
  ghost predicate Passes(env: Env, text: string, fs: seq<Finding>) {
    Parsed(Lines(text)).Some? && Accepts(env, Parsed(Lines(text)).value, fs)
  }

  // ---- What is accepted is acceptable ----

  /** Where the first finding with the key of finding `i` stands. */
  lemma {:induction false} FirstOf(env: Env, fs: seq<Finding>, i: nat) returns (k: nat)
    requires i < |fs| && Counted(env, fs[i])
    ensures k <= i && FirstWithKey(env, fs, k) && FindingKey(env, fs[k]) == FindingKey(env, fs[i])
  {
    k := i;
    if !FirstWithKey(env, fs, i) {
      k :| k < i && Counted(env, fs[k]) && FindingKey(env, fs[k]) == FindingKey(env, fs[i]);
      k := FirstOf(env, fs, k);
    }
  }

  lemma ExemptedIsWritten(env: Env, text: string, f: Finding)
    requires PlainLower(env) && Parsed(Lines(text)).Some? && Exempted(env, Parsed(Lines(text)).value, f)
    ensures CanBeWritten(FindingKey(env, f)) && CanBeDated(env)
  {
    var exc :| exc in Parsed(Lines(text)).value && Exempts(env, exc, f);
    ValuesAreLines(text);
    assert "expires_on" in REQUIRED_FIELDS by {
      assert REQUIRED_FIELDS[4] == "expires_on";
    }
    assert Dates(env, Get(exc, "expires_on"));
    StripOneLine(Get(exc, "package"));
    StripOneLine(Get(exc, "advisory"));
  }

  lemma PassedIsAcceptable(env: Env, text: string, fs: seq<Finding>)
    requires PlainLower(env) && Passes(env, text, fs)
    ensures Acceptable(env, fs)
  {
    forall f | f in fs && Counted(env, f)
      ensures CanBeWritten(FindingKey(env, f)) && CanBeDated(env)
    {
      var i :| 0 <= i < |fs| && fs[i] == f;
      var k := FirstOf(env, fs, i);
      ExemptedIsWritten(env, text, fs[k]);
    }
  }

  // ---- An exception for a finding ----

  function TextOf(x: Scalar): string {
    match StrOf(x)
    case Text(s) => s
    case _ => ""
  }

  /** The severity that makes a finding blocking. */
  function SeverityText(env: Env, f: Finding): string {
    if SeverityOf(env, f.severity).Some? then SeverityOf(env, f.severity).value else ""
  }

  /** An exception with these values, as it is written to a file. */
  function EntriesOf(package: string, advisory: string, severity: string, date: string): seq<Entry> {
    More(More(More(More([Entry("", "package", package, DoubleQuoted)], "advisory", advisory), "severity", severity),
              "mitigation", "m"), "expires_on", date)
  }

  function More(es: seq<Entry>, key: string, value: string): seq<Entry> {
    es + [Entry("  ", key, value, DoubleQuoted)]
  }

  lemma MoreIsPrintable(es: seq<Entry>, key: string, value: string)
    requires Printable(es) && FieldName(key) && OneLine(value)
    ensures Printable(More(es, key, value)) && RecordOf(More(es, key, value)) == RecordOf(es)[key := value]
  {
    OneMoreEntry(es, key, value, DoubleQuoted);
  }

  lemma AreFieldNames()
    ensures AllLetters("package") && FieldName("advisory") && FieldName("severity") && FieldName("mitigation")
    ensures FieldName("expires_on")
  {
  }

  function RecordWith(package: string, advisory: string, severity: string, date: string): Record {
    map["package" := package]["advisory" := advisory]["severity" := severity]["mitigation" := "m"]["expires_on" := date]
  }

  lemma EntriesAreRecord(package: string, advisory: string, severity: string, date: string)
    requires OneLine(package) && OneLine(advisory) && OneLine(severity) && OneLine(date)
    ensures Printable(EntriesOf(package, advisory, severity, date))
    ensures RecordOf(EntriesOf(package, advisory, severity, date)) == RecordWith(package, advisory, severity, date)
  {
    var es := [Entry("", "package", package, DoubleQuoted)];
    AreFieldNames();
    FirstEntry("package", package, DoubleQuoted);
    MoreIsPrintable(es, "advisory", advisory);
    MoreIsPrintable(More(es, "advisory", advisory), "severity", severity);
    MoreIsPrintable(More(More(es, "advisory", advisory), "severity", severity), "mitigation", "m");
    MoreIsPrintable(More(More(More(es, "advisory", advisory), "severity", severity), "mitigation", "m"), "expires_on",
                    date);
  }

  /** An exception for this finding that names its severity. */
  function ExceptionOf(env: Env, f: Finding, date: string): Record {
    RecordWith(Strip(TextOf(f.name)), Strip(TextOf(f.advisory)), SeverityText(env, f), date)
  }

  lemma StripTwice(s: string)
    ensures Strip(Strip(s)) == Strip(s)
  {
    var a, b := StripSplits(s);
    StripTrimmed(Strip(s));
  }

  /** The texts behind the key of a counted finding. */
  lemma KeyTexts(env: Env, f: Finding)
    requires PlainLower(env) && Counted(env, f) && CanBeWritten(FindingKey(env, f))
    ensures FindingKey(env, f) == (Strip(TextOf(f.name)), env.lower(Strip(TextOf(f.advisory))))
    ensures Strip(TextOf(f.name)) != "" && OneLine(Strip(TextOf(f.name)))
    ensures Strip(TextOf(f.advisory)) != "" && OneLine(Strip(TextOf(f.advisory)))
    ensures SeverityText(env, f) in HIGH_SEVERITIES && Some(SeverityText(env, f)) == SeverityOf(env, f.severity)
    ensures Normalized(env, SeverityText(env, f)) == SeverityText(env, f) && OneLine(SeverityText(env, f))
  {
    StripTrimmed("high");
    StripTrimmed("critical");
  }

  /** This exception names the severity of the finding and exempts it. */
  ghost predicate Names(env: Env, exc: Record, f: Finding) {
    && Exempts(env, exc, f) && Some(ExemptionOf(env, exc).severity) == SeverityOf(env, f.severity)
    && ExemptionOf(env, exc).severity != ""
  }

  lemma ExceptionOfNames(env: Env, f: Finding, date: string)
    requires PlainLower(env) && Counted(env, f) && CanBeWritten(FindingKey(env, f)) && Dates(env, date)
    ensures Names(env, ExceptionOf(env, f, date), f)
  {
    var exc := ExceptionOf(env, f, date);
    KeyTexts(env, f);
    StripTwice(TextOf(f.name));
    StripTwice(TextOf(f.advisory));
    assert Get(exc, "package") == Strip(TextOf(f.name)) && Get(exc, "advisory") == Strip(TextOf(f.advisory));
    assert Get(exc, "severity") == SeverityText(env, f) && Get(exc, "mitigation") == "m";
    assert Get(exc, "expires_on") == date;
    assert HasRequiredFields(exc);
  }

  // ---- A file with an exception for every key ----

  /** The first finding of every key. */
  function Firsts(env: Env, fs: seq<Finding>): seq<Finding> {
    if fs == [] then []
    else
      var n := |fs| - 1;
      Firsts(env, fs[..n]) + if FirstWithKey(env, fs, n) then [fs[n]] else []
  }

  lemma {:induction false} FirstsMembers(env: Env, fs: seq<Finding>)
    ensures forall f :: f in Firsts(env, fs) <==> exists i: nat :: FirstWithKey(env, fs, i) && f == fs[i]
  {
    if fs != [] {
      var n := |fs| - 1;
      FirstsMembers(env, fs[..n]);
      forall i: nat | i < n
        ensures FirstWithKey(env, fs[..n], i) <==> FirstWithKey(env, fs, i)
        ensures fs[..n][i] == fs[i]
      {
        FirstInPrefix(env, fs, n, i);
      }
    }
  }

  ghost predicate KeysDiffer(env: Env, fs: seq<Finding>) {
    forall j, k | 0 <= j < k < |fs| :: FindingKey(env, fs[j]) != FindingKey(env, fs[k])
  }

  lemma {:induction false} FirstsDiffer(env: Env, fs: seq<Finding>)
    ensures KeysDiffer(env, Firsts(env, fs))
  {
    if fs != [] {
      var n := |fs| - 1;
      var front := Firsts(env, fs[..n]);
      FirstsDiffer(env, fs[..n]);
      FirstsMembers(env, fs[..n]);
      if FirstWithKey(env, fs, n) {
        forall k | 0 <= k < |front|
          ensures FindingKey(env, front[k]) != FindingKey(env, fs[n])
        {
          assert front[k] in front;
          var i: nat :| FirstWithKey(env, fs[..n], i) && front[k] == fs[..n][i];
          assert fs[..n][i] == fs[i];
        }
      }
    }
  }

  function Written(env: Env, fs: seq<Finding>, date: string): (r: seq<seq<Entry>>)
    ensures |r| == |fs|
  {
    seq(|fs|, k requires 0 <= k < |fs| =>
      EntriesOf(Strip(TextOf(fs[k].name)), Strip(TextOf(fs[k].advisory)), SeverityText(env, fs[k]), date))
  }

  function ExceptionsFor(env: Env, fs: seq<Finding>, date: string): (r: seq<Record>)
    ensures |r| == |fs|
  {
    seq(|fs|, k requires 0 <= k < |fs| => ExceptionOf(env, fs[k], date))
  }

  /** Findings for which exceptions with this date can be written. */
  ghost predicate AllWritten(env: Env, fs: seq<Finding>, date: string) {
    forall f | f in fs :: Counted(env, f) && CanBeWritten(FindingKey(env, f)) && Dates(env, date)
  }

  lemma WrittenParses(env: Env, fs: seq<Finding>, date: string)
    requires PlainLower(env) && AllWritten(env, fs, date)
    ensures Parsed(Lines(FileText(AllLines(Written(env, fs, date))))) == Some(ExceptionsFor(env, fs, date))
  {
    forall k | 0 <= k < |fs|
      ensures Printable(Written(env, fs, date)[k])
      ensures RecordOf(Written(env, fs, date)[k]) == ExceptionOf(env, fs[k], date)
    {
      assert fs[k] in fs;
      KeyTexts(env, fs[k]);
      EntriesAreRecord(Strip(TextOf(fs[k].name)), Strip(TextOf(fs[k].advisory)), SeverityText(env, fs[k]), date);
    }
    FileRoundTrip(Written(env, fs, date));
    assert RecordsOf(Written(env, fs, date)) == ExceptionsFor(env, fs, date);
  }

  lemma ExceptionsForNames(env: Env, fs: seq<Finding>, date: string)
    requires PlainLower(env) && AllWritten(env, fs, date) && KeysDiffer(env, fs)
    ensures AllWellFormed(env, ExceptionsFor(env, fs, date)) && DistinctKeys(env, ExceptionsFor(env, fs, date))
    ensures forall f | f in fs :: ExceptionOf(env, f, date) in ExceptionsFor(env, fs, date) &&
                                  Names(env, ExceptionOf(env, f, date), f)
  {
    var excs := ExceptionsFor(env, fs, date);
    forall k | 0 <= k < |fs|
      ensures excs[k] in excs && Names(env, excs[k], fs[k])
    {
      assert fs[k] in fs;
      ExceptionOfNames(env, fs[k], date);
    }
  }

  /** The file has an exception for the first finding of every key, which names its severity. */
  ghost predicate NamesFirsts(env: Env, text: string, fs: seq<Finding>)
    requires Parsed(Lines(text)).Some?
  {
    forall i: nat | FirstWithKey(env, fs, i) ::
      exists exc :: exc in Parsed(Lines(text)).value && Names(env, exc, fs[i])
  }

  lemma FirstsAreWritten(env: Env, fs: seq<Finding>) returns (date: string)
    requires Acceptable(env, fs)
    ensures AllWritten(env, Firsts(env, fs), date)
  {
    date := "";
    FirstsMembers(env, fs);
    if f :| f in fs && Counted(env, f) {
      date :| Dates(env, date);
    }
    forall f | f in Firsts(env, fs)
      ensures Counted(env, f) && CanBeWritten(FindingKey(env, f)) && Dates(env, date)
    {
      var i: nat :| FirstWithKey(env, fs, i) && f == fs[i];
      assert fs[i] in fs;
    }
  }

  /** For acceptable findings a file can be written that the gate accepts, and that names all severities. */
  lemma AcceptingText(env: Env, fs: seq<Finding>) returns (text: string)
    requires PlainLower(env) && Acceptable(env, fs)
    ensures Passes(env, text, fs) && NamesFirsts(env, text, fs)
  {
    var date := FirstsAreWritten(env, fs);
    var firsts := Firsts(env, fs);
    FirstsMembers(env, fs);
    FirstsDiffer(env, fs);
    text := FileText(AllLines(Written(env, firsts, date)));
    WrittenParses(env, firsts, date);
    ExceptionsForNames(env, firsts, date);
    forall i: nat | FirstWithKey(env, fs, i)
      ensures Names(env, ExceptionOf(env, fs[i], date), fs[i])
      ensures ExceptionOf(env, fs[i], date) in ExceptionsFor(env, firsts, date)
    {
      assert fs[i] in firsts;
    }
  }

  lemma PassableIff(env: Env, fs: seq<Finding>)
    requires PlainLower(env)
    ensures Acceptable(env, fs) <==> exists text :: Passes(env, text, fs)
  {
    if Acceptable(env, fs) {
      var text := AcceptingText(env, fs);
    }
    if text :| Passes(env, text, fs) {
      PassedIsAcceptable(env, text, fs);
    }
  }

  /** Some exceptions file makes the gate pass an audit if and only if the audit can be read and its findings are
      acceptable. */
  lemma AcceptableIff(env: Env, audit: Audit)
    requires PlainLower(env)
    ensures (exists text :: Verdict(env, text, audit) == Validated) <==>
            Findings(audit).Some? && Acceptable(env, Findings(audit).value)
  {
    forall text
      ensures Verdict(env, text, audit) == Validated <==>
              Findings(audit).Some? && Passes(env, text, Findings(audit).value)
    {
      ValidatedIff(env, text, audit);
    }
    if Findings(audit).Some? {
      PassableIff(env, Findings(audit).value);
    }
  }
}
