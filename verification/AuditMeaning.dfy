/** The verdict of the gate, said of the texts in the file and in the audit alone. */
module AuditMeaning {
  import opened Wrappers
  import opened AuditText
  import opened AuditParse
  import opened AuditVulns
  import opened AuditFindings
  import opened AuditGate
  import opened AuditVerdict

  /** What Python's `str` makes of a value; nothing for null. */
  function AsText(x: Scalar): string {
    match x
    case Missing => ""
    case Text(s) => s
    case Other(text, _) => text
  }

  /** The severity as it is compared: null, false and zero count as the empty text. */
  function Level(env: Env, f: Finding): string {
    env.lower(Strip(if f.severity.Text? then f.severity.s else ""))
  }

  /** The finding is on a named package, and its severity is "high" or "critical" in whatever case. */
  predicate MustBeExempted(env: Env, f: Finding) {
    Truthy(f.name) && (Level(env, f) == "high" || Level(env, f) == "critical")
  }

  /** The advisory as it is compared. */
  function AdvisoryText(env: Env, f: Finding): string {
    if f.advisory.Missing? then "" else env.lower(Strip(AsText(f.advisory)))
  }

  predicate SameSubject(env: Env, f: Finding, g: Finding) {
    Strip(AsText(f.name)) == Strip(AsText(g.name)) && AdvisoryText(env, f) == AdvisoryText(env, g)
  }

  /** The record has the five fields, none of them empty, a date that can be read, and a package and an advisory that
      are not blank. */
  predicate IsUsable(env: Env, exc: Record) {
    && HasFiveFields(exc) && env.parseDate(exc["expires_on"]).Some?
    && Strip(exc["package"]) != "" && env.lower(Strip(exc["advisory"])) != ""
  }

  predicate HasFiveFields(exc: Record) {
    && "package" in exc && exc["package"] != "" && "advisory" in exc && exc["advisory"] != ""
    && "severity" in exc && exc["severity"] != "" && "mitigation" in exc && exc["mitigation"] != ""
    && "expires_on" in exc && exc["expires_on"] != ""
  }

  predicate SameTarget(env: Env, exc: Record, other: Record) {
    && HasFiveFields(exc) && HasFiveFields(other)
    && Strip(exc["package"]) == Strip(other["package"])
    && env.lower(Strip(exc["advisory"])) == env.lower(Strip(other["advisory"]))
  }

  /** The record is for the package and the advisory of the finding, and its day has not passed. */
  predicate IsFor(env: Env, exc: Record, f: Finding) {
    && IsUsable(env, exc)
    && Strip(exc["package"]) == Strip(AsText(f.name))
    && env.lower(Strip(exc["advisory"])) == AdvisoryText(env, f)
    && env.parseDate(exc["expires_on"]).value >= env.today
  }

  /** And it names no severity, or that of the finding. */
  predicate IsExemption(env: Env, exc: Record, f: Finding) {
    && IsFor(env, exc, f)
    && (env.lower(Strip(exc["severity"])) == "" || env.lower(Strip(exc["severity"])) == Level(env, f))
  }

  /** The severity of the finding is a text, or one that counts as the empty text. */
  predicate HasReadableSeverity(f: Finding) {
    f.severity.Text? || !Truthy(f.severity)
  }

  /** No earlier finding that must be exempted has the same package and advisory. */
  predicate IsFirst(env: Env, fs: seq<Finding>, i: nat)
    requires i < |fs|
  {
    forall j | 0 <= j < i :: !(MustBeExempted(env, fs[j]) && SameSubject(env, fs[j], fs[i]))
  }

  // ---- The same as in the code ----

  lemma UsableIsWellFormed(env: Env, exc: Record)
    ensures IsUsable(env, exc) <==> WellFormed(env, exc)
    ensures HasFiveFields(exc) <==> HasRequiredFields(exc)
    ensures HasFiveFields(exc) ==>
              ExceptionKey(env, exc) == (Strip(exc["package"]), env.lower(Strip(exc["advisory"])))
  {
    assert REQUIRED_FIELDS[0] == "package" && REQUIRED_FIELDS[1] == "advisory" && REQUIRED_FIELDS[2] == "severity";
    assert REQUIRED_FIELDS[3] == "mitigation" && REQUIRED_FIELDS[4] == "expires_on";
    assert HasRequiredFields(exc) <==> forall k | 0 <= k < 5 :: Get(exc, REQUIRED_FIELDS[k]) != "";
  }

  lemma ReadFinding(env: Env, f: Finding)
    ensures HasReadableSeverity(f) <==> SeverityOf(env, f.severity).Some?
    ensures HasReadableSeverity(f) ==> SeverityOf(env, f.severity) == Some(Level(env, f))
    ensures HasReadableSeverity(f) ==> (MustBeExempted(env, f) <==> Blocking(env, f))
    ensures FindingKey(env, f) == (if f.name.Missing? then "" else Strip(AsText(f.name)), AdvisoryText(env, f))
    ensures Truthy(f.name) ==> FindingKey(env, f) == (Strip(AsText(f.name)), AdvisoryText(env, f))
  {
  }

  lemma ExemptionIsExempts(env: Env, exc: Record, f: Finding)
    requires HasReadableSeverity(f) && Truthy(f.name)
    ensures IsExemption(env, exc, f) <==> Exempts(env, exc, f)
  {
    UsableIsWellFormed(env, exc);
    ReadFinding(env, f);
    assert HasFiveFields(exc) ==>
        Get(exc, "severity") == exc["severity"] && Get(exc, "expires_on") == exc["expires_on"];
  }

  // ---- When the gate passes ----

  ghost predicate AllUsable(env: Env, excs: seq<Record>) {
    forall exc | exc in excs :: IsUsable(env, exc)
  }

  ghost predicate TargetsDiffer(env: Env, excs: seq<Record>) {
    forall j, k | 0 <= j < k < |excs| :: !SameTarget(env, excs[j], excs[k])
  }

  /** Every severity can be read, and what must be exempted has an advisory. */
  ghost predicate AllReadable(env: Env, fs: seq<Finding>) {
    forall f | f in fs :: HasReadableSeverity(f) && (MustBeExempted(env, f) ==> AdvisoryText(env, f) != "")
  }

  ghost predicate IsExempted(env: Env, excs: seq<Record>, f: Finding) {
    exists exc :: exc in excs && IsExemption(env, exc, f)
  }

  /** The first finding of every package and advisory that must be exempted is. */
  ghost predicate FirstsAreExempted(env: Env, excs: seq<Record>, fs: seq<Finding>) {
    forall i | 0 <= i < |fs| && MustBeExempted(env, fs[i]) && IsFirst(env, fs, i) :: IsExempted(env, excs, fs[i])
  }

  lemma ExceptionsAlike(env: Env, excs: seq<Record>)
    ensures AllUsable(env, excs) <==> AllWellFormed(env, excs)
    ensures AllUsable(env, excs) ==> (TargetsDiffer(env, excs) <==> DistinctKeys(env, excs))
  {
    forall exc
      ensures IsUsable(env, exc) <==> WellFormed(env, exc)
      ensures HasFiveFields(exc) ==>
                ExceptionKey(env, exc) == (Strip(exc["package"]), env.lower(Strip(exc["advisory"])))
    {
      UsableIsWellFormed(env, exc);
    }
    assert forall j | 0 <= j < |excs| :: excs[j] in excs;
  }

  lemma ReadableAlike(env: Env, fs: seq<Finding>)
    ensures AllReadable(env, fs) <==> Readable(env, fs)
    ensures AllReadable(env, fs) ==> forall f | f in fs :: MustBeExempted(env, f) <==> Counted(env, f)
  {
    forall f
      ensures HasReadableSeverity(f) <==> SeverityOf(env, f.severity).Some?
      ensures HasReadableSeverity(f) ==> (MustBeExempted(env, f) <==> Blocking(env, f))
      ensures FindingKey(env, f).1 == AdvisoryText(env, f)
    {
      ReadFinding(env, f);
    }
  }

  lemma FirstAlike(env: Env, fs: seq<Finding>, i: nat)
    requires AllReadable(env, fs) && i < |fs|
    ensures FirstWithKey(env, fs, i) <==> MustBeExempted(env, fs[i]) && IsFirst(env, fs, i)
  {
    ReadableAlike(env, fs);
    forall j | 0 <= j <= i
      ensures MustBeExempted(env, fs[j]) <==> Counted(env, fs[j])
      ensures MustBeExempted(env, fs[j]) && MustBeExempted(env, fs[i]) ==>
                (SameSubject(env, fs[j], fs[i]) <==> FindingKey(env, fs[j]) == FindingKey(env, fs[i]))
    {
      assert fs[j] in fs;
      ReadFinding(env, fs[j]);
      ReadFinding(env, fs[i]);
    }
  }

  lemma ExemptedAlike(env: Env, excs: seq<Record>, f: Finding)
    requires HasReadableSeverity(f) && Truthy(f.name)
    ensures IsExempted(env, excs, f) <==> Exempted(env, excs, f)
  {
    forall exc
      ensures IsExemption(env, exc, f) <==> Exempts(env, exc, f)
    {
      ExemptionIsExempts(env, exc, f);
    }
  }

  lemma FirstsAlike(env: Env, excs: seq<Record>, fs: seq<Finding>)
    requires AllReadable(env, fs)
    ensures FirstsAreExempted(env, excs, fs) <==>
            forall i | 0 <= i < |fs| && FirstWithKey(env, fs, i) :: Exempted(env, excs, fs[i])
  {
    forall i | 0 <= i < |fs|
      ensures FirstWithKey(env, fs, i) <==> MustBeExempted(env, fs[i]) && IsFirst(env, fs, i)
      ensures MustBeExempted(env, fs[i]) ==> (IsExempted(env, excs, fs[i]) <==> Exempted(env, excs, fs[i]))
    {
      assert fs[i] in fs;
      FirstAlike(env, fs, i);
      if MustBeExempted(env, fs[i]) {
        ExemptedAlike(env, excs, fs[i]);
      }
    }
  }

  /** The gate passes if and only if the files can be read, all exceptions are usable and for different targets, and
      of the findings that are high or critical in whatever case, each has an advisory, and the first of each package
      and advisory has an exemption. Nothing is asked of any other finding. */
  lemma PassesIff(env: Env, text: string, audit: Audit)
    ensures Verdict(env, text, audit) == Validated <==>
            && Parsed(Lines(text)).Some? && Findings(audit).Some?
            && var (excs, fs) := (Parsed(Lines(text)).value, Findings(audit).value);
               && AllUsable(env, excs) && TargetsDiffer(env, excs)
               && AllReadable(env, fs) && FirstsAreExempted(env, excs, fs)
  {
    ValidatedIff(env, text, audit);
    if Parsed(Lines(text)).Some? && Findings(audit).Some? {
      var excs, fs := Parsed(Lines(text)).value, Findings(audit).value;
      ExceptionsAlike(env, excs);
      ReadableAlike(env, fs);
      if AllReadable(env, fs) {
        FirstsAlike(env, excs, fs);
      }
    }
  }

  // ---- What a pass says of advisories and items ----

  lemma FirstSubject(env: Env, fs: seq<Finding>, i: nat) returns (k: nat)
    requires i < |fs| && MustBeExempted(env, fs[i])
    ensures k <= i && MustBeExempted(env, fs[k]) && SameSubject(env, fs[k], fs[i]) && IsFirst(env, fs, k)
  {
    k := i;
    if !IsFirst(env, fs, i) {
      k :| 0 <= k < i && MustBeExempted(env, fs[k]) && SameSubject(env, fs[k], fs[i]);
      k := FirstSubject(env, fs, k);
    }
  }

  /** In an audit that passes, everything that is high or critical has an exception for its package and advisory that
      has not expired; it names no severity, or that of the first finding with this package and advisory. */
  lemma PassedIsExempted(env: Env, text: string, audit: Audit, f: Finding) returns (exc: Record, g: Finding)
    requires Verdict(env, text, audit) == Validated
    requires Findings(audit).Some? && f in Findings(audit).value && MustBeExempted(env, f)
    ensures Parsed(Lines(text)).Some? && exc in Parsed(Lines(text)).value && IsFor(env, exc, f)
    ensures g in Findings(audit).value && SameSubject(env, g, f) && IsExemption(env, exc, g)
  {
    PassesIff(env, text, audit);
    var excs, fs := Parsed(Lines(text)).value, Findings(audit).value;
    var i :| 0 <= i < |fs| && fs[i] == f;
    var k := FirstSubject(env, fs, i);
    assert IsExempted(env, excs, fs[k]);
    exc :| exc in excs && IsExemption(env, exc, fs[k]);
    g := fs[k];
  }

  /** So has every advisory. */
  lemma AdvisoryIsExempted(env: Env, text: string, audit: Audit, a: Advisory) returns (exc: Record)
    requires Verdict(env, text, audit) == Validated && a in audit.advisories
    requires Truthy(a.moduleName) || Truthy(a.name)
    requires a.severity.Text?
    requires env.lower(Strip(a.severity.s)) == "high" || env.lower(Strip(a.severity.s)) == "critical"
    ensures Parsed(Lines(text)).Some? && exc in Parsed(Lines(text)).value && IsUsable(env, exc)
    ensures Strip(exc["package"]) == Strip(AsText(if Truthy(a.moduleName) then a.moduleName else a.name))
    ensures !PickAdvisoryId(a).Missing?
    ensures env.lower(Strip(exc["advisory"])) == env.lower(Strip(AsText(PickAdvisoryId(a))))
    ensures env.parseDate(exc["expires_on"]).value >= env.today
    ensures NamesNoOther(env, exc, audit, env.lower(Strip(a.severity.s)), AdvisoryFinding(a))
  {
    PassesIff(env, text, audit);
    var f, g := AdvisoryFinding(a), AdvisoryFinding(a);
    FindingsMeaning(audit, f);
    exc, g := PassedIsExempted(env, text, audit, f);
    assert f in Findings(audit).value;
  }

  /** Whatever severity the exception names is that of some finding with the same package and advisory; so it is this
      one unless they differ. */
  ghost predicate NamesNoOther(env: Env, exc: Record, audit: Audit, level: string, f: Finding)
    requires IsUsable(env, exc)
  {
    || env.lower(Strip(exc["severity"])) == "" || env.lower(Strip(exc["severity"])) == level
    || (Findings(audit).Some? &&
        exists g :: g in Findings(audit).value && SameSubject(env, g, f) && Level(env, g) != level &&
                    Level(env, g) == env.lower(Strip(exc["severity"])))
  }

  /** And so has every item of `via` with an identifier, for the package of its entry. */
  lemma ItemIsExempted(env: Env, text: string, audit: Audit, v: Vulnerability, item: ViaItem) returns (exc: Record)
    requires Verdict(env, text, audit) == Validated && v in audit.vulnerabilities && item in ViaItems(v.via)
    requires v.name != "" && Truthy(ItemId(item)) && v.severity.Text?
    requires env.lower(Strip(v.severity.s)) == "high" || env.lower(Strip(v.severity.s)) == "critical"
    ensures Parsed(Lines(text)).Some? && exc in Parsed(Lines(text)).value && IsUsable(env, exc)
    ensures Strip(exc["package"]) == Strip(v.name)
    ensures env.lower(Strip(exc["advisory"])) == env.lower(Strip(AsText(ItemId(item))))
    ensures env.parseDate(exc["expires_on"]).value >= env.today
    ensures NamesNoOther(env, exc, audit, env.lower(Strip(v.severity.s)),
                         Finding(Text(v.name), v.severity, ItemId(item), Missing))
  {
    PassesIff(env, text, audit);
    VulnHasTitle(audit.vulnerabilities, v);
    var f := Finding(Text(v.name), v.severity, ItemId(item), Text(VulnTitle(v).value));
    assert FoundIn(f, v);
    FindingsMeaning(audit, f);
    var g;
    exc, g := PassedIsExempted(env, text, audit, f);
  }

  ghost predicate HasItemWithoutColon(text: string) {
    exists k | 0 <= k < |Lines(text)| :: "- " <= Strip(Lines(text)[k]) && ':' !in Strip(Lines(text)[k])
  }

  ghost predicate HasBadTitle(audit: Audit) {
    exists v :: v in audit.vulnerabilities && exists item :: item in ViaItems(v.via) && BadTitle(item)
  }

  ghost predicate HasBadSeverity(fs: seq<Finding>) {
    exists f :: f in fs && !HasReadableSeverity(f)
  }

  lemma TallyStopsIff(env: Env, excs: seq<Record>, fs: seq<Finding>)
    ensures TallyAll(env, IndexOf(env, excs), IndexErrors(env, excs), fs).None? <==> HasBadSeverity(fs)
  {
    TallyFailsIff(env, IndexOf(env, excs), IndexErrors(env, excs), fs);
    forall f
      ensures HasReadableSeverity(f) <==> SeverityOf(env, f.severity).Some?
    {
      ReadFinding(env, f);
    }
  }

  lemma ReadingStopsIff(text: string, audit: Audit)
    ensures Parsed(Lines(text)).None? <==> HasItemWithoutColon(text)
    ensures Findings(audit).None? <==> HasBadTitle(audit)
  {
    ParserStopsIff(Lines(text));
    assert forall k | 0 <= k < |Lines(text)| ::
        StopsParser(Lines(text)[k]) <==> "- " <= Strip(Lines(text)[k]) && ':' !in Strip(Lines(text)[k]);
    FindingsMeaning(audit, Finding(Missing, Missing, Missing, Missing));
  }

  /** The tool stops if and only if a list item has no colon, a title is no text, or a severity is no text. */
  lemma StopsIff(env: Env, text: string, audit: Audit)
    ensures Verdict(env, text, audit) == Stopped <==>
            || HasItemWithoutColon(text) || HasBadTitle(audit)
            || (Findings(audit).Some? && HasBadSeverity(Findings(audit).value))
  {
    ReadingStopsIff(text, audit);
    if Parsed(Lines(text)).Some? && Findings(audit).Some? {
      TallyStopsIff(env, Parsed(Lines(text)).value, Findings(audit).value);
    }
  }

  // ---- What is said about unusable exceptions ----

  /** The exception with this number in an error. */
  function NumberOf(e: GateError): int {
    match e
    case MissingFields(k) => k
    case InvalidDate(k) => k
    case BlankKey(k) => k
    case Duplicate(k) => k
    case _ => -1
  }

  /** The one error of exception `k`, if any. */
  ghost predicate ErrorFits(env: Env, excs: seq<Record>, e: GateError)
    requires 0 <= NumberOf(e) < |excs|
  {
    var exc := excs[NumberOf(e)];
    match e
    case MissingFields(_) => !HasFiveFields(exc)
    case InvalidDate(_) => HasFiveFields(exc) && env.parseDate(exc["expires_on"]).None?
    case BlankKey(_) =>
      && HasFiveFields(exc) && env.parseDate(exc["expires_on"]).Some?
      && (Strip(exc["package"]) == "" || env.lower(Strip(exc["advisory"])) == "")
    case Duplicate(k) =>
      && IsUsable(env, exc)
      && exists j | 0 <= j < k :: IsUsable(env, excs[j]) && SameTarget(env, excs[j], exc)
    case _ => false
  }

  lemma ClaimedMeansEarlier(env: Env, excs: seq<Record>, exc: Record)
    requires IsUsable(env, exc)
    ensures ExceptionKey(env, exc) in IndexOf(env, excs) <==>
            exists j | 0 <= j < |excs| :: IsUsable(env, excs[j]) && SameTarget(env, excs[j], exc)
  {
    IndexKeys(env, excs, ExceptionKey(env, exc));
    UsableIsWellFormed(env, exc);
    forall other
      ensures IsUsable(env, other) && SameTarget(env, other, exc) <==> Claims(env, other, ExceptionKey(env, exc))
    {
      UsableIsWellFormed(env, other);
    }
    assert forall j | 0 <= j < |excs| :: excs[j] in excs;
  }

  lemma LastErrorFits(env: Env, excs: seq<Record>, e: GateError)
    requires excs != [] && NumberOf(e) == |excs| - 1
    ensures e in IndexErrors(env, excs) && e !in IndexErrors(env, excs[..|excs| - 1]) <==>
            ErrorFits(env, excs, e) && e !in IndexErrors(env, excs[..|excs| - 1])
  {
    var n := |excs| - 1;
    UsableIsWellFormed(env, excs[n]);
    if IsUsable(env, excs[n]) {
      ClaimedMeansEarlier(env, excs[..n], excs[n]);
      assert forall j | 0 <= j < n :: excs[..n][j] == excs[j];
    }
  }

  lemma EarlierErrorFits(env: Env, excs: seq<Record>, e: GateError)
    requires excs != [] && 0 <= NumberOf(e) < |excs| - 1
    ensures ErrorFits(env, excs[..|excs| - 1], e) <==> ErrorFits(env, excs, e)
  {
    var front := excs[..|excs| - 1];
    assert forall j | 0 <= j < |front| :: front[j] == excs[j];
  }

  lemma EarlierErrorStays(env: Env, excs: seq<Record>, e: GateError)
    requires excs != [] && 0 <= NumberOf(e) < |excs| - 1
    ensures e in IndexErrors(env, excs[..|excs| - 1]) <==> e in IndexErrors(env, excs)
  {
    var more := OneMoreError(env, excs);
    assert e !in more;
  }

  lemma OneMoreError(env: Env, excs: seq<Record>) returns (more: seq<GateError>)
    requires excs != []
    ensures IndexErrors(env, excs) == IndexErrors(env, excs[..|excs| - 1]) + more
    ensures |more| <= 1 && forall e | e in more :: NumberOf(e) == |excs| - 1
  {
    var front := IndexErrors(env, excs[..|excs| - 1]);
    more := IndexErrors(env, excs)[|front|..];
  }

  ghost predicate Numbered(errors: seq<GateError>, n: nat) {
    && (forall e | e in errors :: 0 <= NumberOf(e) < n)
    && (forall i, j | 0 <= i < j < |errors| :: NumberOf(errors[i]) < NumberOf(errors[j]))
  }

  lemma NumberedMore(errors: seq<GateError>, n: nat, more: seq<GateError>)
    requires Numbered(errors, n) && |more| <= 1 && forall e | e in more :: NumberOf(e) == n
    ensures Numbered(errors + more, n + 1)
  {
    assert forall i | 0 <= i < |errors| :: errors[i] in errors;
    assert forall i | 0 <= i < |more| :: more[i] in more;
  }

  lemma {:induction false} ErrorNumbers(env: Env, excs: seq<Record>)
    ensures Numbered(IndexErrors(env, excs), |excs|)
  {
    if excs != [] {
      var n := |excs| - 1;
      ErrorNumbers(env, excs[..n]);
      var more := OneMoreError(env, excs);
      NumberedMore(IndexErrors(env, excs[..n]), n, more);
    }
  }

  /** The errors about exceptions: each exception has the one that fits it, if any, and they come in order. */
  lemma {:induction false} IndexErrorsMeaning(env: Env, excs: seq<Record>, e: GateError)
    ensures e in IndexErrors(env, excs) <==> 0 <= NumberOf(e) < |excs| && ErrorFits(env, excs, e)
    ensures forall i, j | 0 <= i < j < |IndexErrors(env, excs)| ::
              NumberOf(IndexErrors(env, excs)[i]) < NumberOf(IndexErrors(env, excs)[j])
  {
    ErrorNumbers(env, excs);
    if excs != [] {
      ErrorNumbers(env, excs[..|excs| - 1]);
      if NumberOf(e) == |excs| - 1 {
        LastErrorFits(env, excs, e);
      } else if 0 <= NumberOf(e) < |excs| {
        IndexErrorsMeaning(env, excs[..|excs| - 1], e);
        EarlierErrorFits(env, excs, e);
        EarlierErrorStays(env, excs, e);
      }
    }
  }
}
