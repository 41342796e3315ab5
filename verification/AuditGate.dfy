/** The gate: the index of exceptions, and the verdict on the findings of an audit. */
module AuditGate {
  import opened Wrappers
  import opened AuditText
  import opened AuditParse
  import opened AuditVulns

  /** What the gate takes from Python's library and from the clock: `str.lower`, `date.fromisoformat` (None for its
      ValueError) and the date of today, dates being day numbers. */
  datatype Env = Env(lower: string -> string, parseDate: string -> Option<int>, today: int)

  type Key = (string, string)

  datatype Exemption = Exemption(severity: string, expires: int)

  datatype GateError =
    | MissingFields(k: nat) | InvalidDate(k: nat) | BlankKey(k: nat) | Duplicate(k: nat)
    | NoAdvisoryId(finding: Finding) | SeverityMismatch(finding: Finding, got: string)

  function Normalized(env: Env, s: string): string {
    env.lower(Strip(s))
  }

  /** `normalize_severity`; None is the AttributeError for a value that is no string. */
  function SeverityOf(env: Env, x: Scalar): Option<string> {
    if !Truthy(x) then Some(Normalized(env, ""))
    else if x.Text? then Some(Normalized(env, x.s))
    else None
  }

  function PackageOf(x: Scalar): string {
    match StrOf(x)
    case Text(s) => Strip(s)
    case _ => ""
  }

  function AdvisoryOf(env: Env, x: Scalar): string {
    match StrOf(x)
    case Text(s) => Normalized(env, s)
    case _ => ""
  }

  // ---- The index of exceptions ----

  const REQUIRED_FIELDS: seq<string> := ["package", "advisory", "severity", "mitigation", "expires_on"]

  function Get(exc: Record, field: string): string {
    if field in exc then exc[field] else ""
  }

  predicate HasRequiredFields(exc: Record) {
    forall field | field in REQUIRED_FIELDS :: Get(exc, field) != ""
  }

  function ExceptionKey(env: Env, exc: Record): Key {
    (Strip(Get(exc, "package")), Normalized(env, Get(exc, "advisory")))
  }

  /** An exception that is complete, has a valid date, and does not lose its key to normalisation. */
  predicate WellFormed(env: Env, exc: Record) {
    && HasRequiredFields(exc)
    && env.parseDate(Get(exc, "expires_on")).Some?
    && ExceptionKey(env, exc).0 != "" && ExceptionKey(env, exc).1 != ""
  }

  function ExemptionOf(env: Env, exc: Record): Exemption
    requires WellFormed(env, exc)
  {
    Exemption(Normalized(env, Get(exc, "severity")), env.parseDate(Get(exc, "expires_on")).value)
  }

  /** The index after these exceptions: the first well-formed one for a key counts. */
  function IndexOf(env: Env, excs: seq<Record>): map<Key, Exemption> {
    if excs == [] then map[]
    else
      var front, last := IndexOf(env, excs[..|excs| - 1]), excs[|excs| - 1];
      if !WellFormed(env, last) || ExceptionKey(env, last) in front then front
      else front[ExceptionKey(env, last) := ExemptionOf(env, last)]
  }

  /** What the gate says about the exceptions, in their order. */
  function IndexErrors(env: Env, excs: seq<Record>): seq<GateError> {
    if excs == [] then []
    else
      var n := |excs| - 1;
      var front := IndexErrors(env, excs[..n]);
      if !HasRequiredFields(excs[n]) then front + [MissingFields(n)]
      else if env.parseDate(Get(excs[n], "expires_on")).None? then front + [InvalidDate(n)]
      else if !WellFormed(env, excs[n]) then front + [BlankKey(n)]
      else if ExceptionKey(env, excs[n]) in IndexOf(env, excs[..n]) then front + [Duplicate(n)]
      else front
  }

  /** `REQUIRED_FIELDS` whose value is missing or empty. */
  method FindMissing(exc: Record) returns (missing: seq<string>)
    ensures missing == [] <==> HasRequiredFields(exc)
    ensures forall field | field in missing :: field in REQUIRED_FIELDS && Get(exc, field) == ""
  {
    missing := [];
    for k := 0 to |REQUIRED_FIELDS|
      invariant missing == [] <==> forall j | 0 <= j < k :: Get(exc, REQUIRED_FIELDS[j]) != ""
      invariant forall field | field in missing :: field in REQUIRED_FIELDS && Get(exc, field) == ""
    {
      if Get(exc, REQUIRED_FIELDS[k]) == "" {
        missing := missing + [REQUIRED_FIELDS[k]];
      }
    }
  }

  /** The first loop of `main`. */
  method BuildIndex(env: Env, excs: seq<Record>) returns (index: map<Key, Exemption>, errors: seq<GateError>)
    ensures index == IndexOf(env, excs) && errors == IndexErrors(env, excs)
  {
    index, errors := map[], [];
    for k := 0 to |excs|
      invariant index == IndexOf(env, excs[..k]) && errors == IndexErrors(env, excs[..k])
    {
      assert excs[..k + 1][..k] == excs[..k];
      var exc := excs[k];
      var missing := FindMissing(exc);
      if missing != [] {
        errors := errors + [MissingFields(k)];
        continue;
      }
      var key := ExceptionKey(env, exc);
      var date := env.parseDate(Get(exc, "expires_on"));
      if date.None? {
        errors := errors + [InvalidDate(k)];
        continue;
      }
      if key.0 == "" || key.1 == "" {
        errors := errors + [BlankKey(k)];
        continue;
      }
      if key in index {
        errors := errors + [Duplicate(k)];
        continue;
      }
      index := index[key := Exemption(Normalized(env, Get(exc, "severity")), date.value)];
    }
    assert excs[..|excs|] == excs;
  }

  // ---- The findings ----

  const HIGH_SEVERITIES: set<string> := {"high", "critical"}

  function FindingKey(env: Env, f: Finding): Key {
    (PackageOf(f.name), AdvisoryOf(env, f.advisory))
  }

  /** A high or critical finding on a named package. */
  predicate Blocking(env: Env, f: Finding) {
    var severity := SeverityOf(env, f.severity);
    severity.Some? && severity.value in HIGH_SEVERITIES && Truthy(f.name)
  }

  /** A blocking finding that can be looked up. */
  predicate Counted(env: Env, f: Finding) {
    Blocking(env, f) && FindingKey(env, f).1 != ""
  }

  datatype Tally = Tally(seen: set<Key>, errors: seq<GateError>, missing: seq<Finding>, expired: seq<Finding>)

  predicate Expired(env: Env, e: Exemption) {
    e.expires < env.today
  }

  predicate Mismatched(env: Env, e: Exemption, f: Finding) {
    e.severity != "" && Some(e.severity) != SeverityOf(env, f.severity)
  }

  /** The first finding with some key. */
  function TallyNew(env: Env, index: map<Key, Exemption>, t: Tally, f: Finding): Tally {
    var key := FindingKey(env, f);
    var next := t.(seen := t.seen + {key});
    if key !in index then next.(missing := t.missing + [f])
    else
      next.(errors := if Mismatched(env, index[key], f)
                      then t.errors + [SeverityMismatch(f, index[key].severity)] else t.errors,
            expired := if Expired(env, index[key]) then t.expired + [f] else t.expired)
  }

  function TallyOne(env: Env, index: map<Key, Exemption>, t: Tally, f: Finding): Tally {
    if !Blocking(env, f) then t
    else if !Counted(env, f) then t.(errors := t.errors + [NoAdvisoryId(f)])
    else if FindingKey(env, f) in t.seen then t
    else TallyNew(env, index, t, f)
  }

  /** The tally of all findings; None if a severity stops the tool. */
  function TallyAll(env: Env, index: map<Key, Exemption>, errors: seq<GateError>, fs: seq<Finding>): Option<Tally> {
    if fs == [] then Some(Tally({}, errors, [], []))
    else
      var front, last := TallyAll(env, index, errors, fs[..|fs| - 1]), fs[|fs| - 1];
      if front.None? || SeverityOf(env, last.severity).None? then None
      else Some(TallyOne(env, index, front.value, last))
  }

  /** The second loop of `main`. */
  method JudgeFindings(env: Env, index: map<Key, Exemption>, before: seq<GateError>, fs: seq<Finding>)
    returns (tally: Option<Tally>)
    ensures tally == TallyAll(env, index, before, fs)
  {
    var seen: set<Key>, errors, missing, expired := {}, before, [], [];
    for k := 0 to |fs|
      invariant TallyAll(env, index, before, fs[..k]) == Some(Tally(seen, errors, missing, expired))
    {
      assert fs[..k + 1][..k] == fs[..k];
      var f := fs[k];
      var severity := SeverityOf(env, f.severity);
      if severity.None? {
        TallyStops(env, index, before, fs, k);
        return None;
      }
      if severity.value !in HIGH_SEVERITIES || !Truthy(f.name) {
        continue;
      }
      var advisory := AdvisoryOf(env, f.advisory);
      if advisory == "" {
        errors := errors + [NoAdvisoryId(f)];
        continue;
      }
      var key := (PackageOf(f.name), advisory);
      if key in seen {
        continue;
      }
      seen := seen + {key};
      if key !in index {
        missing := missing + [f];
        continue;
      }
      if index[key].severity != "" && index[key].severity != severity.value {
        errors := errors + [SeverityMismatch(f, index[key].severity)];
      }
      if index[key].expires < env.today {
        expired := expired + [f];
      }
    }
    assert fs[..|fs|] == fs;
    tally := Some(Tally(seen, errors, missing, expired));
  }

  lemma {:induction false} TallyStops(env: Env, index: map<Key, Exemption>, errors: seq<GateError>, fs: seq<Finding>,
                                      k: nat)
    requires k < |fs| && SeverityOf(env, fs[k].severity).None?
    ensures TallyAll(env, index, errors, fs).None?
    decreases |fs|
  {
    if k < |fs| - 1 {
      TallyStops(env, index, errors, fs[..|fs| - 1], k);
    }
  }

  // ---- The whole tool ----

  datatype Outcome = Stopped | Rejected(tally: Tally) | Validated

  predicate Clean(t: Tally) {
    t.errors == [] && t.missing == [] && t.expired == []
  }

  /** `main`, from the text of the exceptions file and the parsed audit to the exit. */
  function Verdict(env: Env, text: string, audit: Audit): Outcome {
    match Parsed(Lines(text))
    case None => Stopped
    case Some(excs) =>
      match Findings(audit)
      case None => Stopped
      case Some(fs) =>
        match TallyAll(env, IndexOf(env, excs), IndexErrors(env, excs), fs)
        case None => Stopped
        case Some(t) => if Clean(t) then Validated else Rejected(t)
  }

  method RunGate(env: Env, text: string, audit: Audit) returns (outcome: Outcome)
    ensures outcome == Verdict(env, text, audit)
  {
    var excs := ParseExceptions(Lines(text));
    if excs.None? {
      return Stopped;
    }
    var index, errors := BuildIndex(env, excs.value);
    var fs := IterVulns(audit);
    if fs.None? {
      return Stopped;
    }
    var tally := JudgeFindings(env, index, errors, fs.value);
    if tally.None? {
      return Stopped;
    }
    outcome := if Clean(tally.value) then Validated else Rejected(tally.value);
  }
}
