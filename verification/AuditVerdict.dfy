/** What the gate's verdict means. */
module AuditVerdict {
  import opened Wrappers
  import opened AuditText
  import opened AuditParse
  import opened AuditVulns
  import opened AuditFindings
  import opened AuditGate

  // ---- The verdict without loops ----

  ghost predicate DistinctKeys(env: Env, excs: seq<Record>) {
    forall j, k | 0 <= j < k < |excs| :: ExceptionKey(env, excs[j]) != ExceptionKey(env, excs[k])
  }

  ghost predicate AllWellFormed(env: Env, excs: seq<Record>) {
    forall exc | exc in excs :: WellFormed(env, exc)
  }

  /** This exception covers the finding today. */
  predicate Exempts(env: Env, exc: Record, f: Finding) {
    && WellFormed(env, exc) && ExceptionKey(env, exc) == FindingKey(env, f)
    && !Mismatched(env, ExemptionOf(env, exc), f) && !Expired(env, ExemptionOf(env, exc))
  }

  /** The first of the counted findings with its key. */
  predicate FirstWithKey(env: Env, fs: seq<Finding>, i: nat) {
    && i < |fs| && Counted(env, fs[i])
    && forall j | 0 <= j < i :: Counted(env, fs[j]) ==> FindingKey(env, fs[j]) != FindingKey(env, fs[i])
  }

  /** Every severity is usable, and every blocking finding has an advisory id. */
  ghost predicate Readable(env: Env, fs: seq<Finding>) {
    forall f | f in fs :: SeverityOf(env, f.severity).Some? && (Blocking(env, f) ==> Counted(env, f))
  }

  ghost predicate Exempted(env: Env, excs: seq<Record>, f: Finding) {
    exists exc :: exc in excs && Exempts(env, exc, f)
  }

  ghost predicate Accepts(env: Env, excs: seq<Record>, fs: seq<Finding>) {
    && AllWellFormed(env, excs) && DistinctKeys(env, excs) && Readable(env, fs)
    && forall i | 0 <= i < |fs| && FirstWithKey(env, fs, i) :: Exempted(env, excs, fs[i])
  }

  // ---- The index ----

  predicate Claims(env: Env, exc: Record, key: Key) {
    WellFormed(env, exc) && ExceptionKey(env, exc) == key
  }

  ghost predicate Claimed(env: Env, excs: seq<Record>, key: Key) {
    exists exc :: exc in excs && Claims(env, exc, key)
  }

  /** The first well-formed exception with this key. */
  predicate FirstException(env: Env, excs: seq<Record>, key: Key, k: nat) {
    && k < |excs| && Claims(env, excs[k], key)
    && forall j | 0 <= j < k :: !Claims(env, excs[j], key)
  }

  lemma IndexOfLast(env: Env, excs: seq<Record>, key: Key)
    requires excs != []
    ensures var front, last := IndexOf(env, excs[..|excs| - 1]), excs[|excs| - 1];
            && (key in IndexOf(env, excs) <==> key in front || Claims(env, last, key))
            && (key in front ==> IndexOf(env, excs)[key] == front[key])
            && (key !in front && Claims(env, last, key) ==> IndexOf(env, excs)[key] == ExemptionOf(env, last))
  {
  }

  lemma ClaimedOfLast(env: Env, excs: seq<Record>, key: Key)
    requires excs != []
    ensures Claimed(env, excs, key) <==>
            Claimed(env, excs[..|excs| - 1], key) || Claims(env, excs[|excs| - 1], key)
  {
    assert excs == excs[..|excs| - 1] + [excs[|excs| - 1]];
  }

  /** The index holds exactly the keys of the well-formed exceptions. */
  lemma {:induction false} IndexKeys(env: Env, excs: seq<Record>, key: Key)
    ensures key in IndexOf(env, excs) <==> Claimed(env, excs, key)
  {
    if excs != [] {
      IndexKeys(env, excs[..|excs| - 1], key);
      IndexOfLast(env, excs, key);
      ClaimedOfLast(env, excs, key);
    }
  }

  /** Each key is held with what its first well-formed exception grants. */
  lemma {:induction false} IndexMeaning(env: Env, excs: seq<Record>, key: Key, k: nat)
    requires FirstException(env, excs, key, k)
    ensures key in IndexOf(env, excs) && IndexOf(env, excs)[key] == ExemptionOf(env, excs[k])
    decreases |excs|
  {
    var n := |excs| - 1;
    IndexOfLast(env, excs, key);
    FirstInFront(env, excs, key, k);
    if k < n {
      IndexMeaning(env, excs[..n], key, k);
    } else {
      IndexKeys(env, excs[..n], key);
    }
  }

  lemma FirstInFront(env: Env, excs: seq<Record>, key: Key, k: nat)
    requires FirstException(env, excs, key, k)
    ensures var n := |excs| - 1;
            if k < n then FirstException(env, excs[..n], key, k) else !Claimed(env, excs[..n], key)
  {
    var front := excs[..|excs| - 1];
    assert forall j | 0 <= j < |front| :: front[j] == excs[j];
  }

  lemma ErrorsOfLast(env: Env, excs: seq<Record>)
    requires excs != []
    ensures IndexErrors(env, excs) == [] <==>
            var n := |excs| - 1;
            && IndexErrors(env, excs[..n]) == [] && WellFormed(env, excs[n])
            && ExceptionKey(env, excs[n]) !in IndexOf(env, excs[..n])
  {
  }

  lemma WellFormedOfLast(env: Env, excs: seq<Record>)
    requires excs != []
    ensures AllWellFormed(env, excs) <==> AllWellFormed(env, excs[..|excs| - 1]) && WellFormed(env, excs[|excs| - 1])
  {
    assert excs == excs[..|excs| - 1] + [excs[|excs| - 1]];
  }

  lemma DistinctOfLast(env: Env, excs: seq<Record>)
    requires excs != [] && AllWellFormed(env, excs)
    ensures DistinctKeys(env, excs) <==>
            var n := |excs| - 1;
            DistinctKeys(env, excs[..n]) && !Claimed(env, excs[..n], ExceptionKey(env, excs[n]))
  {
    var n := |excs| - 1;
    var front, key := excs[..n], ExceptionKey(env, excs[n]);
    assert forall j | 0 <= j < n :: front[j] == excs[j];
    if Claimed(env, front, key) {
      var exc :| exc in front && Claims(env, exc, key);
      var j :| 0 <= j < n && front[j] == exc;
      assert ExceptionKey(env, excs[j]) == key;
    } else {
      forall j | 0 <= j < n
        ensures ExceptionKey(env, excs[j]) != key
      {
        assert front[j] in front && front[j] in excs;
        assert !Claims(env, front[j], key);
      }
    }
  }

  /** The exceptions pass without an error if and only if all are well formed and no key comes twice. */
  lemma {:induction false} IndexErrorsIff(env: Env, excs: seq<Record>)
    ensures IndexErrors(env, excs) == [] <==> AllWellFormed(env, excs) && DistinctKeys(env, excs)
  {
    if excs != [] {
      var n := |excs| - 1;
      IndexErrorsIff(env, excs[..n]);
      ErrorsOfLast(env, excs);
      WellFormedOfLast(env, excs);
      IndexKeys(env, excs[..n], ExceptionKey(env, excs[n]));
      if AllWellFormed(env, excs) {
        DistinctOfLast(env, excs);
      }
    }
  }

  // ---- The tally ----

  lemma FirstInPrefix(env: Env, fs: seq<Finding>, n: nat, i: nat)
    requires i < n <= |fs|
    ensures FirstWithKey(env, fs[..n], i) <==> FirstWithKey(env, fs, i)
  {
    assert forall j | 0 <= j <= i :: fs[..n][j] == fs[j];
  }

  lemma {:induction false} TallyFailsIff(env: Env, index: map<Key, Exemption>, errors: seq<GateError>, fs: seq<Finding>)
    ensures TallyAll(env, index, errors, fs).None? <==> exists f :: f in fs && SeverityOf(env, f.severity).None?
  {
    if fs != [] {
      var n := |fs| - 1;
      TallyFailsIff(env, index, errors, fs[..n]);
      assert fs == fs[..n] + [fs[n]];
    }
  }

  lemma {:induction false} SeenMeaning(env: Env, index: map<Key, Exemption>, errors: seq<GateError>, fs: seq<Finding>,
                                       key: Key)
    requires TallyAll(env, index, errors, fs).Some?
    ensures key in TallyAll(env, index, errors, fs).value.seen <==>
            exists f :: f in fs && Counted(env, f) && FindingKey(env, f) == key
  {
    if fs != [] {
      var n := |fs| - 1;
      SeenMeaning(env, index, errors, fs[..n], key);
      assert fs == fs[..n] + [fs[n]];
    }
  }

  /** The last finding is new to the tally if and only if it is the first one with its key. */
  lemma LastIsFirst(env: Env, index: map<Key, Exemption>, errors: seq<GateError>, fs: seq<Finding>)
    requires fs != [] && TallyAll(env, index, errors, fs[..|fs| - 1]).Some? && Counted(env, fs[|fs| - 1])
    ensures FindingKey(env, fs[|fs| - 1]) !in TallyAll(env, index, errors, fs[..|fs| - 1]).value.seen <==>
            FirstWithKey(env, fs, |fs| - 1)
  {
    var n := |fs| - 1;
    SeenMeaning(env, index, errors, fs[..n], FindingKey(env, fs[n]));
    assert forall j | 0 <= j < n :: fs[..n][j] == fs[j] && fs[j] in fs[..n];
  }

  /** The findings of the report that have no exception: the first of each key whose key is not in the index. */
  lemma {:induction false} MissingMeaning(env: Env, index: map<Key, Exemption>, errors: seq<GateError>,
                                          fs: seq<Finding>, f: Finding)
    requires TallyAll(env, index, errors, fs).Some?
    ensures f in TallyAll(env, index, errors, fs).value.missing <==>
            exists i: nat :: FirstWithKey(env, fs, i) && fs[i] == f && FindingKey(env, f) !in index
  {
    if fs != [] {
      var n := |fs| - 1;
      MissingMeaning(env, index, errors, fs[..n], f);
      forall i: nat | i < n
        ensures FirstWithKey(env, fs[..n], i) <==> FirstWithKey(env, fs, i)
      {
        FirstInPrefix(env, fs, n, i);
      }
      if Counted(env, fs[n]) {
        LastIsFirst(env, index, errors, fs);
      }
    }
  }

  /** The findings of the report whose exception has expired. */
  lemma {:induction false} ExpiredMeaning(env: Env, index: map<Key, Exemption>, errors: seq<GateError>,
                                          fs: seq<Finding>, f: Finding)
    requires TallyAll(env, index, errors, fs).Some?
    ensures f in TallyAll(env, index, errors, fs).value.expired <==>
            exists i: nat :: FirstWithKey(env, fs, i) && fs[i] == f && FindingKey(env, f) in index &&
                             Expired(env, index[FindingKey(env, f)])
  {
    if fs != [] {
      var n := |fs| - 1;
      ExpiredMeaning(env, index, errors, fs[..n], f);
      forall i: nat | i < n
        ensures FirstWithKey(env, fs[..n], i) <==> FirstWithKey(env, fs, i)
      {
        FirstInPrefix(env, fs, n, i);
      }
      if Counted(env, fs[n]) {
        LastIsFirst(env, index, errors, fs);
      }
    }
  }

  /** The errors that the findings add: no advisory id, or an exception that names another severity than the first
      finding of its key. */
  lemma {:induction false} ErrorsMeaning(env: Env, index: map<Key, Exemption>, errors: seq<GateError>,
                                         fs: seq<Finding>, f: Finding, got: string)
    requires TallyAll(env, index, errors, fs).Some?
    ensures NoAdvisoryId(f) in TallyAll(env, index, errors, fs).value.errors <==>
            NoAdvisoryId(f) in errors || (f in fs && Blocking(env, f) && !Counted(env, f))
    ensures SeverityMismatch(f, got) in TallyAll(env, index, errors, fs).value.errors <==>
            SeverityMismatch(f, got) in errors ||
            exists i: nat :: FirstWithKey(env, fs, i) && fs[i] == f && FindingKey(env, f) in index &&
                             Mismatched(env, index[FindingKey(env, f)], f) && got == index[FindingKey(env, f)].severity
  {
    if fs != [] {
      var n := |fs| - 1;
      assert fs == fs[..n] + [fs[n]];
      ErrorsMeaning(env, index, errors, fs[..n], f, got);
      forall i: nat | i < n
        ensures FirstWithKey(env, fs[..n], i) <==> FirstWithKey(env, fs, i)
      {
        FirstInPrefix(env, fs, n, i);
      }
      if Counted(env, fs[n]) {
        LastIsFirst(env, index, errors, fs);
      }
    }
  }

  /** What the index grants covers the finding today. */
  predicate Covered(env: Env, index: map<Key, Exemption>, f: Finding) {
    var key := FindingKey(env, f);
    key in index && !Mismatched(env, index[key], f) && !Expired(env, index[key])
  }

  ghost predicate Identified(env: Env, fs: seq<Finding>) {
    forall i | 0 <= i < |fs| :: Blocking(env, fs[i]) ==> Counted(env, fs[i])
  }

  ghost predicate FirstsCovered(env: Env, index: map<Key, Exemption>, fs: seq<Finding>) {
    forall i | 0 <= i < |fs| && FirstWithKey(env, fs, i) :: Covered(env, index, fs[i])
  }

  ghost predicate AllCovered(env: Env, index: map<Key, Exemption>, fs: seq<Finding>) {
    Identified(env, fs) && FirstsCovered(env, index, fs)
  }

  lemma IdentifiedOfLast(env: Env, fs: seq<Finding>)
    requires fs != []
    ensures Identified(env, fs) <==>
            Identified(env, fs[..|fs| - 1]) && (Blocking(env, fs[|fs| - 1]) ==> Counted(env, fs[|fs| - 1]))
  {
    assert forall i | 0 <= i < |fs| - 1 :: fs[..|fs| - 1][i] == fs[i];
  }

  lemma FirstsCoveredOfLast(env: Env, index: map<Key, Exemption>, fs: seq<Finding>)
    requires fs != []
    ensures FirstsCovered(env, index, fs) <==>
            var n := |fs| - 1;
            FirstsCovered(env, index, fs[..n]) && (FirstWithKey(env, fs, n) ==> Covered(env, index, fs[n]))
  {
    var n := |fs| - 1;
    forall i: nat | i < n
      ensures fs[..n][i] == fs[i] && (FirstWithKey(env, fs[..n], i) <==> FirstWithKey(env, fs, i))
    {
      FirstInPrefix(env, fs, n, i);
    }
  }

  /** The tally stays clean if and only if there were no errors before, every blocking finding has an id, and the
      first finding of each key is covered by the index. */
  lemma {:induction false} CleanIff(env: Env, index: map<Key, Exemption>, errors: seq<GateError>, fs: seq<Finding>)
    requires TallyAll(env, index, errors, fs).Some?
    ensures Clean(TallyAll(env, index, errors, fs).value) <==> errors == [] && AllCovered(env, index, fs)
  {
    if fs != [] {
      var n := |fs| - 1;
      CleanIff(env, index, errors, fs[..n]);
      IdentifiedOfLast(env, fs);
      FirstsCoveredOfLast(env, index, fs);
      if Counted(env, fs[n]) {
        LastIsFirst(env, index, errors, fs);
      }
    }
  }

  lemma CoveredIsExempted(env: Env, excs: seq<Record>, f: Finding)
    requires AllWellFormed(env, excs) && DistinctKeys(env, excs)
    ensures Covered(env, IndexOf(env, excs), f) <==> Exempted(env, excs, f)
  {
    var key := FindingKey(env, f);
    IndexKeys(env, excs, key);
    forall k: nat | k < |excs| && Claims(env, excs[k], key)
      ensures excs[k] in excs && key in IndexOf(env, excs) && IndexOf(env, excs)[key] == ExemptionOf(env, excs[k])
    {
      assert forall j | 0 <= j < k ::
        Claims(env, excs[j], key) ==> ExceptionKey(env, excs[j]) == ExceptionKey(env, excs[k]);
      IndexMeaning(env, excs, key, k);
    }
    if Covered(env, IndexOf(env, excs), f) {
      var exc :| exc in excs && Claims(env, exc, key);
      var k :| 0 <= k < |excs| && excs[k] == exc;
      assert Exempts(env, excs[k], f);
    }
    if Exempted(env, excs, f) {
      var exc :| exc in excs && Exempts(env, exc, f);
      var k :| 0 <= k < |excs| && excs[k] == exc;
      assert Claims(env, excs[k], key);
    }
  }

  lemma AcceptsIffCovered(env: Env, excs: seq<Record>, fs: seq<Finding>)
    requires AllWellFormed(env, excs) && DistinctKeys(env, excs)
    requires forall f | f in fs :: SeverityOf(env, f.severity).Some?
    ensures Accepts(env, excs, fs) <==> AllCovered(env, IndexOf(env, excs), fs)
  {
    forall f
      ensures Covered(env, IndexOf(env, excs), f) <==> Exempted(env, excs, f)
    {
      CoveredIsExempted(env, excs, f);
    }
    assert forall i | 0 <= i < |fs| :: fs[i] in fs;
  }

  /** The verdict is exact: the gate passes if and only if the files can be read, every exception is well formed with
      a key of its own, every blocking finding has an advisory id, and the first finding of each key has an exception
      that is not expired and names no severity or the one of that finding. */
  lemma ValidatedIff(env: Env, text: string, audit: Audit)
    ensures Verdict(env, text, audit) == Validated <==>
            && Parsed(Lines(text)).Some? && Findings(audit).Some?
            && Accepts(env, Parsed(Lines(text)).value, Findings(audit).value)
  {
    if Parsed(Lines(text)).Some? && Findings(audit).Some? {
      TallyIsAccepts(env, Parsed(Lines(text)).value, Findings(audit).value);
    }
  }

  lemma TallyIsAccepts(env: Env, excs: seq<Record>, fs: seq<Finding>)
    ensures var tally := TallyAll(env, IndexOf(env, excs), IndexErrors(env, excs), fs);
            tally.Some? && Clean(tally.value) <==> Accepts(env, excs, fs)
  {
    var index, errors := IndexOf(env, excs), IndexErrors(env, excs);
    IndexErrorsIff(env, excs);
    TallyFailsIff(env, index, errors, fs);
    if TallyAll(env, index, errors, fs).Some? {
      CleanIff(env, index, errors, fs);
      if errors == [] {
        AcceptsIffCovered(env, excs, fs);
      }
    }
  }

  // ---- Titles are only for the report ----

  lemma TitleDoesNotMatter(env: Env, f: Finding)
    ensures SeverityOf(env, Untitled(f).severity) == SeverityOf(env, f.severity)
    ensures Blocking(env, Untitled(f)) == Blocking(env, f) && Counted(env, Untitled(f)) == Counted(env, f)
    ensures FindingKey(env, Untitled(f)) == FindingKey(env, f)
    ensures forall exc :: Exempts(env, exc, Untitled(f)) == Exempts(env, exc, f)
  {
  }

  lemma ExemptedUntitled(env: Env, excs: seq<Record>, f: Finding)
    ensures Exempted(env, excs, Untitled(f)) <==> Exempted(env, excs, f)
  {
    TitleDoesNotMatter(env, f);
  }

  lemma ReadableUntitled(env: Env, fs: seq<Finding>)
    ensures Readable(env, AllUntitled(fs)) <==> Readable(env, fs)
  {
    var us := AllUntitled(fs);
    forall i | 0 <= i < |fs|
      ensures us[i] in us && fs[i] in fs && us[i] == Untitled(fs[i])
      ensures SeverityOf(env, us[i].severity) == SeverityOf(env, fs[i].severity)
      ensures Blocking(env, us[i]) == Blocking(env, fs[i]) && Counted(env, us[i]) == Counted(env, fs[i])
    {
      TitleDoesNotMatter(env, fs[i]);
    }
  }

  lemma FirstUntitled(env: Env, fs: seq<Finding>, i: nat)
    ensures FirstWithKey(env, AllUntitled(fs), i) <==> FirstWithKey(env, fs, i)
  {
    forall j | 0 <= j < |fs|
      ensures Counted(env, AllUntitled(fs)[j]) == Counted(env, fs[j])
      ensures FindingKey(env, AllUntitled(fs)[j]) == FindingKey(env, fs[j])
    {
      TitleDoesNotMatter(env, fs[j]);
    }
  }

  /** The gate does not look at the titles of the findings. */
  lemma AcceptsUntitled(env: Env, excs: seq<Record>, fs: seq<Finding>)
    ensures Accepts(env, excs, AllUntitled(fs)) <==> Accepts(env, excs, fs)
  {
    ReadableUntitled(env, fs);
    forall i | 0 <= i < |fs|
      ensures FirstWithKey(env, AllUntitled(fs), i) <==> FirstWithKey(env, fs, i)
      ensures Exempted(env, excs, AllUntitled(fs)[i]) <==> Exempted(env, excs, fs[i])
    {
      FirstUntitled(env, fs, i);
      ExemptedUntitled(env, excs, fs[i]);
    }
  }
}
