/** How the verdict depends on the order of an audit, whose advisories always come before its vulnerabilities. */
module AuditReorder {
  import opened Wrappers
  import opened AuditText
  import opened AuditParse
  import opened AuditVulns
  import opened AuditFindings
  import opened AuditGate
  import opened AuditVerdict
  import opened AuditAcceptance
  import opened AuditOrder

  // ---- When the order does not matter ----

  ghost predicate HasKey(env: Env, fs: seq<Finding>, key: Key) {
    exists f :: f in fs && Counted(env, f) && FindingKey(env, f) == key
  }

  /** The findings that can come first for their key have the same severity: those of `advisories`, which come before
      all others, and for the remaining keys those of `vulnerabilities`. */
  ghost predicate FirstsAgree(env: Env, found: seq<Finding>, more: seq<Finding>) {
    && SeveritiesAgree(env, found)
    && forall f, g | f in more && g in more && Counted(env, f) && Counted(env, g) &&
                     FindingKey(env, f) == FindingKey(env, g) && !HasKey(env, found, FindingKey(env, f)) ::
         SeverityOf(env, f.severity) == SeverityOf(env, g.severity)
  }

  ghost predicate AuditAgrees(env: Env, a: Audit)
    requires Findings(a).Some?
  {
    FirstsAgree(env, AdvisoryFindings(a.advisories), AllVulnFindings(a.vulnerabilities).value)
  }

  lemma FrontHasKey(env: Env, found: seq<Finding>, more: seq<Finding>, k: nat)
    requires k < |found + more| && Counted(env, (found + more)[k])
    ensures k < |found| ==> HasKey(env, found, FindingKey(env, (found + more)[k]))
  {
    if k < |found| {
      assert (found + more)[k] == found[k] && found[k] in found;
    }
  }

  /** If severities agree, it does not matter which finding of a key comes first in either part. */
  lemma FirstsAgreeOnFirst(env: Env, found: seq<Finding>, more: seq<Finding>, f: Finding) returns (k: nat)
    requires FirstsAgree(env, found, more) && Counted(env, f)
    requires f in found || (f in more && !HasKey(env, found, FindingKey(env, f)))
    ensures FirstWithKey(env, found + more, k) && FindingKey(env, (found + more)[k]) == FindingKey(env, f)
    ensures SeverityOf(env, (found + more)[k].severity) == SeverityOf(env, f.severity)
  {
    var fs := found + more;
    if f in found {
      var i :| 0 <= i < |found| && found[i] == f;
      k := FirstOf(env, fs, i);
      assert fs[k] == found[k] && found[k] in found;
    } else {
      var i :| 0 <= i < |more| && more[i] == f;
      assert fs[|found| + i] == f;
      k := FirstOf(env, fs, |found| + i);
      FrontHasKey(env, found, more, k);
      assert fs[k] == more[k - |found|] && fs[k] in more;
    }
  }

  ghost predicate SameMembers(fs: seq<Finding>, gs: seq<Finding>) {
    forall f :: f in fs <==> f in gs
  }

  lemma AcceptsSameParts(env: Env, excs: seq<Record>, found: seq<Finding>, more: seq<Finding>, found': seq<Finding>,
                         more': seq<Finding>)
    requires SameMembers(found, found') && SameMembers(more, more')
    requires FirstsAgree(env, found, more) && Accepts(env, excs, found + more)
    ensures Accepts(env, excs, found' + more')
  {
    var fs, gs := found + more, found' + more';
    assert forall f :: f in gs <==> f in fs;
    forall i | 0 <= i < |gs| && FirstWithKey(env, gs, i)
      ensures Exempted(env, excs, gs[i])
    {
      FirstPart(env, found', more', i);
      var k := FirstsAgreeOnFirst(env, found, more, gs[i]);
      assert Exempted(env, excs, fs[k]);
      var exc :| exc in excs && Exempts(env, exc, fs[k]);
      assert Exempts(env, exc, gs[i]);
    }
  }

  /** The first finding of a key comes from the first part, unless that has none. */
  lemma FirstPart(env: Env, found: seq<Finding>, more: seq<Finding>, i: nat)
    requires FirstWithKey(env, found + more, i)
    ensures var f := (found + more)[i]; f in found || (f in more && !HasKey(env, found, FindingKey(env, f)))
  {
    var fs := found + more;
    if i >= |found| {
      assert fs[i] == more[i - |found|];
      forall g | g in found && Counted(env, g)
        ensures FindingKey(env, g) != FindingKey(env, fs[i])
      {
        var j :| 0 <= j < |found| && found[j] == g;
        assert fs[j] == g;
      }
    }
  }

  lemma CountedUntitled(env: Env, fs: seq<Finding>, f: Finding)
    ensures f in AllUntitled(fs) ==> exists g :: g in fs && Untitled(g) == f
    ensures f in fs ==> Untitled(f) in AllUntitled(fs)
  {
    InAllUntitled(fs, f);
    InAllUntitled(fs, Untitled(f));
  }

  lemma HasKeyUntitled(env: Env, fs: seq<Finding>, key: Key)
    ensures HasKey(env, AllUntitled(fs), key) <==> HasKey(env, fs, key)
  {
    if f :| f in fs && Counted(env, f) && FindingKey(env, f) == key {
      CountedUntitled(env, fs, f);
      TitleDoesNotMatter(env, f);
    }
    if f :| f in AllUntitled(fs) && Counted(env, f) && FindingKey(env, f) == key {
      CountedUntitled(env, fs, f);
      var g :| g in fs && Untitled(g) == f;
      TitleDoesNotMatter(env, g);
    }
  }

  lemma FirstsAgreeUntitled(env: Env, found: seq<Finding>, more: seq<Finding>)
    ensures FirstsAgree(env, AllUntitled(found), AllUntitled(more)) <==> FirstsAgree(env, found, more)
  {
    SeveritiesAgreeUntitled(env, found);
    forall key
      ensures HasKey(env, AllUntitled(found), key) <==> HasKey(env, found, key)
    {
      HasKeyUntitled(env, found, key);
    }
    forall f
      ensures f in AllUntitled(more) ==> exists g :: g in more && Untitled(g) == f
      ensures f in more ==> Untitled(f) in AllUntitled(more)
      ensures Counted(env, Untitled(f)) == Counted(env, f) && FindingKey(env, Untitled(f)) == FindingKey(env, f)
    {
      CountedUntitled(env, more, f);
      TitleDoesNotMatter(env, f);
    }
  }

  lemma UntitledParts(found: seq<Finding>, more: seq<Finding>)
    ensures AllUntitled(found + more) == AllUntitled(found) + AllUntitled(more)
  {
  }

  /** The parts of audits with the same entries yield the same findings, but for titles. */
  lemma SameEntriesSameParts(a: Audit, b: Audit)
    requires SameEntries(a, b) && Findings(a).Some?
    ensures Findings(b).Some?
    ensures SameMembers(AllUntitled(AdvisoryFindings(a.advisories)), AllUntitled(AdvisoryFindings(b.advisories)))
    ensures SameMembers(AllUntitled(AllVulnFindings(a.vulnerabilities).value),
                        AllUntitled(AllVulnFindings(b.vulnerabilities).value))
  {
    SameEntriesSameFindings(a, b);
    SameEntriesSameFindings(Audit(a.advisories, []), Audit(b.advisories, []));
    SameEntriesSameFindings(Audit([], a.vulnerabilities), Audit([], b.vulnerabilities));
    PartsAlone(a);
    PartsAlone(b);
  }

  lemma PartsAlone(a: Audit)
    requires Findings(a).Some?
    ensures Findings(Audit(a.advisories, [])) == Some(AdvisoryFindings(a.advisories))
    ensures Findings(Audit([], a.vulnerabilities)) == Some(AllVulnFindings(a.vulnerabilities).value)
  {
    assert AdvisoryFindings(a.advisories) + [] == AdvisoryFindings(a.advisories);
    assert AdvisoryFindings([]) + AllVulnFindings(a.vulnerabilities).value == AllVulnFindings(a.vulnerabilities).value;
  }

  lemma AcceptsSameEntries(env: Env, excs: seq<Record>, a: Audit, b: Audit)
    requires SameEntries(a, b) && Findings(a).Some? && Findings(b).Some? && AuditAgrees(env, a)
    requires Accepts(env, excs, Findings(a).value)
    ensures Accepts(env, excs, Findings(b).value)
  {
    var found, more := AdvisoryFindings(a.advisories), AllVulnFindings(a.vulnerabilities).value;
    var found', more' := AdvisoryFindings(b.advisories), AllVulnFindings(b.vulnerabilities).value;
    SameEntriesSameParts(a, b);
    FirstsAgreeUntitled(env, found, more);
    AcceptsUntitled(env, excs, found + more);
    AcceptsUntitled(env, excs, found' + more');
    UntitledParts(found, more);
    UntitledParts(found', more');
    AcceptsSameParts(env, excs, AllUntitled(found), AllUntitled(more), AllUntitled(found'), AllUntitled(more'));
  }

  lemma AgreeTogether(env: Env, a: Audit, b: Audit)
    requires SameEntries(a, b) && Findings(a).Some? && Findings(b).Some? && AuditAgrees(env, a)
    ensures AuditAgrees(env, b)
  {
    var found, more := AdvisoryFindings(a.advisories), AllVulnFindings(a.vulnerabilities).value;
    var found', more' := AdvisoryFindings(b.advisories), AllVulnFindings(b.vulnerabilities).value;
    SameEntriesSameParts(a, b);
    FirstsAgreeUntitled(env, found, more);
    FirstsAgreeUntitled(env, found', more');
    AgreeSameMembers(env, AllUntitled(found), AllUntitled(more), AllUntitled(found'), AllUntitled(more'));
  }

  lemma AgreeSameMembers(env: Env, found: seq<Finding>, more: seq<Finding>, found': seq<Finding>, more': seq<Finding>)
    requires SameMembers(found, found') && SameMembers(more, more') && FirstsAgree(env, found, more)
    ensures FirstsAgree(env, found', more')
  {
    assert forall key :: HasKey(env, found', key) <==> HasKey(env, found, key);
  }

  lemma SameEntriesTurned(a: Audit, b: Audit)
    requires SameEntries(a, b)
    ensures SameEntries(b, a)
  {
  }

  /** Neither the order of the entries of an audit matters, or of the items in an entry, nor whether one is repeated,
      as long as the findings that can come first for a key have the same severity. */
  lemma AuditOrderIsIrrelevant(env: Env, text: string, a: Audit, b: Audit)
    requires SameEntries(a, b) && (Findings(a).Some? ==> AuditAgrees(env, a))
    ensures Verdict(env, text, a) == Validated <==> Verdict(env, text, b) == Validated
  {
    ValidatedIff(env, text, a);
    ValidatedIff(env, text, b);
    SameEntriesTurned(a, b);
    SameEntriesSameFindings(a, b);
    if Parsed(Lines(text)).Some? && Findings(a).Some? {
      var excs := Parsed(Lines(text)).value;
      AgreeTogether(env, a, b);
      if Accepts(env, excs, Findings(a).value) {
        AcceptsSameEntries(env, excs, a, b);
      }
      if Accepts(env, excs, Findings(b).value) {
        AcceptsSameEntries(env, excs, b, a);
      }
    }
  }

  // ---- When the order of an audit matters ----

  /** The same entries in another order. */
  ghost predicate Reordered(a: Audit, b: Audit) {
    multiset(a.advisories) == multiset(b.advisories) && multiset(a.vulnerabilities) == multiset(b.vulnerabilities)
  }

  /** No exceptions file tells this audit from a reordered one. */
  ghost predicate ReorderingIsIrrelevant(env: Env, a: Audit) {
    forall text, b | Reordered(a, b) :: Verdict(env, text, a) == Validated <==> Verdict(env, text, b) == Validated
  }

  /** Nor from one that also differs in the order and number of the items, or repeats entries. */
  ghost predicate OnlyEntriesMatter(env: Env, a: Audit) {
    forall text, b | SameEntries(a, b) :: Verdict(env, text, a) == Validated <==> Verdict(env, text, b) == Validated
  }

  lemma ReorderedIsSame(a: Audit, b: Audit)
    requires Reordered(a, b)
    ensures SameEntries(a, b)
  {
    forall x
      ensures x in a.advisories <==> x in b.advisories
    {
      SameElements(a.advisories, b.advisories, x);
    }
    forall v
      ensures v in a.vulnerabilities <==> v in b.vulnerabilities
    {
      SameElements(a.vulnerabilities, b.vulnerabilities, v);
    }
    assert forall v :: SameVulnerability(v, v);
  }

  lemma AcceptableUntitled(env: Env, fs: seq<Finding>)
    ensures Acceptable(env, AllUntitled(fs)) <==> Acceptable(env, fs)
  {
    ReadableUntitled(env, fs);
    forall f
      ensures f in AllUntitled(fs) ==> exists g :: g in fs && Untitled(g) == f
      ensures f in fs ==> Untitled(f) in AllUntitled(fs)
      ensures Counted(env, Untitled(f)) == Counted(env, f) && FindingKey(env, Untitled(f)) == FindingKey(env, f)
    {
      CountedUntitled(env, fs, f);
      TitleDoesNotMatter(env, f);
    }
  }

  lemma AcceptableTogether(env: Env, a: Audit, b: Audit)
    requires SameEntries(a, b) && Findings(a).Some?
    ensures Findings(b).Some? && (Acceptable(env, Findings(a).value) <==> Acceptable(env, Findings(b).value))
  {
    SameEntriesSameFindings(a, b);
    AcceptableUntitled(env, Findings(a).value);
    AcceptableUntitled(env, Findings(b).value);
    SameAcceptable(env, AllUntitled(Findings(a).value), AllUntitled(Findings(b).value));
  }

  /** In some order of the audit, a finding of this key and severity comes first. */
  ghost predicate CanLead(env: Env, a: Audit, b: Audit, f: Finding) {
    Reordered(a, b) && Findings(b).Some? && ComesFirst(env, Findings(b).value, f)
  }

  lemma TwoLeaders(env: Env, a: Audit, b: Audit, f: Finding, c: Audit, g: Finding)
    requires PlainLower(env) && Findings(a).Some? && Acceptable(env, Findings(a).value)
    requires CanLead(env, a, b, f) && CanLead(env, a, c, g)
    requires FindingKey(env, f) == FindingKey(env, g) && SeverityOf(env, f.severity) != SeverityOf(env, g.severity)
    ensures !ReorderingIsIrrelevant(env, a)
  {
    ReorderedIsSame(a, b);
    AcceptableTogether(env, a, b);
    var text := AcceptingText(env, Findings(b).value);
    OtherFirstIsRejected(env, text, Findings(b).value, Findings(c).value, f, g);
    ValidatedIff(env, text, b);
    ValidatedIff(env, text, c);
  }

  /** Every advisory can be moved to the front, and then its finding comes first. */
  lemma AdvisoryLeads(env: Env, a: Audit, f: Finding) returns (b: Audit)
    requires Findings(a).Some? && f in AdvisoryFindings(a.advisories) && Counted(env, f)
    ensures CanLead(env, a, b, f)
  {
    var found := AdvisoryFindings(a.advisories);
    var i :| 0 <= i < |found| && found[i] == f;
    b := a.(advisories := MovedToFront(a.advisories, i));
    assert Findings(b).value[0] == AdvisoryFindings(b.advisories)[0] == f;
    assert FirstWithKey(env, Findings(b).value, 0);
  }

  /** An entry of `vulnerabilities` can be moved to the front, and then a finding of it comes first for its key if no
      advisory has that key. */
  lemma VulnerabilityLeads(env: Env, a: Audit, f: Finding) returns (b: Audit, g: Finding)
    requires Findings(a).Some? && f in AllVulnFindings(a.vulnerabilities).value && Counted(env, f)
    requires !HasKey(env, AdvisoryFindings(a.advisories), FindingKey(env, f))
    ensures CanLead(env, a, b, g) && FindingKey(env, g) == FindingKey(env, f) && g.severity == f.severity
  {
    var found, vs := AdvisoryFindings(a.advisories), a.vulnerabilities;
    AllVulnFindingsMeaning(vs, f);
    var v :| v in vs && FoundIn(f, v);
    var i :| 0 <= i < |vs| && vs[i] == v;
    b := a.(vulnerabilities := MovedToFront(vs, i));
    ReorderedIsSame(a, b);
    SameEntriesSameFindings(a, b);
    var rest := FrontEntry(v, vs[..i] + vs[i + 1..]);
    VulnFindingsMeaning(v, f);
    g := LeaderOfEntry(env, found, v, rest, f);
    assert Findings(b).value == found + (VulnFindings(v).value + rest);
  }

  lemma OneEntry(v: Vulnerability)
    ensures AllVulnFindings([v]) == VulnFindings(v)
  {
    var vs := [v];
    assert vs[..0] == [];
    if VulnFindings(v).Some? {
      assert [] + VulnFindings(v).value == VulnFindings(v).value;
    }
  }

  lemma FrontEntry(v: Vulnerability, vs: seq<Vulnerability>) returns (rest: seq<Finding>)
    requires AllVulnFindings([v] + vs).Some?
    ensures VulnFindings(v).Some? && AllVulnFindings([v] + vs).value == VulnFindings(v).value + rest
  {
    FindingsInOrder([v], vs);
    OneEntry(v);
    rest := AllVulnFindings(vs).value;
  }

  /** The first finding of a key is one of this entry, if one of the entry has that key and none in front does. */
  lemma LeaderOfEntry(env: Env, found: seq<Finding>, v: Vulnerability, rest: seq<Finding>, f: Finding)
    returns (g: Finding)
    requires VulnFindings(v).Some? && f in VulnFindings(v).value && Counted(env, f)
    requires !HasKey(env, found, FindingKey(env, f))
    ensures ComesFirst(env, found + (VulnFindings(v).value + rest), g)
    ensures FindingKey(env, g) == FindingKey(env, f) && g.severity == f.severity
  {
    var own := VulnFindings(v).value;
    var fs := found + (own + rest);
    var j :| 0 <= j < |own| && own[j] == f;
    assert fs[|found| + j] == f;
    var k := FirstOf(env, fs, |found| + j);
    g := fs[k];
    FrontHasKey(env, found, own + rest, k);
    assert g == own[k - |found|] && g in own;
    VulnFindingsMeaning(v, f);
    VulnFindingsMeaning(v, g);
  }

  lemma DisagreementShowsInAudit(env: Env, a: Audit)
    requires PlainLower(env) && Findings(a).Some? && !AuditAgrees(env, a) && Acceptable(env, Findings(a).value)
    ensures !ReorderingIsIrrelevant(env, a)
  {
    var found, more := AdvisoryFindings(a.advisories), AllVulnFindings(a.vulnerabilities).value;
    if !SeveritiesAgree(env, found) {
      var f, g :| f in found && g in found && Counted(env, f) && Counted(env, g) &&
                  FindingKey(env, f) == FindingKey(env, g) &&
                  SeverityOf(env, f.severity) != SeverityOf(env, g.severity);
      var b := AdvisoryLeads(env, a, f);
      var c := AdvisoryLeads(env, a, g);
      TwoLeaders(env, a, b, f, c, g);
    } else {
      var f, g :| f in more && g in more && Counted(env, f) && Counted(env, g) &&
                  FindingKey(env, f) == FindingKey(env, g) && !HasKey(env, found, FindingKey(env, f)) &&
                  SeverityOf(env, f.severity) != SeverityOf(env, g.severity);
      var b, f' := VulnerabilityLeads(env, a, f);
      var c, g' := VulnerabilityLeads(env, a, g);
      TwoLeaders(env, a, b, f', c, g');
    }
  }

  /** The order of an audit is irrelevant for every exceptions file if and only if the audit cannot be read, or the
      findings that can come first for a key agree on the severity, or no file can make the gate accept them. In that
      case the order and number of items and repeated entries do not matter, either. */
  lemma AuditOrderIff(env: Env, a: Audit)
    requires PlainLower(env)
    ensures ReorderingIsIrrelevant(env, a) <==>
            (Findings(a).Some? && Acceptable(env, Findings(a).value) ==> AuditAgrees(env, a))
    ensures OnlyEntriesMatter(env, a) <==>
            (Findings(a).Some? && Acceptable(env, Findings(a).value) ==> AuditAgrees(env, a))
  {
    forall b | Reordered(a, b)
      ensures SameEntries(a, b)
    {
      ReorderedIsSame(a, b);
    }
    assert OnlyEntriesMatter(env, a) ==> ReorderingIsIrrelevant(env, a);
    if Findings(a).Some? && Acceptable(env, Findings(a).value) && !AuditAgrees(env, a) {
      DisagreementShowsInAudit(env, a);
    } else {
      forall text, b | SameEntries(a, b)
        ensures Verdict(env, text, a) == Validated <==> Verdict(env, text, b) == Validated
      {
        NoVerdictDiffers(env, text, a, b);
      }
    }
  }

  lemma NoVerdictDiffers(env: Env, text: string, a: Audit, b: Audit)
    requires PlainLower(env) && SameEntries(a, b)
    requires Findings(a).Some? && Acceptable(env, Findings(a).value) ==> AuditAgrees(env, a)
    ensures Verdict(env, text, a) == Validated <==> Verdict(env, text, b) == Validated
  {
    SameEntriesSameFindings(a, b);
    if Findings(a).None? || AuditAgrees(env, a) {
      AuditOrderIsIrrelevant(env, text, a, b);
    } else {
      AcceptableTogether(env, a, b);
      AcceptableIff(env, a);
      AcceptableIff(env, b);
    }
  }
}
