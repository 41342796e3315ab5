/** How the verdict depends on the order of exceptions, and of a list of findings. */
module AuditOrder {
  import opened Wrappers
  import opened AuditText
  import opened AuditParse
  import opened AuditVulns
  import opened AuditFindings
  import opened AuditGate
  import opened AuditVerdict
  import opened AuditAcceptance

  lemma SomewhereElse<T>(s: seq<T>, x: T) returns (i: nat, j: nat)
    requires multiset(s)[x] >= 2
    ensures i < j < |s| && s[i] == s[j] == x
  {
    i :| i < |s| && s[i] == x;
    assert s == s[..i] + [x] + s[i + 1..];
    if x in s[..i] {
      j := i;
      i :| i < j && s[..j][i] == x;
    } else {
      assert x in s[i + 1..];
      j :| 0 <= j < |s| - i - 1 && s[i + 1..][j] == x;
      j := i + 1 + j;
    }
  }

  lemma TwiceInMultiset<T>(s: seq<T>, i: nat, j: nat)
    requires i < j < |s| && s[i] == s[j]
    ensures multiset(s)[s[i]] >= 2
  {
    assert s == s[..j] + s[j..] && s[..j][i] == s[i] && s[j..][0] == s[i];
    assert s[i] in s[..j] && s[i] in s[j..];
  }

  lemma PermutedKeys(env: Env, excs: seq<Record>, others: seq<Record>)
    requires multiset(excs) == multiset(others) && DistinctKeys(env, excs)
    ensures DistinctKeys(env, others)
  {
    forall i, j | 0 <= i < j < |others|
      ensures ExceptionKey(env, others[i]) != ExceptionKey(env, others[j])
    {
      var a, b := others[i], others[j];
      if a == b {
        TwiceInMultiset(others, i, j);
        var k, l := SomewhereElse(excs, a);
        assert ExceptionKey(env, excs[k]) != ExceptionKey(env, excs[l]);
      } else {
        SameElements(excs, others, a);
        SameElements(excs, others, b);
        var k :| 0 <= k < |excs| && excs[k] == a;
        var l :| 0 <= l < |excs| && excs[l] == b;
        assert k < l || l < k;
      }
    }
  }

  lemma SameElements<T>(s: seq<T>, t: seq<T>, x: T)
    requires multiset(s) == multiset(t)
    ensures x in s <==> x in t
  {
    assert x in s <==> x in multiset(s);
    assert x in t <==> x in multiset(t);
  }

  lemma AcceptsPermutedOneWay(env: Env, excs: seq<Record>, others: seq<Record>, fs: seq<Finding>)
    requires multiset(excs) == multiset(others) && Accepts(env, excs, fs)
    ensures Accepts(env, others, fs)
  {
    PermutedKeys(env, excs, others);
    forall exc
      ensures exc in excs <==> exc in others
    {
      SameElements(excs, others, exc);
    }
    forall i | 0 <= i < |fs| && FirstWithKey(env, fs, i)
      ensures Exempted(env, others, fs[i])
    {
      assert Exempted(env, excs, fs[i]);
      var exc :| exc in excs && Exempts(env, exc, fs[i]);
      assert exc in others;
    }
  }

  /** The order of the exceptions does not matter, duplicates included. */
  lemma ExceptionOrderIsIrrelevant(env: Env, text: string, other: string, audit: Audit)
    requires Parsed(Lines(text)).Some? && Parsed(Lines(other)).Some?
    requires multiset(Parsed(Lines(text)).value) == multiset(Parsed(Lines(other)).value)
    ensures Verdict(env, text, audit) == Validated <==> Verdict(env, other, audit) == Validated
  {
    ValidatedIff(env, text, audit);
    ValidatedIff(env, other, audit);
    if Findings(audit).Some? {
      var excs, others := Parsed(Lines(text)).value, Parsed(Lines(other)).value;
      if Accepts(env, excs, Findings(audit).value) {
        AcceptsPermutedOneWay(env, excs, others, Findings(audit).value);
      }
      if Accepts(env, others, Findings(audit).value) {
        AcceptsPermutedOneWay(env, others, excs, Findings(audit).value);
      }
    }
  }

  /** Findings with the same key have the same severity. */
  ghost predicate SeveritiesAgree(env: Env, fs: seq<Finding>) {
    forall f, g
      | f in fs && g in fs && Counted(env, f) && Counted(env, g) && FindingKey(env, f) == FindingKey(env, g) ::
      SeverityOf(env, f.severity) == SeverityOf(env, g.severity)
  }

  lemma AcceptsSameFindings(env: Env, excs: seq<Record>, fs: seq<Finding>, others: seq<Finding>)
    requires forall f :: f in fs <==> f in others
    requires SeveritiesAgree(env, fs) && Accepts(env, excs, fs)
    ensures Accepts(env, excs, others)
  {
    forall i | 0 <= i < |others| && FirstWithKey(env, others, i)
      ensures Exempted(env, excs, others[i])
    {
      assert others[i] in fs;
      var j :| 0 <= j < |fs| && fs[j] == others[i];
      var k := FirstOf(env, fs, j);
      assert fs[k] in fs && Exempted(env, excs, fs[k]);
      var exc :| exc in excs && Exempts(env, exc, fs[k]);
      assert Exempts(env, exc, others[i]);
    }
  }

  lemma SeveritiesAgreeUntitled(env: Env, fs: seq<Finding>)
    ensures SeveritiesAgree(env, AllUntitled(fs)) <==> SeveritiesAgree(env, fs)
  {
    var us := AllUntitled(fs);
    forall i | 0 <= i < |fs|
      ensures us[i] in us && fs[i] in fs && us[i] == Untitled(fs[i]) && Counted(env, us[i]) == Counted(env, fs[i])
      ensures FindingKey(env, us[i]) == FindingKey(env, fs[i])
      ensures SeverityOf(env, us[i].severity) == SeverityOf(env, fs[i].severity)
    {
      TitleDoesNotMatter(env, fs[i]);
    }
  }

  // ---- Lists of findings ----

  /** No exceptions file tells two orders of the findings apart. */
  ghost predicate OrderIrrelevant(env: Env, fs: seq<Finding>) {
    forall text, a: seq<Finding>, b: seq<Finding> | multiset(a) == multiset(fs) && multiset(b) == multiset(fs) ::
      Passes(env, text, a) ==> Passes(env, text, b)
  }

  /** The list with the element at `i` in front. */
  function MovedToFront<T>(s: seq<T>, i: nat): (r: seq<T>)
    requires i < |s|
    ensures multiset(r) == multiset(s) && r[0] == s[i]
  {
    assert s == s[..i] + [s[i]] + s[i + 1..];
    [s[i]] + (s[..i] + s[i + 1..])
  }

  /** Finding `f` is the first one with its key. */
  ghost predicate ComesFirst(env: Env, fs: seq<Finding>, f: Finding) {
    exists i: nat :: FirstWithKey(env, fs, i) && fs[i] == f
  }

  /** A file that names the severities of the first findings rejects any list in which a finding of another severity
      comes first. */
  lemma OtherFirstIsRejected(env: Env, text: string, fs: seq<Finding>, gs: seq<Finding>, f: Finding, g: Finding)
    requires Passes(env, text, fs) && NamesFirsts(env, text, fs) && ComesFirst(env, fs, f) && ComesFirst(env, gs, g)
    requires FindingKey(env, f) == FindingKey(env, g)
    requires SeverityOf(env, f.severity) != SeverityOf(env, g.severity)
    ensures !Passes(env, text, gs)
  {
    var excs := Parsed(Lines(text)).value;
    var i: nat :| FirstWithKey(env, fs, i) && fs[i] == f;
    var j: nat :| FirstWithKey(env, gs, j) && gs[j] == g;
    var exc :| exc in excs && Names(env, exc, fs[i]);
    forall other | other in excs && ExceptionKey(env, other) == FindingKey(env, g)
      ensures other == exc
    {
      OneExceptionPerKey(env, excs, exc, other);
    }
    assert Mismatched(env, ExemptionOf(env, exc), g);
    assert !Exempted(env, excs, gs[j]);
  }

  lemma OneExceptionPerKey(env: Env, excs: seq<Record>, exc: Record, other: Record)
    requires DistinctKeys(env, excs) && exc in excs && other in excs
    requires ExceptionKey(env, exc) == ExceptionKey(env, other)
    ensures exc == other
  {
    var i :| 0 <= i < |excs| && excs[i] == exc;
    var j :| 0 <= j < |excs| && excs[j] == other;
    assert ExceptionKey(env, excs[i]) == ExceptionKey(env, excs[j]);
  }

  lemma SameAcceptable(env: Env, fs: seq<Finding>, gs: seq<Finding>)
    requires forall f :: f in fs <==> f in gs
    ensures Acceptable(env, fs) <==> Acceptable(env, gs)
    ensures SeveritiesAgree(env, fs) <==> SeveritiesAgree(env, gs)
  {
  }

  lemma SamePermuted(env: Env, fs: seq<Finding>, a: seq<Finding>)
    requires multiset(a) == multiset(fs)
    ensures forall f :: f in fs <==> f in a
    ensures Acceptable(env, fs) <==> Acceptable(env, a)
    ensures SeveritiesAgree(env, fs) <==> SeveritiesAgree(env, a)
  {
    forall f
      ensures f in fs <==> f in a
    {
      SameElements(a, fs, f);
    }
    SameAcceptable(env, fs, a);
  }

  /** The order of a list of findings is irrelevant for every exceptions file if and only if all findings of a key have
      the same severity, or no file can make the gate accept them. */
  lemma OrderIrrelevantIff(env: Env, fs: seq<Finding>)
    requires PlainLower(env)
    ensures OrderIrrelevant(env, fs) <==> SeveritiesAgree(env, fs) || !Acceptable(env, fs)
  {
    if !SeveritiesAgree(env, fs) && Acceptable(env, fs) {
      DisagreementShows(env, fs);
    } else {
      forall text, a: seq<Finding>, b: seq<Finding>
        | multiset(a) == multiset(fs) && multiset(b) == multiset(fs) && Passes(env, text, a)
        ensures Passes(env, text, b)
      {
        SamePermuted(env, fs, a);
        SamePermuted(env, fs, b);
        PassedIsAcceptable(env, text, a);
        AcceptsSameFindings(env, Parsed(Lines(text)).value, a, b);
      }
    }
  }

  lemma DisagreementShows(env: Env, fs: seq<Finding>)
    requires PlainLower(env) && Acceptable(env, fs) && !SeveritiesAgree(env, fs)
    ensures !OrderIrrelevant(env, fs)
  {
    var f, g :| f in fs && g in fs && Counted(env, f) && Counted(env, g) && FindingKey(env, f) == FindingKey(env, g) &&
                SeverityOf(env, f.severity) != SeverityOf(env, g.severity);
    var i :| 0 <= i < |fs| && fs[i] == f;
    var k :| 0 <= k < |fs| && fs[k] == g;
    var a, b := MovedToFront(fs, i), MovedToFront(fs, k);
    assert FirstWithKey(env, a, 0) && FirstWithKey(env, b, 0);
    SamePermuted(env, fs, a);
    var text := AcceptingText(env, a);
    OtherFirstIsRejected(env, text, a, b, f, g);
  }
}
