/** What an audit yields, and how often. */
module AuditFindings {
  import opened Wrappers
  import opened AuditVulns

  // ---- What is found, and what stops the tool ----

  lemma {:induction false} InTruthyOnes(xs: seq<Scalar>, x: Scalar)
    ensures x in TruthyOnes(xs) <==> x in xs && Truthy(x)
  {
    if xs != [] {
      InTruthyOnes(xs[..|xs| - 1], x);
      assert xs == xs[..|xs| - 1] + [xs[|xs| - 1]];
    }
  }

  lemma {:induction false} JoinFailsIff(xs: seq<Scalar>)
    ensures JoinTitles(xs).None? <==> exists x :: x in xs && !x.Text?
  {
    if xs != [] {
      JoinFailsIff(xs[..|xs| - 1]);
      assert xs == xs[..|xs| - 1] + [xs[|xs| - 1]];
    }
  }

  /** Titles are joined with a semicolon and a space between any two of them. */
  lemma {:induction false} TitlesAreJoined(xs: seq<Scalar>, ys: seq<Scalar>)
    requires xs != [] && ys != []
    ensures JoinTitles(xs + ys) ==
            if JoinTitles(xs).None? || JoinTitles(ys).None? then None
            else Some(JoinTitles(xs).value + "; " + JoinTitles(ys).value)
    decreases |ys|
  {
    var front, last := ys[..|ys| - 1], ys[|ys| - 1];
    assert (xs + ys)[..|xs + ys| - 1] == xs + front;
    if front == [] {
      assert xs + front == xs && ys == [last];
      OneTitle(last);
    } else {
      TitlesAreJoined(xs, front);
      if JoinTitles(xs).Some? && JoinTitles(front).Some? && last.Text? {
        assert (JoinTitles(xs).value + "; " + JoinTitles(front).value) + "; " + last.s ==
               JoinTitles(xs).value + "; " + (JoinTitles(front).value + "; " + last.s);
      }
    }
  }

  lemma OneTitle(x: Scalar)
    ensures JoinTitles([x]) == if x.Text? then Some(x.s) else None
  {
    assert [x][..|[x]| - 1] == [];
  }

  lemma BadTitleIsJoined(items: seq<ViaItem>, item: ViaItem)
    requires item in items && BadTitle(item)
    ensures JoinTitles(TruthyOnes(ItemTitles(items))).None?
  {
    var titles := ItemTitles(items);
    var k :| 0 <= k < |items| && items[k] == item;
    assert titles[k] in titles && titles[k] == ItemTitle(item);
    InTruthyOnes(titles, ItemTitle(item));
    JoinFailsIff(TruthyOnes(titles));
  }

  lemma JoinedHasBadTitle(items: seq<ViaItem>) returns (item: ViaItem)
    requires JoinTitles(TruthyOnes(ItemTitles(items))).None?
    ensures item in items && BadTitle(item)
  {
    var titles := ItemTitles(items);
    JoinFailsIff(TruthyOnes(titles));
    var x :| x in TruthyOnes(titles) && !x.Text?;
    InTruthyOnes(titles, x);
    var k :| 0 <= k < |titles| && titles[k] == x;
    item := items[k];
  }

  /** A vulnerability stops the tool if and only if one of its items has a title that is not a string. */
  lemma VulnStopsIff(v: Vulnerability)
    ensures VulnFindings(v).None? <==> exists item :: item in ViaItems(v.via) && BadTitle(item)
  {
    if item :| item in ViaItems(v.via) && BadTitle(item) {
      BadTitleIsJoined(ViaItems(v.via), item);
    }
    if VulnTitle(v).None? {
      var item := JoinedHasBadTitle(ViaItems(v.via));
    }
  }

  /** One finding comes from this entry of `vulnerabilities`. */
  predicate FoundIn(f: Finding, v: Vulnerability) {
    && f.name == Text(v.name) && f.severity == v.severity && Truthy(f.advisory)
    && (exists item :: item in ViaItems(v.via) && ItemId(item) == f.advisory)
    && (VulnTitle(v).Some? && f.title == Text(VulnTitle(v).value))
  }

  lemma VulnFindingsMeaning(v: Vulnerability, f: Finding)
    requires VulnFindings(v).Some?
    ensures f in VulnFindings(v).value <==> FoundIn(f, v)
  {
    var items := ViaItems(v.via);
    var all := ItemIds(items);
    var ids := TruthyOnes(all);
    InTruthyOnes(all, f.advisory);
    if f in VulnFindings(v).value {
      var k :| 0 <= k < |ids| && VulnFindings(v).value[k] == f;
      assert ids[k] in ids;
      var j :| 0 <= j < |all| && all[j] == f.advisory;
      assert items[j] in items;
    }
    if FoundIn(f, v) {
      var item :| item in items && ItemId(item) == f.advisory;
      var j :| 0 <= j < |items| && items[j] == item;
      assert all[j] in all;
      var k :| 0 <= k < |ids| && ids[k] == f.advisory;
      assert VulnFindings(v).value[k] == f;
    }
  }

  // ---- How often something is found ----

  /** The number of items of `via` with this id. */
  function ItemsWithId(items: seq<ViaItem>, id: Scalar): nat {
    if items == [] then 0
    else ItemsWithId(items[..|items| - 1], id) + if ItemId(items[|items| - 1]) == id then 1 else 0
  }

  /** How often this entry of `vulnerabilities` yields the finding: once for every item with its id. */
  function TimesIn(f: Finding, v: Vulnerability): nat {
    if f.name == Text(v.name) && f.severity == v.severity && Truthy(f.advisory) && VulnTitle(v).Some? &&
       f.title == Text(VulnTitle(v).value)
    then ItemsWithId(ViaItems(v.via), f.advisory) else 0
  }

  function TimesInAll(f: Finding, vs: seq<Vulnerability>): nat {
    if vs == [] then 0 else TimesInAll(f, vs[..|vs| - 1]) + TimesIn(f, vs[|vs| - 1])
  }

  function AdvisoriesLike(f: Finding, advisories: seq<Advisory>): nat {
    if advisories == [] then 0
    else
      AdvisoriesLike(f, advisories[..|advisories| - 1]) +
      if AdvisoryFinding(advisories[|advisories| - 1]) == f then 1 else 0
  }

  lemma CountPushed(xs: seq<Scalar>, x: Scalar, id: Scalar)
    requires Truthy(id)
    ensures multiset(xs + if Truthy(x) then [x] else [])[id] == multiset(xs)[id] + if x == id then 1 else 0
  {
    assert xs + [] == xs;
  }

  lemma {:induction false} CountIds(items: seq<ViaItem>, id: Scalar)
    requires Truthy(id)
    ensures multiset(TruthyOnes(ItemIds(items)))[id] == ItemsWithId(items, id)
  {
    if items != [] {
      var n := |items| - 1;
      var front, last := ItemIds(items[..n]), ItemId(items[n]);
      CountIds(items[..n], id);
      assert ItemIds(items) == front + [last];
      TruthyOnesOfPushed(front, last);
      CountPushed(TruthyOnes(front), last, id);
    }
  }

  function FindingsOf(name: Scalar, severity: Scalar, ids: seq<Scalar>, title: Scalar): (fs: seq<Finding>)
    ensures |fs| == |ids|
  {
    seq(|ids|, k requires 0 <= k < |ids| => Finding(name, severity, ids[k], title))
  }

  lemma {:induction false} CountFindingsOf(name: Scalar, severity: Scalar, ids: seq<Scalar>, title: Scalar, f: Finding)
    ensures multiset(FindingsOf(name, severity, ids, title))[f] ==
            if f == Finding(name, severity, f.advisory, title) then multiset(ids)[f.advisory] else 0
  {
    if ids != [] {
      var n := |ids| - 1;
      CountFindingsOf(name, severity, ids[..n], title, f);
      assert ids == ids[..n] + [ids[n]];
      assert FindingsOf(name, severity, ids, title) ==
             FindingsOf(name, severity, ids[..n], title) + [Finding(name, severity, ids[n], title)];
    }
  }

  lemma CountVulnFindings(v: Vulnerability, f: Finding)
    requires VulnFindings(v).Some?
    ensures multiset(VulnFindings(v).value)[f] == TimesIn(f, v)
  {
    var ids, title := TruthyOnes(ItemIds(ViaItems(v.via))), Text(VulnTitle(v).value);
    assert VulnFindings(v).value == FindingsOf(Text(v.name), v.severity, ids, title);
    CountFindingsOf(Text(v.name), v.severity, ids, title, f);
    if Truthy(f.advisory) {
      CountIds(ViaItems(v.via), f.advisory);
    } else {
      InTruthyOnes(ItemIds(ViaItems(v.via)), f.advisory);
    }
  }

  lemma {:induction false} CountAllVulnFindings(vs: seq<Vulnerability>, f: Finding)
    requires AllVulnFindings(vs).Some?
    ensures multiset(AllVulnFindings(vs).value)[f] == TimesInAll(f, vs)
  {
    if vs != [] {
      CountAllVulnFindings(vs[..|vs| - 1], f);
      CountVulnFindings(vs[|vs| - 1], f);
    }
  }

  lemma {:induction false} CountAdvisoryFindings(advisories: seq<Advisory>, f: Finding)
    ensures multiset(AdvisoryFindings(advisories))[f] == AdvisoriesLike(f, advisories)
  {
    if advisories != [] {
      var n := |advisories| - 1;
      CountAdvisoryFindings(advisories[..n], f);
      assert AdvisoryFindings(advisories) == AdvisoryFindings(advisories[..n]) + [AdvisoryFinding(advisories[n])];
    }
  }

  /** An audit yields each finding as often as it has advisories and items for it. */
  lemma FindingsCount(audit: Audit, f: Finding)
    requires Findings(audit).Some?
    ensures multiset(Findings(audit).value)[f] ==
            AdvisoriesLike(f, audit.advisories) + TimesInAll(f, audit.vulnerabilities)
  {
    CountAdvisoryFindings(audit.advisories, f);
    CountAllVulnFindings(audit.vulnerabilities, f);
  }

  function Both(a: Option<seq<Finding>>, b: Option<seq<Finding>>): Option<seq<Finding>> {
    if a.None? || b.None? then None else Some(a.value + b.value)
  }

  lemma BothIsAssociative(a: Option<seq<Finding>>, b: Option<seq<Finding>>, c: Option<seq<Finding>>)
    ensures Both(Both(a, b), c) == Both(a, Both(b, c))
  {
    if a.Some? && b.Some? && c.Some? {
      assert (a.value + b.value) + c.value == a.value + (b.value + c.value);
    }
  }

  lemma AllVulnFindingsSnoc(vs: seq<Vulnerability>, v: Vulnerability)
    ensures AllVulnFindings(vs + [v]) == Both(AllVulnFindings(vs), VulnFindings(v))
  {
    assert (vs + [v])[..|vs|] == vs;
  }

  /** The findings come in the order of the entries, vulnerability by vulnerability. */
  lemma {:induction false} FindingsInOrder(vs: seq<Vulnerability>, ws: seq<Vulnerability>)
    ensures AllVulnFindings(vs + ws) == Both(AllVulnFindings(vs), AllVulnFindings(ws))
    decreases |ws|
  {
    if ws == [] {
      assert vs + ws == vs;
      assert AllVulnFindings(vs).Some? ==> AllVulnFindings(vs).value + [] == AllVulnFindings(vs).value;
    } else {
      var front, w := ws[..|ws| - 1], ws[|ws| - 1];
      FindingsInOrder(vs, front);
      assert ws == front + [w] && vs + ws == (vs + front) + [w];
      AllVulnFindingsSnoc(vs + front, w);
      AllVulnFindingsSnoc(front, w);
      BothIsAssociative(AllVulnFindings(vs), AllVulnFindings(front), VulnFindings(w));
    }
  }

  // ---- Which findings there are ----

  lemma {:induction false} AllVulnFindingsMeaning(vs: seq<Vulnerability>, f: Finding)
    ensures AllVulnFindings(vs).None? <==> exists v :: v in vs && VulnFindings(v).None?
    ensures AllVulnFindings(vs).Some? ==> (f in AllVulnFindings(vs).value <==> exists v :: v in vs && FoundIn(f, v))
  {
    if vs != [] {
      var last := vs[|vs| - 1];
      AllVulnFindingsMeaning(vs[..|vs| - 1], f);
      assert vs == vs[..|vs| - 1] + [last];
      assert last in vs;
      if VulnFindings(last).Some? {
        VulnFindingsMeaning(last, f);
      }
    }
  }

  /** What an audit yields depends only on which entries it has: one finding for every advisory, and one for every
      item with a usable id of every vulnerability. */
  lemma FindingsMeaning(audit: Audit, f: Finding)
    ensures Findings(audit).None? <==>
            exists v :: v in audit.vulnerabilities && exists item :: item in ViaItems(v.via) && BadTitle(item)
    ensures Findings(audit).Some? ==>
              (f in Findings(audit).value <==>
                 (exists a :: a in audit.advisories && f == AdvisoryFinding(a)) ||
                 (exists v :: v in audit.vulnerabilities && FoundIn(f, v)))
  {
    AllVulnFindingsMeaning(audit.vulnerabilities, f);
    forall v | v in audit.vulnerabilities
      ensures VulnFindings(v).None? <==> exists item :: item in ViaItems(v.via) && BadTitle(item)
    {
      VulnStopsIff(v);
    }
    var fs := AdvisoryFindings(audit.advisories);
    assert forall k | 0 <= k < |fs| :: fs[k] == AdvisoryFinding(audit.advisories[k]);
    assert forall a | a in audit.advisories :: AdvisoryFinding(a) in fs by {
      forall a | a in audit.advisories ensures AdvisoryFinding(a) in fs {
        var k :| 0 <= k < |audit.advisories| && audit.advisories[k] == a;
        assert fs[k] == AdvisoryFinding(a);
      }
    }
  }

  // ---- Findings without their titles ----

  function Untitled(f: Finding): Finding {
    f.(title := Missing)
  }

  function AllUntitled(fs: seq<Finding>): (r: seq<Finding>)
    ensures |r| == |fs|
  {
    seq(|fs|, k requires 0 <= k < |fs| => Untitled(fs[k]))
  }

  lemma InAllUntitled(fs: seq<Finding>, f: Finding)
    ensures f in AllUntitled(fs) <==> exists g :: g in fs && Untitled(g) == f
  {
    var us := AllUntitled(fs);
    if f in us {
      var k :| 0 <= k < |us| && us[k] == f;
      assert fs[k] in fs && Untitled(fs[k]) == f;
    }
    if g :| g in fs && Untitled(g) == f {
      var k :| 0 <= k < |fs| && fs[k] == g;
      assert us[k] == f;
    }
  }

  /** A finding, but for its title, comes from this entry of `vulnerabilities`. */
  predicate ComesFrom(f: Finding, v: Vulnerability) {
    && f.name == Text(v.name) && f.severity == v.severity && Truthy(f.advisory) && f.title == Missing
    && exists item :: item in ViaItems(v.via) && ItemId(item) == f.advisory
  }

  /** Which findings there are, but for the titles. */
  lemma UntitledMeaning(audit: Audit, f: Finding)
    requires Findings(audit).Some?
    ensures f in AllUntitled(Findings(audit).value) <==>
            (exists a :: a in audit.advisories && f == Untitled(AdvisoryFinding(a))) ||
            (exists v :: v in audit.vulnerabilities && ComesFrom(f, v))
  {
    InAllUntitled(Findings(audit).value, f);
    forall g
      ensures g in Findings(audit).value <==>
              (exists a :: a in audit.advisories && g == AdvisoryFinding(a)) ||
              (exists v :: v in audit.vulnerabilities && FoundIn(g, v))
    {
      FindingsMeaning(audit, g);
    }
    forall a | a in audit.advisories && f == Untitled(AdvisoryFinding(a))
      ensures f in AllUntitled(Findings(audit).value)
    {
      assert AdvisoryFinding(a) in Findings(audit).value;
    }
    forall v | v in audit.vulnerabilities && ComesFrom(f, v)
      ensures f in AllUntitled(Findings(audit).value)
    {
      VulnHasTitle(audit.vulnerabilities, v);
      var g := f.(title := Text(VulnTitle(v).value));
      assert FoundIn(g, v) && Untitled(g) == f;
    }
    if f in AllUntitled(Findings(audit).value) {
      var g :| g in Findings(audit).value && Untitled(g) == f;
      if v :| v in audit.vulnerabilities && FoundIn(g, v) {
        assert ComesFrom(f, v);
      }
    }
  }

  lemma {:induction false} VulnHasTitle(vs: seq<Vulnerability>, v: Vulnerability)
    requires AllVulnFindings(vs).Some? && v in vs
    ensures VulnTitle(v).Some?
  {
    AllVulnFindingsMeaning(vs, Finding(Missing, Missing, Missing, Missing));
    assert VulnFindings(v).Some?;
  }

  /** The same package and severity, and the same items in any order and number. */
  ghost predicate SameVulnerability(v: Vulnerability, w: Vulnerability) {
    v.name == w.name && v.severity == w.severity && forall item :: item in ViaItems(v.via) <==> item in ViaItems(w.via)
  }

  ghost predicate HasSame(vs: seq<Vulnerability>, v: Vulnerability) {
    exists w :: w in vs && SameVulnerability(v, w)
  }

  /** Two audits that differ only in the order and the number of their entries and of the items in each. */
  ghost predicate SameEntries(a: Audit, b: Audit) {
    && (forall x :: x in a.advisories <==> x in b.advisories)
    && (forall v | v in a.vulnerabilities :: HasSame(b.vulnerabilities, v))
    && (forall v | v in b.vulnerabilities :: HasSame(a.vulnerabilities, v))
  }

  /** Such audits yield the same findings, but for titles and order. */
  lemma SameEntriesSameFindings(a: Audit, b: Audit)
    requires SameEntries(a, b)
    ensures Findings(a).Some? <==> Findings(b).Some?
    ensures Findings(a).Some? ==>
              forall f :: f in AllUntitled(Findings(a).value) <==> f in AllUntitled(Findings(b).value)
  {
    if Findings(a).None? {
      StopsTogether(a, b);
    } else if Findings(b).None? {
      StopsTogether(b, a);
    } else {
      forall f
        ensures f in AllUntitled(Findings(a).value) <==> f in AllUntitled(Findings(b).value)
      {
        if f in AllUntitled(Findings(a).value) {
          FoundTogether(a, b, f);
        }
        if f in AllUntitled(Findings(b).value) {
          FoundTogether(b, a, f);
        }
      }
    }
  }

  lemma StopsTogether(a: Audit, b: Audit)
    requires SameEntries(a, b) && Findings(a).None?
    ensures Findings(b).None?
  {
    FindingsMeaning(a, Finding(Missing, Missing, Missing, Missing));
    FindingsMeaning(b, Finding(Missing, Missing, Missing, Missing));
    var v :| v in a.vulnerabilities && exists item :: item in ViaItems(v.via) && BadTitle(item);
    var item :| item in ViaItems(v.via) && BadTitle(item);
    assert HasSame(b.vulnerabilities, v);
    var w :| w in b.vulnerabilities && SameVulnerability(v, w);
    assert item in ViaItems(w.via);
  }

  lemma FoundTogether(a: Audit, b: Audit, f: Finding)
    requires SameEntries(a, b) && Findings(a).Some? && Findings(b).Some? && f in AllUntitled(Findings(a).value)
    ensures f in AllUntitled(Findings(b).value)
  {
    UntitledMeaning(a, f);
    UntitledMeaning(b, f);
    if v :| v in a.vulnerabilities && ComesFrom(f, v) {
      assert HasSame(b.vulnerabilities, v);
      var w :| w in b.vulnerabilities && SameVulnerability(v, w);
      assert ComesFrom(f, w);
    }
  }
}
