/** How the verdict depends on the date, and on what is added or removed. */
module AuditMonotone {
  import opened Wrappers
  import opened AuditText
  import opened AuditParse
  import opened AuditVulns
  import opened AuditFindings
  import opened AuditGate
  import opened AuditVerdict

  /** A run that passes would have passed on any earlier day. */
  lemma PassesEarlier(env: Env, day: int, text: string, audit: Audit)
    requires day <= env.today && Verdict(env, text, audit) == Validated
    ensures Verdict(env.(today := day), text, audit) == Validated
  {
    ValidatedIff(env, text, audit);
    ValidatedIff(env.(today := day), text, audit);
    AcceptsEarlier(env, day, Parsed(Lines(text)).value, Findings(audit).value);
  }

  lemma AcceptsEarlier(env: Env, day: int, excs: seq<Record>, fs: seq<Finding>)
    requires day <= env.today && Accepts(env, excs, fs)
    ensures Accepts(env.(today := day), excs, fs)
  {
    var sooner := env.(today := day);
    forall exc
      ensures WellFormed(sooner, exc) == WellFormed(env, exc) && ExceptionKey(sooner, exc) == ExceptionKey(env, exc)
    {
      ExceptionAnyDay(env, day, exc);
    }
    forall f
      ensures Blocking(sooner, f) == Blocking(env, f) && Counted(sooner, f) == Counted(env, f)
      ensures FindingKey(sooner, f) == FindingKey(env, f)
      ensures SeverityOf(sooner, f.severity) == SeverityOf(env, f.severity)
    {
      FindingAnyDay(env, day, f);
    }
    forall i | 0 <= i < |fs| && FirstWithKey(sooner, fs, i)
      ensures Exempted(sooner, excs, fs[i])
    {
      assert FirstWithKey(env, fs, i);
      ExemptedEarlier(env, day, excs, fs[i]);
    }
  }

  lemma ExceptionAnyDay(env: Env, day: int, exc: Record)
    ensures var sooner := env.(today := day);
            WellFormed(sooner, exc) == WellFormed(env, exc) && ExceptionKey(sooner, exc) == ExceptionKey(env, exc)
  {
  }

  lemma FindingAnyDay(env: Env, day: int, f: Finding)
    ensures var sooner := env.(today := day);
            && Blocking(sooner, f) == Blocking(env, f) && Counted(sooner, f) == Counted(env, f)
            && FindingKey(sooner, f) == FindingKey(env, f)
            && SeverityOf(sooner, f.severity) == SeverityOf(env, f.severity)
  {
  }

  lemma ExemptedEarlier(env: Env, day: int, excs: seq<Record>, f: Finding)
    requires day <= env.today && Exempted(env, excs, f)
    ensures Exempted(env.(today := day), excs, f)
  {
    var exc :| exc in excs && Exempts(env, exc, f);
    ExceptionAnyDay(env, day, exc);
    FindingAnyDay(env, day, f);
    assert Exempts(env.(today := day), exc, f);
  }

  /** A run that passes still passes with one more well-formed exception, anywhere in the file, whose key is new. */
  lemma PassesWithMoreExceptions(env: Env, text: string, other: string, audit: Audit, exc: Record, k: nat)
    requires Verdict(env, text, audit) == Validated
    requires Parsed(Lines(text)).Some? && k <= |Parsed(Lines(text)).value|
    requires Parsed(Lines(other)) == Some(Parsed(Lines(text)).value[..k] + [exc] + Parsed(Lines(text)).value[k..])
    requires WellFormed(env, exc)
    requires forall e | e in Parsed(Lines(text)).value :: ExceptionKey(env, e) != ExceptionKey(env, exc)
    ensures Verdict(env, other, audit) == Validated
  {
    ValidatedIff(env, text, audit);
    ValidatedIff(env, other, audit);
    AcceptsMore(env, Parsed(Lines(text)).value, Findings(audit).value, exc, k);
  }

  lemma AcceptsMore(env: Env, excs: seq<Record>, fs: seq<Finding>, exc: Record, k: nat)
    requires Accepts(env, excs, fs) && WellFormed(env, exc) && k <= |excs|
    requires forall e | e in excs :: ExceptionKey(env, e) != ExceptionKey(env, exc)
    ensures Accepts(env, excs[..k] + [exc] + excs[k..], fs)
  {
    var more := excs[..k] + [exc] + excs[k..];
    MoreKeys(env, excs, exc, k);
    forall e
      ensures e in more <==> e in excs || e == exc
    {
      assert excs == excs[..k] + excs[k..];
    }
    forall i | 0 <= i < |fs| && FirstWithKey(env, fs, i)
      ensures Exempted(env, more, fs[i])
    {
      assert Exempted(env, excs, fs[i]);
      var e :| e in excs && Exempts(env, e, fs[i]);
      assert e in more;
    }
  }

  lemma MoreKeys(env: Env, excs: seq<Record>, exc: Record, k: nat)
    requires DistinctKeys(env, excs) && k <= |excs|
    requires forall e | e in excs :: ExceptionKey(env, e) != ExceptionKey(env, exc)
    ensures DistinctKeys(env, excs[..k] + [exc] + excs[k..])
  {
    var more := excs[..k] + [exc] + excs[k..];
    forall i, j | 0 <= i < j < |more|
      ensures ExceptionKey(env, more[i]) != ExceptionKey(env, more[j])
    {
      OneMoreAt(excs, exc, k, i);
      OneMoreAt(excs, exc, k, j);
    }
  }

  lemma OneMoreAt(excs: seq<Record>, exc: Record, k: nat, i: nat)
    requires k <= |excs| && i <= |excs|
    ensures var more := excs[..k] + [exc] + excs[k..];
            && (i < k ==> more[i] == excs[i] && excs[i] in excs)
            && (i == k ==> more[i] == exc)
            && (i > k ==> more[i] == excs[i - 1] && excs[i - 1] in excs)
  {
  }

  /** The findings without those that have this key. */
  function WithoutKey(env: Env, fs: seq<Finding>, key: Key): seq<Finding> {
    if fs == [] then []
    else
      var n := |fs| - 1;
      WithoutKey(env, fs[..n], key) + if FindingKey(env, fs[n]) == key then [] else [fs[n]]
  }

  lemma {:induction false} InWithoutKey(env: Env, fs: seq<Finding>, key: Key, f: Finding)
    ensures f in WithoutKey(env, fs, key) <==> f in fs && FindingKey(env, f) != key
  {
    if fs != [] {
      var n := |fs| - 1;
      InWithoutKey(env, fs[..n], key, f);
      assert fs == fs[..n] + [fs[n]];
    }
  }

  /** Dropping a key does not change which finding comes first for any other key. */
  lemma {:induction false} FirstWithoutKey(env: Env, fs: seq<Finding>, key: Key, i: nat) returns (j: nat)
    requires FirstWithKey(env, WithoutKey(env, fs, key), i)
    ensures FirstWithKey(env, fs, j) && fs[j] == WithoutKey(env, fs, key)[i]
  {
    var n := |fs| - 1;
    var kept, front := WithoutKey(env, fs, key), WithoutKey(env, fs[..n], key);
    if i < |front| {
      assert kept[..|front|] == front;
      FirstInPrefix(env, kept, |front|, i);
      j := FirstWithoutKey(env, fs[..n], key, i);
      FirstInPrefix(env, fs, n, j);
    } else {
      j := n;
      assert kept == front + [fs[n]];
      forall l | 0 <= l < n && Counted(env, fs[l])
        ensures FindingKey(env, fs[l]) != FindingKey(env, fs[n])
      {
        InWithoutKey(env, fs[..n], key, fs[l]);
        assert fs[..n][l] == fs[l];
        if FindingKey(env, fs[l]) != key {
          var m :| 0 <= m < |front| && front[m] == fs[l];
          assert kept[m] == fs[l];
        }
      }
    }
  }

  /** An audit that passes still passes when all findings of one key are gone. */
  lemma AcceptsWithoutKey(env: Env, excs: seq<Record>, fs: seq<Finding>, key: Key)
    requires Accepts(env, excs, fs)
    ensures Accepts(env, excs, WithoutKey(env, fs, key))
  {
    var kept := WithoutKey(env, fs, key);
    forall f | f in kept
      ensures f in fs
    {
      InWithoutKey(env, fs, key, f);
    }
    forall i | 0 <= i < |kept| && FirstWithKey(env, kept, i)
      ensures Exempted(env, excs, kept[i])
    {
      var j := FirstWithoutKey(env, fs, key, i);
    }
  }

  // ---- Dropping a vulnerability from an audit ----

  /** An item whose finding would have this advisory key. */
  predicate NamesKey(env: Env, item: ViaItem, advisory: string) {
    Truthy(ItemId(item)) && AdvisoryOf(env, ItemId(item)) == advisory
  }

  function ItemsWithout(env: Env, items: seq<ViaItem>, advisory: string): seq<ViaItem> {
    if items == [] then []
    else
      var n := |items| - 1;
      ItemsWithout(env, items[..n], advisory) + if NamesKey(env, items[n], advisory) then [] else [items[n]]
  }

  function ViaWithout(env: Env, via: Via, advisory: string): Via {
    match via
    case ViaList(items) => ViaList(ItemsWithout(env, items, advisory))
    case ViaName(s) => if NamesKey(env, ViaText(s), advisory) then ViaNothing else via
    case ViaNothing => via
  }

  /** The entry without the items of this key. */
  function EntryWithout(env: Env, v: Vulnerability, key: Key): Vulnerability {
    if Strip(v.name) == key.0 then v.(via := ViaWithout(env, v.via, key.1)) else v
  }

  function EntriesWithout(env: Env, vs: seq<Vulnerability>, key: Key): (r: seq<Vulnerability>)
    ensures |r| == |vs|
  {
    seq(|vs|, k requires 0 <= k < |vs| => EntryWithout(env, vs[k], key))
  }

  function AdvisoriesWithout(env: Env, advisories: seq<Advisory>, key: Key): seq<Advisory> {
    if advisories == [] then []
    else
      var n := |advisories| - 1;
      AdvisoriesWithout(env, advisories[..n], key) +
      if FindingKey(env, AdvisoryFinding(advisories[n])) == key then [] else [advisories[n]]
  }

  /** The audit without everything that yields a finding of this key; the titles of other findings may change. */
  function DropKey(env: Env, audit: Audit, key: Key): Audit {
    Audit(AdvisoriesWithout(env, audit.advisories, key), EntriesWithout(env, audit.vulnerabilities, key))
  }

  lemma {:induction false} WithoutKeyConcat(env: Env, fs: seq<Finding>, gs: seq<Finding>, key: Key)
    ensures WithoutKey(env, fs + gs, key) == WithoutKey(env, fs, key) + WithoutKey(env, gs, key)
    decreases |gs|
  {
    if gs == [] {
      assert fs + gs == fs && WithoutKey(env, fs, key) + [] == WithoutKey(env, fs, key);
    } else {
      var front, g := gs[..|gs| - 1], gs[|gs| - 1];
      assert gs == front + [g];
      WithoutKeyConcat(env, fs, front, key);
      WithoutKeyPushed(env, fs, front, g, key);
    }
  }

  lemma WithoutKeyPushed(env: Env, fs: seq<Finding>, front: seq<Finding>, g: Finding, key: Key)
    requires WithoutKey(env, fs + front, key) == WithoutKey(env, fs, key) + WithoutKey(env, front, key)
    ensures WithoutKey(env, fs + (front + [g]), key) == WithoutKey(env, fs, key) + WithoutKey(env, front + [g], key)
  {
    Regroup(fs, front, [g]);
    WithoutKeySnoc(env, fs + front, g, key);
    WithoutKeySnoc(env, front, g, key);
    Regroup(WithoutKey(env, fs, key), WithoutKey(env, front, key), if FindingKey(env, g) == key then [] else [g]);
  }

  lemma Regroup(a: seq<Finding>, b: seq<Finding>, c: seq<Finding>)
    ensures (a + b) + c == a + (b + c)
  {
  }

  lemma WithoutKeySnoc(env: Env, fs: seq<Finding>, f: Finding, key: Key)
    ensures WithoutKey(env, fs + [f], key) == WithoutKey(env, fs, key) + if FindingKey(env, f) == key then [] else [f]
  {
    assert (fs + [f])[..|fs|] == fs;
  }

  lemma {:induction false} AdvisoriesDropped(env: Env, advisories: seq<Advisory>, key: Key)
    ensures AllUntitled(AdvisoryFindings(AdvisoriesWithout(env, advisories, key))) ==
            WithoutKey(env, AllUntitled(AdvisoryFindings(advisories)), key)
  {
    if advisories != [] {
      var n := |advisories| - 1;
      var front, a := advisories[..n], advisories[n];
      var kept := AdvisoriesWithout(env, front, key);
      AdvisoriesDropped(env, front, key);
      assert AllUntitled(AdvisoryFindings(advisories)) ==
             AllUntitled(AdvisoryFindings(front)) + [Untitled(AdvisoryFinding(a))];
      WithoutKeySnoc(env, AllUntitled(AdvisoryFindings(front)), Untitled(AdvisoryFinding(a)), key);
      TitleDoesNotMatter(env, AdvisoryFinding(a));
      assert AllUntitled(AdvisoryFindings(kept + [a])) ==
             AllUntitled(AdvisoryFindings(kept)) + [Untitled(AdvisoryFinding(a))];
      assert kept + [] == kept;
    }
  }

  /** The ids of the items that are left. */
  lemma {:induction false} IdsDropped(env: Env, name: string, severity: Scalar, items: seq<ViaItem>, key: Key)
    requires Strip(name) == key.0
    ensures FindingsOfItems(name, severity, ItemsWithout(env, items, key.1)) ==
            WithoutKey(env, FindingsOfItems(name, severity, items), key)
  {
    if items != [] {
      var front, item := items[..|items| - 1], items[|items| - 1];
      IdsDropped(env, name, severity, front, key);
      assert items == front + [item];
      ItemDropped(env, name, severity, front, item, key);
    }
  }

  /** The findings of these items, but for the title. */
  function FindingsOfItems(name: string, severity: Scalar, items: seq<ViaItem>): seq<Finding> {
    FindingsOf(Text(name), severity, TruthyOnes(ItemIds(items)), Missing)
  }

  lemma ItemDropped(env: Env, name: string, severity: Scalar, front: seq<ViaItem>, item: ViaItem, key: Key)
    requires Strip(name) == key.0
    requires FindingsOfItems(name, severity, ItemsWithout(env, front, key.1)) ==
             WithoutKey(env, FindingsOfItems(name, severity, front), key)
    ensures FindingsOfItems(name, severity, ItemsWithout(env, front + [item], key.1)) ==
            WithoutKey(env, FindingsOfItems(name, severity, front + [item]), key)
  {
    var kept, f := ItemsWithout(env, front, key.1), Finding(Text(name), severity, ItemId(item), Missing);
    var all, less := FindingsOfItems(name, severity, front), FindingsOfItems(name, severity, kept);
    assert (front + [item])[..|front|] == front && kept + [] == kept;
    assert all + [] == all && less + [] == less;
    IdsOfSnoc(name, severity, front, item);
    IdsOfSnoc(name, severity, kept, item);
    WithoutKeySnoc(env, all, f, key);
    if NamesKey(env, item, key.1) {
      assert ItemsWithout(env, front + [item], key.1) == kept;
      assert FindingKey(env, f) == key;
    } else {
      assert ItemsWithout(env, front + [item], key.1) == kept + [item];
      assert Truthy(ItemId(item)) ==> FindingKey(env, f) != key;
    }
  }

  lemma IdsOfSnoc(name: string, severity: Scalar, items: seq<ViaItem>, item: ViaItem)
    ensures FindingsOfItems(name, severity, items + [item]) ==
            FindingsOfItems(name, severity, items) +
            if Truthy(ItemId(item)) then [Finding(Text(name), severity, ItemId(item), Missing)] else []
  {
    assert ItemIds(items + [item]) == ItemIds(items) + [ItemId(item)];
    TruthyOnesOfPushed(ItemIds(items), ItemId(item));
    var ids := TruthyOnes(ItemIds(items));
    assert ids + [] == ids;
  }

  /** A package of another name has no findings of the key. */
  lemma {:induction false} OtherPackageKept(env: Env, name: string, severity: Scalar, ids: seq<Scalar>, key: Key)
    requires Strip(name) != key.0
    ensures WithoutKey(env, FindingsOf(Text(name), severity, ids, Missing), key) ==
            FindingsOf(Text(name), severity, ids, Missing)
  {
    if ids != [] {
      var front, id := ids[..|ids| - 1], ids[|ids| - 1];
      assert ids == front + [id];
      OtherPackageKept(env, name, severity, front, key);
      OneMoreKept(env, name, severity, front, id, key);
    }
  }

  lemma OneMoreKept(env: Env, name: string, severity: Scalar, ids: seq<Scalar>, id: Scalar, key: Key)
    requires Strip(name) != key.0
    requires WithoutKey(env, FindingsOf(Text(name), severity, ids, Missing), key) ==
             FindingsOf(Text(name), severity, ids, Missing)
    ensures WithoutKey(env, FindingsOf(Text(name), severity, ids + [id], Missing), key) ==
            FindingsOf(Text(name), severity, ids + [id], Missing)
  {
    var f := Finding(Text(name), severity, id, Missing);
    var fs := FindingsOf(Text(name), severity, ids, Missing);
    assert FindingsOf(Text(name), severity, ids + [id], Missing) == fs + [f];
    WithoutKeySnoc(env, fs, f, key);
  }

  lemma UntitledVulnFindings(v: Vulnerability)
    requires VulnFindings(v).Some?
    ensures AllUntitled(VulnFindings(v).value) ==
            FindingsOf(Text(v.name), v.severity, TruthyOnes(ItemIds(ViaItems(v.via))), Missing)
  {
  }

  lemma {:induction false} ItemsWithoutMembers(env: Env, items: seq<ViaItem>, advisory: string)
    ensures forall item | item in ItemsWithout(env, items, advisory) :: item in items
  {
    if items != [] {
      ItemsWithoutMembers(env, items[..|items| - 1], advisory);
    }
  }

  lemma ViaItemsWithout(env: Env, via: Via, advisory: string)
    ensures ViaItems(ViaWithout(env, via, advisory)) == ItemsWithout(env, ViaItems(via), advisory)
  {
    if via.ViaName? {
      assert [ViaText(via.s)][..0] == [];
    }
  }

  lemma VulnDropped(env: Env, v: Vulnerability, key: Key)
    requires VulnFindings(v).Some?
    ensures VulnFindings(EntryWithout(env, v, key)).Some?
    ensures AllUntitled(VulnFindings(EntryWithout(env, v, key)).value) ==
            WithoutKey(env, AllUntitled(VulnFindings(v).value), key)
  {
    var w := EntryWithout(env, v, key);
    ViaItemsWithout(env, v.via, key.1);
    ItemsWithoutMembers(env, ViaItems(v.via), key.1);
    VulnStopsIff(v);
    VulnStopsIff(w);
    UntitledVulnFindings(v);
    UntitledVulnFindings(w);
    if Strip(v.name) == key.0 {
      IdsDropped(env, v.name, v.severity, ViaItems(v.via), key);
    } else {
      OtherPackageKept(env, v.name, v.severity, TruthyOnes(ItemIds(ViaItems(v.via))), key);
    }
  }

  lemma UntitledConcat(fs: seq<Finding>, gs: seq<Finding>)
    ensures AllUntitled(fs + gs) == AllUntitled(fs) + AllUntitled(gs)
  {
  }

  lemma {:induction false} EntriesDropped(env: Env, vs: seq<Vulnerability>, key: Key)
    requires AllVulnFindings(vs).Some?
    ensures AllVulnFindings(EntriesWithout(env, vs, key)).Some?
    ensures AllUntitled(AllVulnFindings(EntriesWithout(env, vs, key)).value) ==
            WithoutKey(env, AllUntitled(AllVulnFindings(vs).value), key)
  {
    if vs != [] {
      var front, v := vs[..|vs| - 1], vs[|vs| - 1];
      assert vs == front + [v];
      EntriesDropped(env, front, key);
      EntryDropped(env, front, v, key);
    }
  }

  lemma EntryDropped(env: Env, front: seq<Vulnerability>, v: Vulnerability, key: Key)
    requires AllVulnFindings(front).Some? && AllVulnFindings(EntriesWithout(env, front, key)).Some?
    requires VulnFindings(v).Some?
    requires AllUntitled(AllVulnFindings(EntriesWithout(env, front, key)).value) ==
             WithoutKey(env, AllUntitled(AllVulnFindings(front).value), key)
    ensures AllVulnFindings(EntriesWithout(env, front + [v], key)).Some? && AllVulnFindings(front + [v]).Some?
    ensures AllUntitled(AllVulnFindings(EntriesWithout(env, front + [v], key)).value) ==
            WithoutKey(env, AllUntitled(AllVulnFindings(front + [v]).value), key)
  {
    var left, w := EntriesWithout(env, front, key), EntryWithout(env, v, key);
    assert EntriesWithout(env, front + [v], key) == left + [w];
    VulnDropped(env, v, key);
    AllVulnFindingsSnoc(front, v);
    AllVulnFindingsSnoc(left, w);
    BothDropped(env, AllVulnFindings(front).value, VulnFindings(v).value, AllVulnFindings(left).value,
                VulnFindings(w).value, key);
  }

  lemma BothDropped(env: Env, fs: seq<Finding>, gs: seq<Finding>, fs': seq<Finding>, gs': seq<Finding>, key: Key)
    requires AllUntitled(fs') == WithoutKey(env, AllUntitled(fs), key)
    requires AllUntitled(gs') == WithoutKey(env, AllUntitled(gs), key)
    ensures AllUntitled(fs' + gs') == WithoutKey(env, AllUntitled(fs + gs), key)
  {
    UntitledConcat(fs, gs);
    UntitledConcat(fs', gs');
    WithoutKeyConcat(env, AllUntitled(fs), AllUntitled(gs), key);
  }

  /** Dropping a key from an audit drops exactly the findings of that key. */
  lemma FindingsDropped(env: Env, audit: Audit, key: Key)
    requires Findings(audit).Some?
    ensures Findings(DropKey(env, audit, key)).Some?
    ensures AllUntitled(Findings(DropKey(env, audit, key)).value) ==
            WithoutKey(env, AllUntitled(Findings(audit).value), key)
  {
    var less := DropKey(env, audit, key);
    AdvisoriesDropped(env, audit.advisories, key);
    EntriesDropped(env, audit.vulnerabilities, key);
    BothDropped(env, AdvisoryFindings(audit.advisories), AllVulnFindings(audit.vulnerabilities).value,
                AdvisoryFindings(less.advisories), AllVulnFindings(less.vulnerabilities).value, key);
  }

  /** A run that passes still passes when a vulnerability key is dropped from the audit, advisories and single items
      of entries alike. */
  lemma PassesWithoutKey(env: Env, text: string, audit: Audit, key: Key)
    requires Verdict(env, text, audit) == Validated
    ensures Verdict(env, text, DropKey(env, audit, key)) == Validated
  {
    var less := DropKey(env, audit, key);
    ValidatedIff(env, text, audit);
    ValidatedIff(env, text, less);
    var excs := Parsed(Lines(text)).value;
    FindingsDropped(env, audit, key);
    AcceptsUntitled(env, excs, Findings(audit).value);
    AcceptsWithoutKey(env, excs, AllUntitled(Findings(audit).value), key);
    AcceptsUntitled(env, excs, Findings(less).value);
  }
}
