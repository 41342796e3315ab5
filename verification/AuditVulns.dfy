/** The two formats of an audit, flattened into one list of findings. */
module AuditVulns {
  import opened Wrappers

  /** A JSON value read with `get`: absent or null, a string, or something else, such as a number, of which only the
      text that `str` yields and its truth value matter. */
  datatype Scalar = Missing | Text(s: string) | Other(text: string, truthy: bool)

  predicate Truthy(x: Scalar) {
    match x
    case Missing => false
    case Text(s) => s != ""
    case Other(_, truthy) => truthy
  }

  /** Python's `or`. */
  function Or(x: Scalar, y: Scalar): Scalar {
    if Truthy(x) then x else y
  }

  /** `str(x) if x is not None else None` */
  function StrOf(x: Scalar): Scalar {
    match x
    case Other(text, _) => Text(text)
    case _ => x
  }

  /** An entry of `advisories`; an absent or null list of CVEs is empty. */
  datatype Advisory = Advisory(
    moduleName: Scalar, name: Scalar, severity: Scalar, githubId: Scalar, url: Scalar, cves: seq<Scalar>,
    id: Scalar, title: Scalar, advisory: Scalar, overview: Scalar)

  datatype ViaItem =
    | ViaText(s: string)
    | ViaObject(githubId: Scalar, url: Scalar, source: Scalar, title: Scalar, name: Scalar, advisory: Scalar)
    | ViaOther

  datatype Via = ViaList(items: seq<ViaItem>) | ViaName(s: string) | ViaNothing

  datatype Vulnerability = Vulnerability(name: string, severity: Scalar, via: Via)

  /** The entries of both dictionaries in their order; a part that is no dictionary has no entries. */
  datatype Audit = Audit(advisories: seq<Advisory>, vulnerabilities: seq<Vulnerability>)

  datatype Finding = Finding(name: Scalar, severity: Scalar, advisory: Scalar, title: Scalar)

  function PickAdvisoryId(a: Advisory): Scalar {
    var cve := if a.cves != [] then a.cves[0] else Missing;
    Or(a.githubId, Or(a.url, Or(cve, Or(StrOf(a.id), Or(a.title, Or(a.advisory, a.overview))))))
  }

  /** `x` is the first truthy one of these values; if all of them are falsy, it is the last. */
  ghost predicate IsFirstTruthy(x: Scalar, values: seq<Scalar>) {
    || (exists k | 0 <= k < |values| :: values[k] == x && Truthy(x) && forall j | 0 <= j < k :: !Truthy(values[j]))
    || (values != [] && x == values[|values| - 1] && forall j | 0 <= j < |values| :: !Truthy(values[j]))
  }

  lemma OrIsFirstTruthy(x: Scalar, y: Scalar, rest: seq<Scalar>)
    requires IsFirstTruthy(y, rest)
    ensures IsFirstTruthy(Or(x, y), [x] + rest)
  {
    var values := [x] + rest;
    assert forall j | 0 < j < |values| :: values[j] == rest[j - 1];
    if Truthy(x) {
      assert values[0] == x;
    } else if m :| 0 <= m < |rest| && rest[m] == y && Truthy(y) && forall j | 0 <= j < m :: !Truthy(rest[j]) {
      assert values[m + 1] == y;
    }
  }

  /** `or` of two, three or more values. */
  lemma OrOfTwo(x: Scalar, y: Scalar)
    ensures IsFirstTruthy(Or(x, y), [x, y])
  {
    assert [y][0] == y;
    OrIsFirstTruthy(x, y, [y]);
    assert [x] + [y] == [x, y];
  }

  lemma OrOfThree(x: Scalar, y: Scalar, z: Scalar)
    ensures IsFirstTruthy(Or(x, Or(y, z)), [x, y, z])
  {
    OrOfTwo(y, z);
    OrIsFirstTruthy(x, Or(y, z), [y, z]);
    assert [x] + [y, z] == [x, y, z];
  }

  lemma OrOfMore(x: Scalar, y: Scalar, r: Scalar, rest: seq<Scalar>)
    requires IsFirstTruthy(r, rest)
    ensures IsFirstTruthy(Or(x, Or(y, r)), [x, y] + rest)
  {
    OrIsFirstTruthy(y, r, rest);
    OrIsFirstTruthy(x, Or(y, r), [y] + rest);
    assert [x] + ([y] + rest) == [x, y] + rest;
  }

  function AdvisoryFinding(a: Advisory): Finding {
    Finding(Or(a.moduleName, a.name), a.severity, PickAdvisoryId(a),
            Or(a.title, Or(a.advisory, Or(a.overview, a.url))))
  }

  /** An advisory yields one finding: its id is the first usable identifier, the stable ones first; name and title
      are the first usable ones, too. */
  lemma AdvisoryPreference(a: Advisory)
    ensures var cve := if a.cves != [] then a.cves[0] else Missing;
            var ids := [a.githubId, a.url, cve, StrOf(a.id), a.title, a.advisory, a.overview];
            IsFirstTruthy(AdvisoryFinding(a).advisory, ids)
    ensures IsFirstTruthy(AdvisoryFinding(a).name, [a.moduleName, a.name])
    ensures IsFirstTruthy(AdvisoryFinding(a).title, [a.title, a.advisory, a.overview, a.url])
  {
    var cve := if a.cves != [] then a.cves[0] else Missing;
    var three := Or(a.title, Or(a.advisory, a.overview));
    OrOfThree(a.title, a.advisory, a.overview);
    OrOfMore(cve, StrOf(a.id), three, [a.title, a.advisory, a.overview]);
    OrOfMore(a.githubId, a.url, Or(cve, Or(StrOf(a.id), three)),
             [cve, StrOf(a.id)] + [a.title, a.advisory, a.overview]);
    assert [a.githubId, a.url] + ([cve, StrOf(a.id)] + [a.title, a.advisory, a.overview]) ==
           [a.githubId, a.url, cve, StrOf(a.id), a.title, a.advisory, a.overview];
    OrOfTwo(a.moduleName, a.name);
    OrOfTwo(a.overview, a.url);
    OrOfMore(a.title, a.advisory, Or(a.overview, a.url), [a.overview, a.url]);
    assert [a.title, a.advisory] + [a.overview, a.url] == [a.title, a.advisory, a.overview, a.url];
  }

  /** The items of a `via`, wherever they stand. */
  function ViaItems(via: Via): seq<ViaItem> {
    match via
    case ViaList(items) => items
    case ViaName(s) => [ViaText(s)]
    case ViaNothing => []
  }

  /** What an item adds to the list of advisory ids; anything that is falsy is dropped later. */
  function ItemId(item: ViaItem): Scalar {
    match item
    case ViaText(s) => Text(s)
    case ViaObject(githubId, url, source, title, name, _) => Or(githubId, Or(url, Or(source, Or(title, name))))
    case ViaOther => Missing
  }

  function ItemTitle(item: ViaItem): Scalar {
    match item
    case ViaText(s) => Text(s)
    case ViaObject(_, url, source, title, _, advisory) => Or(title, Or(url, Or(advisory, source)))
    case ViaOther => Missing
  }

  /** The titles are joined as strings: a title that is something else stops the tool. */
  predicate BadTitle(item: ViaItem) {
    Truthy(ItemTitle(item)) && !ItemTitle(item).Text?
  }

  /** The truthy ones of these. */
  function TruthyOnes(xs: seq<Scalar>): seq<Scalar> {
    if xs == [] then []
    else TruthyOnes(xs[..|xs| - 1]) + if Truthy(xs[|xs| - 1]) then [xs[|xs| - 1]] else []
  }

  /** `"; ".join`; None is the TypeError. */
  function JoinTitles(xs: seq<Scalar>): Option<string> {
    if xs == [] then Some("")
    else
      var front, last := JoinTitles(xs[..|xs| - 1]), xs[|xs| - 1];
      if front.None? || !last.Text? then None
      else if |xs| == 1 then Some(last.s)
      else Some(front.value + "; " + last.s)
  }

  function ItemIds(items: seq<ViaItem>): (r: seq<Scalar>)
    ensures |r| == |items|
  {
    seq(|items|, k requires 0 <= k < |items| => ItemId(items[k]))
  }

  function ItemTitles(items: seq<ViaItem>): (r: seq<Scalar>)
    ensures |r| == |items|
  {
    seq(|items|, k requires 0 <= k < |items| => ItemTitle(items[k]))
  }

  function VulnTitle(v: Vulnerability): Option<string> {
    JoinTitles(TruthyOnes(ItemTitles(ViaItems(v.via))))
  }

  /** What one entry of `vulnerabilities` yields. */
  function VulnFindings(v: Vulnerability): Option<seq<Finding>> {
    var ids := TruthyOnes(ItemIds(ViaItems(v.via)));
    match VulnTitle(v)
    case None => None
    case Some(title) =>
      Some(seq(|ids|, k requires 0 <= k < |ids| => Finding(Text(v.name), v.severity, ids[k], Text(title))))
  }

  function AdvisoryFindings(advisories: seq<Advisory>): seq<Finding> {
    seq(|advisories|, k requires 0 <= k < |advisories| => AdvisoryFinding(advisories[k]))
  }

  function AllVulnFindings(vs: seq<Vulnerability>): Option<seq<Finding>> {
    if vs == [] then Some([])
    else
      var front, last := AllVulnFindings(vs[..|vs| - 1]), VulnFindings(vs[|vs| - 1]);
      if front.None? || last.None? then None else Some(front.value + last.value)
  }

  /** Everything an audit yields; None if the tool stops. */
  function Findings(audit: Audit): Option<seq<Finding>> {
    match AllVulnFindings(audit.vulnerabilities)
    case None => None
    case Some(found) => Some(AdvisoryFindings(audit.advisories) + found)
  }

  /** An item of `via` is known by the first usable one of its identifiers, and titled by its first usable text. */
  lemma ItemPreference(githubId: Scalar, url: Scalar, source: Scalar, title: Scalar, name: Scalar, advisory: Scalar)
    ensures var item := ViaObject(githubId, url, source, title, name, advisory);
            && IsFirstTruthy(ItemId(item), [githubId, url, source, title, name])
            && IsFirstTruthy(ItemTitle(item), [title, url, advisory, source])
  {
    OrOfThree(source, title, name);
    OrOfMore(githubId, url, Or(source, Or(title, name)), [source, title, name]);
    assert [githubId, url] + [source, title, name] == [githubId, url, source, title, name];
    OrOfTwo(advisory, source);
    OrOfMore(title, url, Or(advisory, source), [advisory, source]);
    assert [title, url] + [advisory, source] == [title, url, advisory, source];
  }

  // ---- The loops ----

  /** The list comprehension over truthy values. */
  method KeepTruthy(xs: seq<Scalar>) returns (r: seq<Scalar>)
    ensures r == TruthyOnes(xs)
  {
    r := [];
    for k := 0 to |xs|
      invariant r == TruthyOnes(xs[..k])
    {
      assert xs[..k + 1][..k] == xs[..k];
      if Truthy(xs[k]) {
        r := r + [xs[k]];
      }
    }
    assert xs[..|xs|] == xs;
  }

  lemma TruthyOnesOfPushed(xs: seq<Scalar>, x: Scalar)
    ensures TruthyOnes(xs + [x]) == TruthyOnes(xs) + if Truthy(x) then [x] else []
  {
    assert (xs + [x])[..|xs|] == xs;
  }

  /** One more item, whose id and title are appended unless it is neither an object nor a string. */
  lemma OneMoreId(items: seq<ViaItem>, k: nat, ids: seq<Scalar>)
    requires k < |items| && TruthyOnes(ids) == TruthyOnes(ItemIds(items[..k]))
    ensures TruthyOnes(ids + [ItemId(items[k])]) == TruthyOnes(ItemIds(items[..k + 1]))
    ensures items[k].ViaOther? ==> TruthyOnes(ids) == TruthyOnes(ItemIds(items[..k + 1]))
  {
    assert ItemIds(items[..k + 1]) == ItemIds(items[..k]) + [ItemId(items[k])];
    TruthyOnesOfPushed(ItemIds(items[..k]), ItemId(items[k]));
    TruthyOnesOfPushed(ids, ItemId(items[k]));
  }

  lemma OneMoreTitle(items: seq<ViaItem>, k: nat, titles: seq<Scalar>)
    requires k < |items| && TruthyOnes(titles) == TruthyOnes(ItemTitles(items[..k]))
    ensures TruthyOnes(titles + [ItemTitle(items[k])]) == TruthyOnes(ItemTitles(items[..k + 1]))
    ensures items[k].ViaOther? ==> TruthyOnes(titles) == TruthyOnes(ItemTitles(items[..k + 1]))
  {
    assert ItemTitles(items[..k + 1]) == ItemTitles(items[..k]) + [ItemTitle(items[k])];
    TruthyOnesOfPushed(ItemTitles(items[..k]), ItemTitle(items[k]));
    TruthyOnesOfPushed(titles, ItemTitle(items[k]));
  }

  /** The loop over `via`: it appends to both lists, and does not look at anything but objects and strings. */
  method CollectVia(via: Via) returns (ids: seq<Scalar>, titles: seq<Scalar>)
    ensures TruthyOnes(ids) == TruthyOnes(ItemIds(ViaItems(via)))
    ensures TruthyOnes(titles) == TruthyOnes(ItemTitles(ViaItems(via)))
  {
    match via
    case ViaList(items) =>
      ids, titles := CollectItems(items);
    case ViaName(s) =>
      ids, titles := [Text(s)], [Text(s)];
      assert ItemIds([ViaText(s)]) == [Text(s)] && ItemTitles([ViaText(s)]) == [Text(s)];
    case ViaNothing =>
      ids, titles := [], [];
  }

  method CollectItems(items: seq<ViaItem>) returns (ids: seq<Scalar>, titles: seq<Scalar>)
    ensures TruthyOnes(ids) == TruthyOnes(ItemIds(items)) && TruthyOnes(titles) == TruthyOnes(ItemTitles(items))
  {
    ids, titles := [], [];
    for k := 0 to |items|
      invariant TruthyOnes(ids) == TruthyOnes(ItemIds(items[..k]))
      invariant TruthyOnes(titles) == TruthyOnes(ItemTitles(items[..k]))
    {
      OneMoreId(items, k, ids);
      OneMoreTitle(items, k, titles);
      if !items[k].ViaOther? {
        ids := ids + [ItemId(items[k])];
        titles := titles + [ItemTitle(items[k])];
      }
    }
    assert items[..|items|] == items;
  }

  /** `iter_vulns`, with what it yields collected. */
  method IterVulns(audit: Audit) returns (found: Option<seq<Finding>>)
    ensures found == Findings(audit)
  {
    var produced := IterAdvisories(audit.advisories);
    var more := IterVulnerabilities(audit.vulnerabilities);
    if more.None? {
      return None;
    }
    found := Some(produced + more.value);
  }

  method IterAdvisories(advisories: seq<Advisory>) returns (produced: seq<Finding>)
    ensures produced == AdvisoryFindings(advisories)
  {
    produced := [];
    for k := 0 to |advisories|
      invariant produced == AdvisoryFindings(advisories)[..k]
    {
      produced := produced + [AdvisoryFinding(advisories[k])];
    }
  }

  method IterVulnerabilities(vs: seq<Vulnerability>) returns (found: Option<seq<Finding>>)
    ensures found == AllVulnFindings(vs)
  {
    var produced: seq<Finding> := [];
    for k := 0 to |vs|
      invariant AllVulnFindings(vs[..k]) == Some(produced)
    {
      assert vs[..k + 1][..k] == vs[..k];
      var more := YieldsOf(vs[k]);
      if more.None? {
        VulnStops(vs, k);
        return None;
      }
      produced := produced + more.value;
    }
    assert vs[..|vs|] == vs;
    found := Some(produced);
  }

  method YieldsOf(v: Vulnerability) returns (r: Option<seq<Finding>>)
    ensures r == VulnFindings(v)
  {
    var ids, titles := CollectVia(v.via);
    var truthyTitles := KeepTruthy(titles);
    var title := JoinTitles(truthyTitles);
    if title.None? {
      return None;
    }
    var truthyIds := KeepTruthy(ids);
    var produced := [];
    for k := 0 to |truthyIds|
      invariant produced ==
                seq(k, j requires 0 <= j < k => Finding(Text(v.name), v.severity, truthyIds[j], Text(title.value)))
    {
      produced := produced + [Finding(Text(v.name), v.severity, truthyIds[k], Text(title.value))];
    }
    r := Some(produced);
  }

  lemma {:induction false} VulnStops(vs: seq<Vulnerability>, k: nat)
    requires k < |vs| && VulnFindings(vs[k]).None?
    ensures AllVulnFindings(vs).None?
    decreases |vs|
  {
    if k < |vs| - 1 {
      VulnStops(vs[..|vs| - 1], k);
    }
  }
}
