/** What the account builder does with the fields of its mutation: defaults, checks and the create spec. */
module AccountFields {
  import opened Wrappers
  import opened Schema
  import opened RowCodec

  /** The package variables that `ent/runtime` fills in. The first four defaults are functions, which are nil if
      the package was not imported; `accepts` gathers the string validators. */
  datatype Runtime = Runtime(
    createdAt: Option<int>, updatedAt: Option<int>, credentials: Option<string>, extra: Option<string>,
    concurrency: int, priority: int, rateMultiplier: real, status: string,
    autoPauseOnExpired: bool, schedulable: bool,
    accepts: (Column, string) -> bool)

  datatype FieldError =
    | UninitializedDefault(column: Column) | MissingField(column: Column) | InvalidValue(column: Column)

  /** The default of a field; None for a default function that is nil. */
  function DefaultFor(rt: Runtime, c: Column): Option<Value> {
    match c
    case CreatedAt => if rt.createdAt.Some? then Some(TimeV(rt.createdAt.value)) else None
    case UpdatedAt => if rt.updatedAt.Some? then Some(TimeV(rt.updatedAt.value)) else None
    case Credentials => if rt.credentials.Some? then Some(JsonV(rt.credentials.value)) else None
    case Extra => if rt.extra.Some? then Some(JsonV(rt.extra.value)) else None
    case Concurrency => Some(IntV(rt.concurrency))
    case Priority => Some(IntV(rt.priority))
    case RateMultiplier => Some(FloatV(rt.rateMultiplier))
    case Status => Some(TextV(rt.status))
    case AutoPauseOnExpired => Some(BoolV(rt.autoPauseOnExpired))
    case Schedulable => Some(BoolV(rt.schedulable))
    case QuotaDimension => Some(TextV("global"))
    case _ => None
  }

  /** The fields with a default, in the order of `defaults`. */
  const DEFAULT_ORDER: seq<Column> :=
    [CreatedAt, UpdatedAt, Credentials, Extra, Concurrency, Priority, RateMultiplier, Status,
     AutoPauseOnExpired, Schedulable, QuotaDimension]

  /** The fields that `check` looks at, in its order. */
  const CHECK_ORDER: seq<Column> :=
    [CreatedAt, UpdatedAt, Name, Platform, Type, Credentials, Extra, Concurrency, Priority, RateMultiplier,
     Status, AutoPauseOnExpired, Schedulable, SessionWindowStatus, QuotaDimension]

  /** Of the checked fields only this one may be missing. */
  predicate MayBeMissing(c: Column) {
    c.SessionWindowStatus?
  }

  /** The validator of a field; fields without one accept everything. */
  predicate Validates(rt: Runtime, c: Column, v: Value) {
    match c
    case Name | Platform | Type | Status | SessionWindowStatus => v.TextV? ==> rt.accepts(c, v.s)
    case QuotaDimension => v.TextV? ==> v.s == "global" || v.s == "spark"
    case _ => true
  }

  /** Field `c` passes its part of `check`. */
  predicate FieldOk(rt: Runtime, fields: Row, c: Column) {
    if c in fields then Validates(rt, c, fields[c]) else MayBeMissing(c)
  }

  /** All of `check` passes. */
  predicate Checked(rt: Runtime, fields: Row) {
    forall c | c in CHECK_ORDER :: FieldOk(rt, fields, c)
  }

  /** The fields after `defaults` walked down this list, and the field it stopped at, if any. */
  function FillDefaults(rt: Runtime, fields: Row, order: seq<Column>): (r: (Row, Option<Column>))
    decreases order
  {
    if order == [] then (fields, None)
    else if order[0] in fields then FillDefaults(rt, fields, order[1..])
    else
      match DefaultFor(rt, order[0])
      case None => (fields, Some(order[0]))
      case Some(v) => FillDefaults(rt, fields[order[0] := v], order[1..])
  }

  /** Field `k` of the list is the first that is unset and has no default. */
  predicate StopsAt(rt: Runtime, fields: Row, order: seq<Column>, k: nat) {
    && k < |order| && order[k] !in fields && DefaultFor(rt, order[k]).None?
    && forall j | 0 <= j < k :: order[j] in fields || DefaultFor(rt, order[j]).Some?
  }

  /** `defaults` never touches a field that was set and takes values from the defaults only. It stops at the first
      field that is unset and has no default, with every field in front of it set and this one not; without such a
      field it sets all. */
  lemma {:induction false} DefaultsMeaning(rt: Runtime, fields: Row, order: seq<Column>) returns (k: nat)
    ensures var (after, stop) := FillDefaults(rt, fields, order);
            && (forall c | c in fields :: c in after && after[c] == fields[c])
            && (forall c | c in after && c !in fields :: c in order && DefaultFor(rt, c) == Some(after[c]))
            && (stop.None? ==> k == |order|)
            && (stop.Some? ==> StopsAt(rt, fields, order, k) && stop.value == order[k] && order[k] !in after)
            && (forall j | 0 <= j < k :: order[j] in after)
    decreases order
  {
    k := 0;
    if order != [] {
      var c, rest := order[0], order[1..];
      assert order == [c] + rest;
      assert forall j | 0 < j < |order| :: order[j] == rest[j - 1];
      if c in fields {
        k := DefaultsMeaning(rt, fields, rest);
        k := k + 1;
      } else if DefaultFor(rt, c).Some? {
        k := DefaultsMeaning(rt, fields[c := DefaultFor(rt, c).value], rest);
        k := k + 1;
      }
    }
  }

  lemma {:induction false} PassesOver(rt: Runtime, fields: Row, order: seq<Column>, k: nat)
    requires k <= |order| && forall j | 0 <= j < k :: order[j] in fields
    requires k < |order| ==> order[k] !in fields && DefaultFor(rt, order[k]).None?
    ensures FillDefaults(rt, fields, order).0 == fields
    decreases order
  {
    if k > 0 {
      assert forall j | 0 < j < |order| :: order[1..][j - 1] == order[j];
      PassesOver(rt, fields, order[1..], k - 1);
    }
  }

  /** Running `defaults` again changes nothing. */
  lemma DefaultsTwice(rt: Runtime, fields: Row, order: seq<Column>)
    ensures var after := FillDefaults(rt, fields, order).0; FillDefaults(rt, after, order).0 == after
  {
    var k := DefaultsMeaning(rt, fields, order);
    PassesOver(rt, FillDefaults(rt, fields, order).0, order, k);
  }

  // ---- Field by field ----

  /** What was set stays; what was added is the default of its field. */
  ghost predicate OnlyDefaultsAdded(rt: Runtime, before: Row, after: Row) {
    && (forall c | c in before :: c in after && after[c] == before[c])
    && (forall c | c in after && c !in before ::
          || (c == CreatedAt && rt.createdAt.Some? && after[c] == TimeV(rt.createdAt.value))
          || (c == UpdatedAt && rt.updatedAt.Some? && after[c] == TimeV(rt.updatedAt.value))
          || (c == Credentials && rt.credentials.Some? && after[c] == JsonV(rt.credentials.value))
          || (c == Extra && rt.extra.Some? && after[c] == JsonV(rt.extra.value))
          || (c == Concurrency && after[c] == IntV(rt.concurrency))
          || (c == Priority && after[c] == IntV(rt.priority))
          || (c == RateMultiplier && after[c] == FloatV(rt.rateMultiplier))
          || (c == Status && after[c] == TextV(rt.status))
          || (c == AutoPauseOnExpired && after[c] == BoolV(rt.autoPauseOnExpired))
          || (c == Schedulable && after[c] == BoolV(rt.schedulable))
          || (c == QuotaDimension && after[c] == TextV("global")))
  }

  predicate HasAllDefaulted(fields: Row) {
    && CreatedAt in fields && UpdatedAt in fields && Credentials in fields && Extra in fields
    && Concurrency in fields && Priority in fields && RateMultiplier in fields && Status in fields
    && AutoPauseOnExpired in fields && Schedulable in fields && QuotaDimension in fields
  }

  /** The error of `defaults`: the first of the four default functions that is needed and nil. */
  function DefaultsError(rt: Runtime, fields: Row): Option<FieldError> {
    if CreatedAt !in fields && rt.createdAt.None? then Some(UninitializedDefault(CreatedAt))
    else if UpdatedAt !in fields && rt.updatedAt.None? then Some(UninitializedDefault(UpdatedAt))
    else if Credentials !in fields && rt.credentials.None? then Some(UninitializedDefault(Credentials))
    else if Extra !in fields && rt.extra.None? then Some(UninitializedDefault(Extra))
    else None
  }

  lemma AddedDefault(rt: Runtime, before: Row, after: Row)
    requires forall c | c in before :: c in after && after[c] == before[c]
    requires forall c | c in after && c !in before :: c in DEFAULT_ORDER && DefaultFor(rt, c) == Some(after[c])
    ensures OnlyDefaultsAdded(rt, before, after)
  {
  }

  lemma AllDefaulted(fields: Row)
    requires forall j | 0 <= j < |DEFAULT_ORDER| :: DEFAULT_ORDER[j] in fields
    ensures HasAllDefaulted(fields)
  {
    assert DEFAULT_ORDER[0] == CreatedAt && DEFAULT_ORDER[1] == UpdatedAt && DEFAULT_ORDER[2] == Credentials;
    assert DEFAULT_ORDER[3] == Extra && DEFAULT_ORDER[4] == Concurrency && DEFAULT_ORDER[5] == Priority;
    assert DEFAULT_ORDER[6] == RateMultiplier && DEFAULT_ORDER[7] == Status;
    assert DEFAULT_ORDER[8] == AutoPauseOnExpired && DEFAULT_ORDER[9] == Schedulable;
    assert DEFAULT_ORDER[10] == QuotaDimension;
  }

  lemma StopIsFirstNil(rt: Runtime, fields: Row, k: nat)
    requires StopsAt(rt, fields, DEFAULT_ORDER, k)
    ensures DefaultsError(rt, fields) == Some(UninitializedDefault(DEFAULT_ORDER[k]))
  {
    NilComesEarly(rt, k);
    assert DEFAULT_ORDER[0] == CreatedAt && DEFAULT_ORDER[1] == UpdatedAt;
    assert DEFAULT_ORDER[2] == Credentials && DEFAULT_ORDER[3] == Extra;
  }

  lemma NilComesEarly(rt: Runtime, k: nat)
    requires k < |DEFAULT_ORDER| && DefaultFor(rt, DEFAULT_ORDER[k]).None?
    ensures k < 4
  {
  }

  lemma AddedHasDefault(rt: Runtime, before: Row, after: Row, c: Column)
    requires OnlyDefaultsAdded(rt, before, after) && c in after && c !in before
    ensures c == CreatedAt ==> rt.createdAt.Some?
    ensures c == UpdatedAt ==> rt.updatedAt.Some?
    ensures c == Credentials ==> rt.credentials.Some?
    ensures c == Extra ==> rt.extra.Some?
  {
  }

  lemma FilledWithoutError(rt: Runtime, before: Row, after: Row)
    requires OnlyDefaultsAdded(rt, before, after) && HasAllDefaulted(after)
    ensures DefaultsError(rt, before) == None
  {
    if CreatedAt !in before {
      AddedHasDefault(rt, before, after, CreatedAt);
    }
    if UpdatedAt !in before {
      AddedHasDefault(rt, before, after, UpdatedAt);
    }
    if Credentials !in before {
      AddedHasDefault(rt, before, after, Credentials);
    }
    if Extra !in before {
      AddedHasDefault(rt, before, after, Extra);
    }
  }

  /** `defaults` gives every unset field of the eleven its own default and changes nothing else; it stops at the first
      of the four default functions that is needed and nil. */
  lemma DefaultsFieldByField(rt: Runtime, fields: Row)
    ensures var (after, stop) := FillDefaults(rt, fields, DEFAULT_ORDER);
            && OnlyDefaultsAdded(rt, fields, after)
            && (stop.None? ==> HasAllDefaulted(after) && DefaultsError(rt, fields) == None)
            && (stop.Some? ==> DefaultsError(rt, fields) == Some(UninitializedDefault(stop.value)))
  {
    var (after, stop) := FillDefaults(rt, fields, DEFAULT_ORDER);
    var k := DefaultsMeaning(rt, fields, DEFAULT_ORDER);
    AddedDefault(rt, fields, after);
    if stop.None? {
      AllDefaulted(after);
      FilledWithoutError(rt, fields, after);
    } else {
      StopIsFirstNil(rt, fields, k);
    }
  }

  lemma NilDefaults(rt: Runtime, c: Column)
    requires c in DEFAULT_ORDER && DefaultFor(rt, c).None?
    ensures c == CreatedAt || c == UpdatedAt || c == Credentials || c == Extra
  {
  }

  lemma StopIsChecked(rt: Runtime, c: Column)
    requires c in DEFAULT_ORDER && DefaultFor(rt, c).None?
    ensures c in CHECK_ORDER && !MayBeMissing(c)
  {
    NilDefaults(rt, c);
    assert CHECK_ORDER[0] == CreatedAt && CHECK_ORDER[1] == UpdatedAt;
    assert CHECK_ORDER[5] == Credentials && CHECK_ORDER[6] == Extra;
  }

  /** A text that is set must be accepted by the field's validator. */
  predicate Accepts(rt: Runtime, fields: Row, c: Column) {
    c in fields && fields[c].TextV? ==> rt.accepts(c, fields[c].s)
  }

  predicate IsQuotaDimension(v: Value) {
    v.TextV? ==> v.s == "global" || v.s == "spark"
  }

  predicate IsRequired(c: Column) {
    || c == CreatedAt || c == UpdatedAt || c == Name || c == Platform || c == Type || c == Credentials || c == Extra
    || c == Concurrency || c == Priority || c == RateMultiplier || c == Status || c == AutoPauseOnExpired
    || c == Schedulable || c == QuotaDimension
  }

  /** The fourteen required fields are set. */
  predicate HasRequired(fields: Row) {
    && CreatedAt in fields && UpdatedAt in fields && Name in fields && Platform in fields && Type in fields
    && Credentials in fields && Extra in fields && Concurrency in fields && Priority in fields
    && RateMultiplier in fields && Status in fields && AutoPauseOnExpired in fields && Schedulable in fields
    && QuotaDimension in fields
  }

  /** They are set, and what is set is valid. */
  predicate IsComplete(rt: Runtime, fields: Row) {
    && HasRequired(fields)
    && Accepts(rt, fields, Name) && Accepts(rt, fields, Platform) && Accepts(rt, fields, Type)
    && Accepts(rt, fields, Status) && Accepts(rt, fields, SessionWindowStatus)
    && IsQuotaDimension(fields[QuotaDimension])
  }

  /** The error of `check`, block by block. */
  function CheckError(rt: Runtime, fields: Row): Option<FieldError> {
    if CreatedAt !in fields then Some(MissingField(CreatedAt))
    else if UpdatedAt !in fields then Some(MissingField(UpdatedAt))
    else if Name !in fields then Some(MissingField(Name))
    else if !Accepts(rt, fields, Name) then Some(InvalidValue(Name))
    else if Platform !in fields then Some(MissingField(Platform))
    else if !Accepts(rt, fields, Platform) then Some(InvalidValue(Platform))
    else if Type !in fields then Some(MissingField(Type))
    else if !Accepts(rt, fields, Type) then Some(InvalidValue(Type))
    else if Credentials !in fields then Some(MissingField(Credentials))
    else if Extra !in fields then Some(MissingField(Extra))
    else if Concurrency !in fields then Some(MissingField(Concurrency))
    else if Priority !in fields then Some(MissingField(Priority))
    else if RateMultiplier !in fields then Some(MissingField(RateMultiplier))
    else if Status !in fields then Some(MissingField(Status))
    else if !Accepts(rt, fields, Status) then Some(InvalidValue(Status))
    else if AutoPauseOnExpired !in fields then Some(MissingField(AutoPauseOnExpired))
    else if Schedulable !in fields then Some(MissingField(Schedulable))
    else if !Accepts(rt, fields, SessionWindowStatus) then Some(InvalidValue(SessionWindowStatus))
    else if QuotaDimension !in fields then Some(MissingField(QuotaDimension))
    else if !IsQuotaDimension(fields[QuotaDimension]) then Some(InvalidValue(QuotaDimension))
    else None
  }

  lemma CheckOrderAt()
    ensures |CHECK_ORDER| == 15
    ensures CHECK_ORDER[0] == CreatedAt && CHECK_ORDER[1] == UpdatedAt && CHECK_ORDER[2] == Name
    ensures CHECK_ORDER[3] == Platform && CHECK_ORDER[4] == Type && CHECK_ORDER[5] == Credentials
    ensures CHECK_ORDER[6] == Extra && CHECK_ORDER[7] == Concurrency && CHECK_ORDER[8] == Priority
    ensures CHECK_ORDER[9] == RateMultiplier && CHECK_ORDER[10] == Status && CHECK_ORDER[11] == AutoPauseOnExpired
    ensures CHECK_ORDER[12] == Schedulable && CHECK_ORDER[13] == SessionWindowStatus
    ensures CHECK_ORDER[14] == QuotaDimension
  {
  }

  /** Field `k` is the first in the order of `check` that does not pass. */
  predicate FirstBad(rt: Runtime, fields: Row, k: nat) {
    && k < |CHECK_ORDER| && !FieldOk(rt, fields, CHECK_ORDER[k])
    && forall j | 0 <= j < k :: FieldOk(rt, fields, CHECK_ORDER[j])
  }

  lemma FirstBadIsError(rt: Runtime, fields: Row, k: nat)
    requires FirstBad(rt, fields, k)
    ensures CheckError(rt, fields) ==
            Some(if CHECK_ORDER[k] in fields then InvalidValue(CHECK_ORDER[k]) else MissingField(CHECK_ORDER[k]))
  {
    CheckOrderAt();
  }

  lemma AreChecked()
    ensures CreatedAt in CHECK_ORDER && UpdatedAt in CHECK_ORDER && Name in CHECK_ORDER && Platform in CHECK_ORDER
    ensures Type in CHECK_ORDER && Credentials in CHECK_ORDER && Extra in CHECK_ORDER && Concurrency in CHECK_ORDER
    ensures Priority in CHECK_ORDER && RateMultiplier in CHECK_ORDER && Status in CHECK_ORDER
    ensures AutoPauseOnExpired in CHECK_ORDER && Schedulable in CHECK_ORDER
    ensures SessionWindowStatus in CHECK_ORDER && QuotaDimension in CHECK_ORDER
  {
    CheckOrderAt();
    assert forall k | 0 <= k < |CHECK_ORDER| :: CHECK_ORDER[k] in CHECK_ORDER;
  }

  lemma OneChecked(rt: Runtime, fields: Row, c: Column)
    requires Checked(rt, fields) && c in CHECK_ORDER
    ensures c in fields || c == SessionWindowStatus
    ensures c in fields ==> Validates(rt, c, fields[c])
  {
    assert FieldOk(rt, fields, c);
  }

  lemma RequiredAreThere(fields: Row)
    requires forall c | c in CHECK_ORDER :: c in fields || c == SessionWindowStatus
    ensures HasRequired(fields)
  {
    AreChecked();
  }

  lemma CheckedIsComplete(rt: Runtime, fields: Row)
    requires Checked(rt, fields)
    ensures IsComplete(rt, fields)
  {
    forall c | c in CHECK_ORDER
      ensures c in fields || c == SessionWindowStatus
    {
      OneChecked(rt, fields, c);
    }
    RequiredAreThere(fields);
    SetAreValid(rt, fields);
  }

  lemma SetAreValid(rt: Runtime, fields: Row)
    requires Checked(rt, fields)
    ensures Accepts(rt, fields, Name) && Accepts(rt, fields, Platform) && Accepts(rt, fields, Type)
    ensures Accepts(rt, fields, Status) && Accepts(rt, fields, SessionWindowStatus)
    ensures QuotaDimension in fields ==> IsQuotaDimension(fields[QuotaDimension])
  {
    AreChecked();
    OneChecked(rt, fields, Name);
    OneChecked(rt, fields, Platform);
    OneChecked(rt, fields, Type);
    OneChecked(rt, fields, Status);
    OneChecked(rt, fields, SessionWindowStatus);
    OneChecked(rt, fields, QuotaDimension);
  }

  lemma CompleteIsChecked(rt: Runtime, fields: Row)
    requires IsComplete(rt, fields)
    ensures Checked(rt, fields)
  {
    forall c | c in CHECK_ORDER
      ensures FieldOk(rt, fields, c)
    {
    }
  }

  lemma NoErrorIffComplete(rt: Runtime, fields: Row)
    ensures CheckError(rt, fields) == None <==> IsComplete(rt, fields)
  {
  }

  /** `check` passes if and only if the fourteen required fields are set and what is set is valid. */
  lemma CheckedFieldByField(rt: Runtime, fields: Row)
    ensures Checked(rt, fields) <==> IsComplete(rt, fields)
    ensures CheckError(rt, fields) == None <==> IsComplete(rt, fields)
  {
    NoErrorIffComplete(rt, fields);
    if Checked(rt, fields) {
      CheckedIsComplete(rt, fields);
    }
    if IsComplete(rt, fields) {
      CompleteIsChecked(rt, fields);
    }
  }

  /** If `defaults` stops at an uninitialised default, `check` on the same fields fails. */
  lemma StoppedDefaultsFailCheck(rt: Runtime, fields: Row)
    requires FillDefaults(rt, fields, DEFAULT_ORDER).1.Some?
    ensures !Checked(rt, FillDefaults(rt, fields, DEFAULT_ORDER).0)
  {
    var (after, stop) := FillDefaults(rt, fields, DEFAULT_ORDER);
    var k := DefaultsMeaning(rt, fields, DEFAULT_ORDER);
    StopIsChecked(rt, stop.value);
    assert !FieldOk(rt, after, stop.value);
  }

  // ---- The create spec ----

  /** `Fields` and the many-to-one edges of a `sqlgraph.CreateSpec`, and the id the database assigned. */
  datatype CreateSpec = CreateSpec(fields: seq<(Column, Value)>, edges: seq<(Column, Value)>, id: Option<int>)

  /** The columns written as fields, in the order of `createSpec`; the foreign keys are written as edges. */
  function FieldOrder(): seq<Column> {
    [CreatedAt, UpdatedAt, DeletedAt, Name, Notes, Platform, Type, Credentials, Extra, ProxyFallbackOriginId,
     Concurrency, LoadFactor, Priority, RateMultiplier, Status, ErrorMessage] +
    [LastUsedAt, ExpiresAt, AutoPauseOnExpired, Schedulable, RateLimitedAt, RateLimitResetAt, OverloadUntil,
     TempUnschedulableUntil, TempUnschedulableReason, SessionWindowStart, SessionWindowEnd, SessionWindowStatus,
     QuotaDimension]
  }

  const EDGE_ORDER: seq<Column> := [ProxyId, ParentAccountId]

  /** The set fields among `order`. */
  function SetFields(fields: Row, order: seq<Column>): seq<(Column, Value)> {
    if order == [] then []
    else
      var n := |order| - 1;
      SetFields(fields, order[..n]) + if order[n] in fields then [(order[n], fields[order[n]])] else []
  }

  function SpecOf(fields: Row): CreateSpec {
    CreateSpec(SetFields(fields, FieldOrder()), SetFields(fields, EDGE_ORDER), None)
  }

  /** The fields that `createSpec` puts on the node. */
  function NodeFields(fields: Row): Row {
    Only(fields, FieldOrder()) + Only(fields, EDGE_ORDER)
  }

  function Only(fields: Row, order: seq<Column>): Row {
    map c | c in fields && c in order :: fields[c]
  }

  /** The blocks of `createSpec` for these columns. */
  method WriteFields(fields: Row, order: seq<Column>) returns (node: Row, written: seq<(Column, Value)>)
    ensures written == SetFields(fields, order)
    ensures node == Only(fields, order)
  {
    node, written := map[], [];
    for i := 0 to |order|
      invariant written == SetFields(fields, order[..i])
      invariant node == Only(fields, order[..i])
    {
      assert order[..i + 1][..i] == order[..i] && order[..i + 1] == order[..i] + [order[i]];
      if order[i] in fields {
        written := written + [(order[i], fields[order[i]])];
        node := node[order[i] := fields[order[i]]];
      }
    }
    assert order[..|order|] == order;
  }

  /** `createSpec`: every set field goes into the spec and onto the node. */
  method BuildSpec(fields: Row) returns (node: Row, spec: CreateSpec)
    ensures spec == SpecOf(fields) && node == NodeFields(fields)
  {
    var scalars, written := WriteFields(fields, FieldOrder());
    var keys, edges := WriteFields(fields, EDGE_ORDER);
    node, spec := scalars + keys, CreateSpec(written, edges, None);
  }

  lemma {:induction false} SetFieldsMembers(fields: Row, order: seq<Column>, c: Column, v: Value)
    ensures (c, v) in SetFields(fields, order) <==> c in order && c in fields && fields[c] == v
  {
    if order != [] {
      var n := |order| - 1;
      assert order == order[..n] + [order[n]];
      SetFieldsMembers(fields, order[..n], c, v);
    }
  }

  /** In the order of `order`: `place` tells where a column stands. */
  lemma {:induction false} SetFieldsInOrder(fields: Row, order: seq<Column>, place: Column -> int)
    requires forall i, j | 0 <= i < j < |order| :: place(order[i]) < place(order[j])
    ensures forall i, j | 0 <= i < j < |SetFields(fields, order)| ::
              place(SetFields(fields, order)[i].0) < place(SetFields(fields, order)[j].0)
  {
    if order != [] {
      var front, last := order[..|order| - 1], order[|order| - 1];
      SetFieldsInOrder(fields, front, place);
      forall i | 0 <= i < |SetFields(fields, front)|
        ensures place(SetFields(fields, front)[i].0) < place(last)
      {
        var e := SetFields(fields, front)[i];
        SetFieldsMembers(fields, front, e.0, e.1);
        var k :| 0 <= k < |front| && front[k] == e.0;
        assert order[k] == e.0;
      }
    }
  }

  /** Where a column stands among those of an account. */
  function PlaceOf(c: Column): int {
    if AccountHas(c) then AccountIndex(c) else -1
  }

  lemma FieldPlaces(k: nat)
    requires k < 29
    ensures PlaceOf(FieldOrder()[k]) == if k < 9 then k + 1 else if k < 28 then k + 2 else 31
  {
  }

  lemma FieldIsNoKey(k: nat)
    requires k < 29
    ensures var c := FieldOrder()[k]; AccountHas(c) && c != Id && c != ProxyId && c != ParentAccountId
  {
    FieldPlaces(k);
    assert PlaceOf(Id) == 0 && PlaceOf(ProxyId) == 10 && PlaceOf(ParentAccountId) == 30;
  }

  lemma FieldOrderMembers(c: Column)
    ensures c in FieldOrder() <==> AccountHas(c) && c != Id && c != ProxyId && c != ParentAccountId
  {
    if c in FieldOrder() {
      var k :| 0 <= k < 29 && FieldOrder()[k] == c;
      FieldIsNoKey(k);
    } else if AccountHas(c) && c != Id {
      WritesEverything(c);
      EdgeOrderMembers(c);
    }
  }

  /** `createSpec` writes the set foreign keys to the proxy and to the parent as edges, and all other set fields as
      fields. */
  lemma SpecMeaning(fields: Row, c: Column, v: Value)
    ensures (c, v) in SpecOf(fields).edges <==>
            c in fields && fields[c] == v && (c == ProxyId || c == ParentAccountId)
    ensures (c, v) in SpecOf(fields).fields <==>
            c in fields && fields[c] == v && c in Columns(Account) && c != Id && c != ProxyId && c != ParentAccountId
    ensures SpecOf(fields).id == None
  {
    SetFieldsMembers(fields, FieldOrder(), c, v);
    SetFieldsMembers(fields, EDGE_ORDER, c, v);
    FieldOrderMembers(c);
    EdgeOrderMembers(c);
    ColumnsAreValid(Account, c);
  }

  lemma EdgeOrderMembers(c: Column)
    ensures c in EDGE_ORDER <==> c == ProxyId || c == ParentAccountId
  {
    assert EDGE_ORDER == [ProxyId, ParentAccountId];
  }

  /** Fields and edges are written in the order in which the columns are declared. */
  lemma SpecInOrder(fields: Row)
    ensures forall i, j | 0 <= i < j < |SpecOf(fields).fields| ::
              PlaceOf(SpecOf(fields).fields[i].0) < PlaceOf(SpecOf(fields).fields[j].0)
    ensures forall i, j | 0 <= i < j < |SpecOf(fields).edges| ::
              PlaceOf(SpecOf(fields).edges[i].0) < PlaceOf(SpecOf(fields).edges[j].0)
  {
    forall i, j | 0 <= i < j < |FieldOrder()|
      ensures PlaceOf(FieldOrder()[i]) < PlaceOf(FieldOrder()[j])
    {
      FieldPlaces(i);
      FieldPlaces(j);
    }
    SetFieldsInOrder(fields, FieldOrder(), PlaceOf);
    SetFieldsInOrder(fields, EDGE_ORDER, PlaceOf);
  }

  // ---- Writing and reading back ----

  /** What setters store: a value of the column's type, for a column other than the id. */
  ghost predicate TypedFields(fields: Row) {
    forall c | c in fields :: AccountHas(c) && !c.Id? && HasKind(fields[c], KindOf(c)) && !fields[c].Null?
  }

  /** A column-value list as a row. */
  function AsRow(pairs: seq<(Column, Value)>): Row {
    if pairs == [] then map[]
    else
      var n := |pairs| - 1;
      AsRow(pairs[..n])[pairs[n].0 := pairs[n].1]
  }

  /** The row a successful insert leaves in the table: unwritten columns are NULL. */
  ghost function InsertedRow(spec: CreateSpec, id: int): Row {
    var written := AsRow(spec.fields) + AsRow(spec.edges);
    map c | c in Columns(Account) ::
      if c.Id? then IntV(id) else if c in written then written[c] else Null
  }

  lemma {:induction false} SetFieldsAsRow(fields: Row, order: seq<Column>)
    ensures AsRow(SetFields(fields, order)) == Only(fields, order)
  {
    if order != [] {
      var n := |order| - 1;
      SetFieldsAsRow(fields, order[..n]);
      assert order == order[..n] + [order[n]];
      var front := SetFields(fields, order[..n]);
      if order[n] in fields {
        assert (front + [(order[n], fields[order[n]])])[..|front|] == front;
      } else {
        assert front + [] == front;
      }
    }
  }

  /** Every column but the id is written, as a field or as an edge. */
  lemma WritesEverything(c: Column)
    requires AccountHas(c) && !c.Id?
    ensures c in FieldOrder() || c in EDGE_ORDER
  {
    var i := AccountIndex(c);
    var order := FieldOrder();
    if i < 10 {
      assert order[i - 1] == c;
    } else if i == 10 {
      assert EDGE_ORDER[0] == c;
    } else if i < 18 {
      assert order[i - 2] == c;
    } else if i < 30 {
      assert order[i - 2] == c;
    } else if i == 30 {
      assert EDGE_ORDER[1] == c;
    } else {
      assert order[28] == c;
    }
  }

  /** The inserted row holds the id, the set fields, and NULL elsewhere. */
  lemma InsertedRowMeaning(fields: Row, id: int, c: Column)
    requires TypedFields(fields)
    ensures var row := InsertedRow(SpecOf(fields), id);
            && (c in row <==> AccountHas(c))
            && (c in row ==> row[c] == if c.Id? then IntV(id) else if c in fields then fields[c] else Null)
  {
    SetFieldsAsRow(fields, FieldOrder());
    SetFieldsAsRow(fields, EDGE_ORDER);
    ColumnsAreValid(Account, c);
    if c in fields {
      WritesEverything(c);
    }
  }

  lemma InsertedRowIsTyped(fields: Row, id: int)
    requires TypedFields(fields)
    ensures TypedRow(InsertedRow(SpecOf(fields), id))
  {
    forall c | c in InsertedRow(SpecOf(fields), id)
      ensures HasKind(InsertedRow(SpecOf(fields), id)[c], KindOf(c)) &&
              (c.Id? ==> !InsertedRow(SpecOf(fields), id)[c].Null?)
    {
      InsertedRowMeaning(fields, id, c);
    }
  }

  /** Reading a created row back, in any column order, yields the fields of the node that `createSpec` returned
      (which are all that were set), and the id. */
  lemma CreatedRowReadsBack(fields: Row, id: int, columns: seq<Column>)
    requires TypedFields(fields)
    requires forall c :: c in columns <==> AccountHas(c)
    ensures AssignCells(map[], columns, ScanRow(columns, InsertedRow(SpecOf(fields), id))) == fields[Id := IntV(id)]
  {
    InsertedRowIsTyped(fields, id);
    forall c | c in columns
      ensures c in InsertedRow(SpecOf(fields), id)
    {
      InsertedRowMeaning(fields, id, c);
    }
    DecodesRow(columns, InsertedRow(SpecOf(fields), id));
    NonNullOfInserted(fields, id, columns);
  }

  lemma NonNullOfInserted(fields: Row, id: int, columns: seq<Column>)
    requires TypedFields(fields)
    requires forall c :: c in columns <==> AccountHas(c)
    ensures NonNull(columns, InsertedRow(SpecOf(fields), id)) == fields[Id := IntV(id)]
  {
    var read, want := NonNull(columns, InsertedRow(SpecOf(fields), id)), fields[Id := IntV(id)];
    forall c
      ensures c in read <==> c in want
      ensures c in read ==> read[c] == want[c]
    {
      InsertedRowMeaning(fields, id, c);
    }
  }

  /** No set field is lost on the way to the node. */
  lemma NodeHasAllFields(fields: Row)
    requires TypedFields(fields)
    ensures NodeFields(fields) == fields
  {
    forall c | c in fields
      ensures c in FieldOrder() || c in EDGE_ORDER
    {
      WritesEverything(c);
    }
  }
}
