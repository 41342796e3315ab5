/** The mutator chain of a bulk create, as a function from states to states. */
module BulkChain {
  import opened Wrappers
  import opened Schema
  import opened AccountFields

  /** A hook works on the mutation it was given, and either returns an error without calling its successor
      (`enter` yields None), or calls it once, with the fields as `enter` left them, and passes its error on;
      after a success it may still return an error of its own (`leave` is false). */
  datatype Hook = Hook(enter: Row -> Option<Row>, leave: Row -> bool)

  datatype Mutation = Mutation(fields: Row, id: Option<int>, done: bool)

  datatype Created = Created(fields: Row, id: int)

  datatype Event = Enter(i: nat, h: nat) | Exit(i: nat, h: nat) | Check(i: nat) | Insert | Done(i: nat)

  /** `shares` tells which builders have one mutation object in common; a builder shares with itself. `insert` is the
      outcome of `sqlgraph.BatchCreate`: None for an error, otherwise the id values it stored in
      the specs, if any. */
  datatype Config = Config(
    runtime: Runtime,
    hooks: seq<seq<Hook>>,
    shares: (nat, nat) -> bool,
    insert: seq<Option<CreateSpec>> -> Option<seq<Option<int>>>)

  /** `batches` are the arguments of all calls of `BatchCreate`, `trace` is everything that happened. */
  datatype State = State(
    mutations: seq<Mutation>,
    specs: seq<Option<CreateSpec>>,
    nodes: seq<Option<Created>>,
    batches: seq<seq<Option<CreateSpec>>>,
    trace: seq<Event>)

  predicate Fits(c: Config, s: State) {
    |s.mutations| == |s.specs| == |s.nodes| == |c.hooks| && SharesWithSelf(c)
  }

  predicate SharesWithSelf(c: Config) {
    forall i | 0 <= i < |c.hooks| :: c.shares(i, i)
  }

  /** Every builder has a mutation of its own. */
  ghost predicate Apart(c: Config) {
    forall i, k | 0 <= i < |c.hooks| && 0 <= k < |c.hooks| :: c.shares(i, k) <==> i == k
  }

  function Log(s: State, e: Event): State {
    s.(trace := s.trace + [e])
  }

  function SetMutation(s: State, i: nat, m: Mutation): State
    requires i < |s.mutations|
  {
    s.(mutations := s.mutations[i := m])
  }

  /** Sets the mutation of builder `i`, which may be that of other builders, too. */
  function SetShared(c: Config, s: State, i: nat, m: Mutation): State {
    s.(mutations := seq(|s.mutations|, k requires 0 <= k < |s.mutations| =>
                          if c.shares(i, k) then m else s.mutations[k]))
  }

  lemma SharedIsOwn(c: Config, s: State, i: nat, m: Mutation)
    requires Apart(c) && i < |c.hooks| == |s.mutations|
    ensures SetShared(c, s, i, m) == SetMutation(s, i, m)
  {
    assert SetShared(c, s, i, m).mutations == s.mutations[i := m];
  }

  /** The spec and the node of builder `i`, built from its mutation. */
  function Build(s: State, i: nat): State
    requires i < |s.mutations| == |s.specs| == |s.nodes|
  {
    var fields := s.mutations[i].fields;
    s.(specs := s.specs[i := Some(SpecOf(fields))], nodes := s.nodes[i := Some(Created(NodeFields(fields), 0))])
  }

  function WithIds(specs: seq<Option<CreateSpec>>, ids: seq<Option<int>>): (r: seq<Option<CreateSpec>>)
    ensures |r| == |specs|
  {
    seq(|specs|, k requires 0 <= k < |specs| =>
      if specs[k].Some? && k < |ids| then Some(specs[k].value.(id := ids[k])) else specs[k])
  }

  /** The batch insert: it is called with all specs, and stores the ids on success. */
  function BatchCreate(c: Config, s: State): (r: (State, bool))
    ensures |r.0.specs| == |s.specs|
  {
    var called := Log(s.(batches := s.batches + [s.specs]), Insert);
    match c.insert(s.specs)
    case None => (called, false)
    case Some(ids) => (called.(specs := WithIds(s.specs, ids)), true)
  }

  function AssignedId(s: State, i: nat): int
    requires i < |s.specs| == |s.nodes| && s.specs[i].Some? && s.nodes[i].Some?
  {
    if s.specs[i].value.id.Some? then s.specs[i].value.id.value else s.nodes[i].value.id
  }

  /** What the base mutator of builder `i` does once its successors succeeded: the mutation gets a pointer to the
      node's id, which is the assigned one if there is any, and is marked done. */
  function FinishShared(c: Config, s: State, i: nat): State
    requires i < |s.mutations| == |s.specs| == |s.nodes|
    requires s.specs[i].Some? && s.nodes[i].Some?
  {
    var id := AssignedId(s, i);
    var stored := s.(nodes := s.nodes[i := Some(s.nodes[i].value.(id := id))]);
    Log(SetShared(c, stored, i, s.mutations[i].(id := Some(id), done := true)), Done(i))
  }

  /** The same for a builder that shares its mutation with no other. */
  function Finish(s: State, i: nat): State
    requires i < |s.mutations| == |s.specs| == |s.nodes|
    requires s.specs[i].Some? && s.nodes[i].Some?
  {
    var id := AssignedId(s, i);
    Log(s.(nodes := s.nodes[i := Some(s.nodes[i].value.(id := id))],
           mutations := s.mutations[i := s.mutations[i].(id := Some(id), done := true)]),
        Done(i))
  }

  lemma FinishIsOwn(c: Config, s: State, i: nat)
    requires Apart(c) && i < |c.hooks| == |s.mutations| == |s.specs| == |s.nodes|
    requires s.specs[i].Some? && s.nodes[i].Some?
    ensures FinishShared(c, s, i) == Finish(s, i)
  {
    var id := AssignedId(s, i);
    var stored := s.(nodes := s.nodes[i := Some(s.nodes[i].value.(id := id))]);
    SharedIsOwn(c, stored, i, s.mutations[i].(id := Some(id), done := true));
  }

  /** The mutator of builder `i` from its hook `h` on; with all hooks passed, the base mutator. */
  function Mutate(c: Config, i: nat, h: nat, s: State): (r: (State, bool))
    requires i < |c.hooks| && h <= |c.hooks[i]| && Fits(c, s)
    ensures Fits(c, r.0)
    ensures forall k | 0 <= k < |c.hooks| :: s.specs[k].Some? ==> r.0.specs[k].Some?
    ensures forall k | 0 <= k < |c.hooks| :: s.nodes[k].Some? ==> r.0.nodes[k].Some?
    decreases |c.hooks| - i, |c.hooks[i]| - h, 1
  {
    if h < |c.hooks[i]| then
      var entered := Log(s, Enter(i, h));
      match c.hooks[i][h].enter(s.mutations[i].fields)
      case None => (Log(entered, Exit(i, h)), false)
      case Some(fields) =>
        var (t, ok) := Mutate(c, i, h + 1, SetShared(c, entered, i, s.mutations[i].(fields := fields)));
        (Log(t, Exit(i, h)), ok && c.hooks[i][h].leave(t.mutations[i].fields))
    else
      var checked := Log(s, Check(i));
      if !Checked(c.runtime, s.mutations[i].fields) then (checked, false)
      else
        AfterBuild(c, i, Build(checked, i))
  }

  /** The base mutator of builder `i`, with the spec and the node in place. */
  function AfterBuild(c: Config, i: nat, s: State): (r: (State, bool))
    requires i < |c.hooks| && Fits(c, s) && s.specs[i].Some? && s.nodes[i].Some?
    ensures Fits(c, r.0)
    ensures forall k | 0 <= k < |c.hooks| :: s.specs[k].Some? ==> r.0.specs[k].Some?
    ensures forall k | 0 <= k < |c.hooks| :: s.nodes[k].Some? ==> r.0.nodes[k].Some?
    decreases |c.hooks| - i, 0, 0
  {
    var (t, ok) := if i < |c.hooks| - 1 then Mutate(c, i + 1, 0, s) else BatchCreate(c, s);
    if ok then (FinishShared(c, t, i), true) else (t, false)
  }

  // ---- Running the pre-hooks alone ----

  /** The fields that reach the base mutator if every hook from `h` on lets the mutation through. */
  function Admit(hooks: seq<Hook>, h: nat, fields: Row): Option<Row>
    requires h <= |hooks|
    decreases |hooks| - h
  {
    if h == |hooks| then Some(fields)
    else
      match hooks[h].enter(fields)
      case None => None
      case Some(edited) => Admit(hooks, h + 1, edited)
  }

  /** Builder `i` gets through its hooks from `h` on, and through its check. */
  predicate Passes(c: Config, i: nat, h: nat, s: State)
    requires i < |c.hooks| && h <= |c.hooks[i]| && Fits(c, s)
  {
    var admitted := Admit(c.hooks[i], h, s.mutations[i].fields);
    admitted.Some? && Checked(c.runtime, admitted.value)
  }

  /** Builder `i` from hook `h` on, and all later builders, get through. */
  predicate AllPass(c: Config, i: nat, h: nat, s: State)
    requires i < |c.hooks| && h <= |c.hooks[i]| && Fits(c, s)
  {
    Passes(c, i, h, s) && forall k | i < k < |c.hooks| :: Passes(c, k, 0, s)
  }

  /** The hooks of builder `i` from `h` on are content after the fact. */
  predicate Leaves(c: Config, i: nat, h: nat, t: State)
    requires i < |c.hooks| && Fits(c, t)
  {
    forall g | h <= g < |c.hooks[i]| :: c.hooks[i][g].leave(t.mutations[i].fields)
  }

  // ---- What one run does to the state ----

  /** The specs of the call: those of later builders are built from their own, checked mutations, those of earlier
      builders are the ones already there. */
  ghost predicate BatchOk(c: Config, i: nat, s: State, t: State, batch: seq<Option<CreateSpec>>)
    requires Fits(c, s) && Fits(c, t)
  {
    && |batch| == |c.hooks|
    && (forall k | 0 <= k < i && k < |c.hooks| :: batch[k] == s.specs[k])
    && (forall k | i <= k < |c.hooks| ::
          batch[k] == Some(SpecOf(t.mutations[k].fields)) && Checked(c.runtime, t.mutations[k].fields))
  }

  /** No insert, or exactly one. */
  ghost predicate InsertsAtMostOnce(c: Config, i: nat, s: State, t: State)
    requires Fits(c, s) && Fits(c, t)
  {
    t.batches == s.batches ||
    (|t.batches| == |s.batches| + 1 && t.batches[..|s.batches|] == s.batches &&
     BatchOk(c, i, s, t, t.batches[|s.batches|]))
  }

  /** The id a node gets from its spec: Go's zero value if the database returned none. */
  function IdIn(spec: CreateSpec): int {
    if spec.id.Some? then spec.id.value else 0
  }

  /** Exactly the mutations from `m` on were marked done; they and their nodes have the id of their spec, and the
      nodes show the fields of the mutations. */
  ghost predicate DoneFrom(c: Config, s: State, t: State, m: nat)
    requires Fits(c, s) && Fits(c, t)
  {
    && (forall k | 0 <= k < |c.hooks| && k < m ::
          t.mutations[k].done == s.mutations[k].done && t.mutations[k].id == s.mutations[k].id)
    && (forall k | m <= k < |c.hooks| ::
          t.mutations[k].done && t.specs[k].Some? && t.mutations[k].id == Some(IdIn(t.specs[k].value)) &&
          t.nodes[k] == Some(Created(NodeFields(t.mutations[k].fields), IdIn(t.specs[k].value))))
  }

  /** The builders in front of `i` are not touched, except for ids stored in their specs. */
  ghost predicate FrontKept(c: Config, i: nat, s: State, t: State)
    requires Fits(c, s) && Fits(c, t)
  {
    forall k | 0 <= k < i && k < |c.hooks| ::
      t.mutations[k] == s.mutations[k] && t.nodes[k] == s.nodes[k] && (t.specs[k].Some? <==> s.specs[k].Some?)
  }

  /** The insert ran, and did not fail. */
  ghost predicate Inserted(c: Config, s: State, t: State) {
    |t.batches| == |s.batches| + 1 && c.insert(t.batches[|s.batches|]).Some?
  }

  /** After an insert that did not fail, the specs are those of the call with the returned ids. */
  ghost predicate IdsStored(c: Config, s: State, t: State) {
    Inserted(c, s, t) ==>
      var batch := t.batches[|s.batches|];
      t.specs == WithIds(batch, c.insert(batch).value)
  }

  /** If everything got through, the mutations of builder `i` and the later ones have the fields that their hooks
      admitted. */
  ghost predicate FieldsAdmitted(c: Config, i: nat, h: nat, s: State, t: State)
    requires i < |c.hooks| && h <= |c.hooks[i]| && Fits(c, s) && Fits(c, t)
  {
    AllPass(c, i, h, s) ==>
      && t.mutations[i].fields == Admit(c.hooks[i], h, s.mutations[i].fields).value
      && forall k | i < k < |c.hooks| ::
           Passes(c, k, 0, s) && t.mutations[k].fields == Admit(c.hooks[k], 0, s.mutations[k].fields).value
  }

  /** The whole effect of a run of the chain from builder `i`, hook `h`; `m` is the first mutation marked done. */
  ghost predicate Effect(c: Config, i: nat, h: nat, s: State, t: State, ok: bool, m: nat)
    requires i < |c.hooks| && h <= |c.hooks[i]| && Fits(c, s) && Fits(c, t)
  {
    && i <= m <= |c.hooks|
    && FrontKept(c, i, s, t)
    && DoneFrom(c, s, t, m)
    && InsertsAtMostOnce(c, i, s, t)
    && (t.batches != s.batches <==> AllPass(c, i, h, s))
    && FieldsAdmitted(c, i, h, s, t)
    && IdsStored(c, s, t)
    && (m < |c.hooks| ==> Inserted(c, s, t))
    && (ok <==> Inserted(c, s, t) && (forall k | i < k < |c.hooks| :: Leaves(c, k, 0, t)) && Leaves(c, i, h, t))
    && (ok ==> m == i)
  }

  /** A hook that lets the mutation through adds its own verdict to that of its successor. */
  lemma EffectOfHook(c: Config, i: nat, h: nat, s: State, fields: Row, next: State, t: State, ok: bool, m: nat)
    requires i < |c.hooks| && h < |c.hooks[i]| && Fits(c, s)
    requires c.hooks[i][h].enter(s.mutations[i].fields) == Some(fields)
    requires next == SetMutation(Log(s, Enter(i, h)), i, s.mutations[i].(fields := fields))
    requires Fits(c, t) && Effect(c, i, h + 1, next, t, ok, m)
    ensures Effect(c, i, h, s, Log(t, Exit(i, h)), ok && c.hooks[i][h].leave(t.mutations[i].fields), m)
  {
    var u := Log(t, Exit(i, h));
    assert forall k | i < k < |c.hooks| :: Passes(c, k, 0, next) == Passes(c, k, 0, s);
    assert AllPass(c, i, h + 1, next) <==> AllPass(c, i, h, s);
    assert forall k, g | 0 <= k < |c.hooks| :: Leaves(c, k, g, u) == Leaves(c, k, g, t);
    assert Leaves(c, i, h, u) <==> c.hooks[i][h].leave(t.mutations[i].fields) && Leaves(c, i, h + 1, u);
  }

  /** A run that stops in front of the insert. */
  lemma EffectOfStop(c: Config, i: nat, h: nat, s: State, t: State)
    requires i < |c.hooks| && h <= |c.hooks[i]| && Fits(c, s) && !Passes(c, i, h, s)
    requires t == s.(trace := t.trace)
    ensures Effect(c, i, h, s, t, false, |c.hooks|)
  {
  }

  lemma PassesAfterBuild(c: Config, i: nat, s: State)
    requires i < |c.hooks| - 1 && Fits(c, s) && Checked(c.runtime, s.mutations[i].fields)
    ensures AllPass(c, i + 1, 0, Build(Log(s, Check(i)), i)) <==> AllPass(c, i, |c.hooks[i]|, s)
  {
    var built := Build(Log(s, Check(i)), i);
    assert forall k | i < k < |c.hooks| :: Passes(c, k, 0, built) == Passes(c, k, 0, s);
  }

  /** The base mutator of a builder that is not the last, after its successors failed. */
  lemma EffectOfBaseFailed(c: Config, i: nat, s: State, t: State, m: nat)
    requires i < |c.hooks| - 1 && Fits(c, s) && Checked(c.runtime, s.mutations[i].fields) && Fits(c, t)
    requires Effect(c, i + 1, 0, Build(Log(s, Check(i)), i), t, false, m)
    ensures Effect(c, i, |c.hooks[i]|, s, t, false, m)
  {
    PassesAfterBuild(c, i, s);
    assert t.mutations[i] == s.mutations[i];
    assert Leaves(c, i, |c.hooks[i]|, t);
    if t.batches != s.batches {
      BatchOfBase(c, i, s, t, t, t.batches[|s.batches|]);
    }
  }

  /** The base mutator of a builder that is not the last, after its successors succeeded. */
  lemma EffectOfBaseFinished(c: Config, i: nat, s: State, t: State, m: nat)
    requires i < |c.hooks| - 1 && Fits(c, s) && Checked(c.runtime, s.mutations[i].fields)
    requires Fits(c, t) && t.specs[i].Some? && t.nodes[i].Some?
    requires Effect(c, i + 1, 0, Build(Log(s, Check(i)), i), t, true, m)
    ensures Effect(c, i, |c.hooks[i]|, s, Finish(t, i), true, i)
  {
    var u := Finish(t, i);
    PassesAfterBuild(c, i, s);
    assert t.mutations[i] == s.mutations[i] && t.nodes[i] == Some(Created(NodeFields(s.mutations[i].fields), 0));
    BatchOfBase(c, i, s, t, u, t.batches[|s.batches|]);
    DoneAfterFinish(c, i, s, t);
    AdmittedAfterFinish(c, i, s, t);
    LeavesAfterFinish(c, i, t);
    assert FrontKept(c, i, s, u) && IdsStored(c, s, u);
  }

  lemma LeavesAfterFinish(c: Config, i: nat, t: State)
    requires i < |c.hooks| - 1 && Fits(c, t) && t.specs[i].Some? && t.nodes[i].Some?
    requires (forall k | i + 1 < k < |c.hooks| :: Leaves(c, k, 0, t)) && Leaves(c, i + 1, 0, t)
    ensures (forall k | i < k < |c.hooks| :: Leaves(c, k, 0, Finish(t, i))) && Leaves(c, i, |c.hooks[i]|, Finish(t, i))
  {
    assert forall k | i < k < |c.hooks| :: Leaves(c, k, 0, Finish(t, i)) == Leaves(c, k, 0, t);
  }

  lemma AdmittedAfterFinish(c: Config, i: nat, s: State, t: State)
    requires i < |c.hooks| - 1 && Fits(c, s) && Checked(c.runtime, s.mutations[i].fields)
    requires Fits(c, t) && t.specs[i].Some? && t.nodes[i].Some? && t.mutations[i] == s.mutations[i]
    requires FieldsAdmitted(c, i + 1, 0, Build(Log(s, Check(i)), i), t)
    ensures FieldsAdmitted(c, i, |c.hooks[i]|, s, Finish(t, i))
  {
    PassesAfterBuild(c, i, s);
  }

  lemma DoneAfterFinish(c: Config, i: nat, s: State, t: State)
    requires i < |c.hooks| - 1 && Fits(c, s) && Fits(c, t) && t.specs[i].Some?
    requires t.mutations[i] == s.mutations[i] && t.nodes[i] == Some(Created(NodeFields(s.mutations[i].fields), 0))
    requires DoneFrom(c, Build(Log(s, Check(i)), i), t, i + 1)
    ensures DoneFrom(c, s, Finish(t, i), i)
  {
  }

  lemma BatchOfBase(c: Config, i: nat, s: State, t: State, u: State, batch: seq<Option<CreateSpec>>)
    requires i < |c.hooks| - 1 && Fits(c, s) && Checked(c.runtime, s.mutations[i].fields) && Fits(c, t) && Fits(c, u)
    requires BatchOk(c, i + 1, Build(Log(s, Check(i)), i), t, batch)
    requires forall k | 0 <= k < |c.hooks| :: u.mutations[k].fields == t.mutations[k].fields
    requires t.mutations[i] == s.mutations[i]
    ensures BatchOk(c, i, s, u, batch)
  {
  }

  /** The base mutator of the last builder, which runs the insert. */
  lemma EffectOfInsert(c: Config, s: State)
    requires |c.hooks| > 0 && Fits(c, s)
    requires Checked(c.runtime, s.mutations[|c.hooks| - 1].fields)
    ensures var i := |c.hooks| - 1;
            var (t, ok) := BatchCreate(c, Build(Log(s, Check(i)), i));
            if ok then Effect(c, i, |c.hooks[i]|, s, Finish(t, i), true, i)
            else Effect(c, i, |c.hooks[i]|, s, t, false, |c.hooks|)
  {
    var i := |c.hooks| - 1;
    var built := Build(Log(s, Check(i)), i);
    var (t, ok) := BatchCreate(c, built);
    assert t.batches == s.batches + [built.specs];
    assert AllPass(c, i, |c.hooks[i]|, s);
  }

  /** The chain, run from hook `h` of builder `i`, has the effect described above. */
  ghost predicate Ran(c: Config, i: nat, h: nat, s: State, m: nat)
    requires i < |c.hooks| && h <= |c.hooks[i]| && Fits(c, s)
  {
    var (t, ok) := Mutate(c, i, h, s);
    Effect(c, i, h, s, t, ok, m)
  }

  lemma RanHook(c: Config, i: nat, h: nat, s: State, fields: Row, next: State, m: nat)
    requires i < |c.hooks| && h < |c.hooks[i]| && Fits(c, s)
    requires c.hooks[i][h].enter(s.mutations[i].fields) == Some(fields)
    requires next == SetMutation(Log(s, Enter(i, h)), i, s.mutations[i].(fields := fields))
    requires Apart(c) && Ran(c, i, h + 1, next, m)
    ensures Ran(c, i, h, s, m)
  {
    var (t, ok) := Mutate(c, i, h + 1, next);
    SharedIsOwn(c, Log(s, Enter(i, h)), i, s.mutations[i].(fields := fields));
    EffectOfHook(c, i, h, s, fields, next, t, ok, m);
    assert Mutate(c, i, h, s) == (Log(t, Exit(i, h)), ok && c.hooks[i][h].leave(t.mutations[i].fields));
  }

  lemma RanBase(c: Config, i: nat, s: State, m: nat) returns (n: nat)
    requires Apart(c) && i < |c.hooks| - 1 && Fits(c, s) && Checked(c.runtime, s.mutations[i].fields)
    requires Ran(c, i + 1, 0, Build(Log(s, Check(i)), i), m)
    ensures Ran(c, i, |c.hooks[i]|, s, n)
  {
    var (t, ok) := Mutate(c, i + 1, 0, Build(Log(s, Check(i)), i));
    if ok {
      n := i;
      EffectOfBaseFinished(c, i, s, t, m);
      FinishIsOwn(c, t, i);
      assert Mutate(c, i, |c.hooks[i]|, s) == (Finish(t, i), true);
    } else {
      n := m;
      EffectOfBaseFailed(c, i, s, t, m);
      assert Mutate(c, i, |c.hooks[i]|, s) == (t, false);
    }
  }

  lemma RanStop(c: Config, i: nat, h: nat, s: State)
    requires i < |c.hooks| && h <= |c.hooks[i]| && Fits(c, s)
    requires if h < |c.hooks[i]| then c.hooks[i][h].enter(s.mutations[i].fields).None?
             else !Checked(c.runtime, s.mutations[i].fields)
    ensures Ran(c, i, h, s, |c.hooks|)
  {
    EffectOfStop(c, i, h, s, Mutate(c, i, h, s).0);
  }

  lemma RanInsert(c: Config, s: State) returns (n: nat)
    requires Apart(c) && |c.hooks| > 0 && Fits(c, s) && Checked(c.runtime, s.mutations[|c.hooks| - 1].fields)
    ensures Ran(c, |c.hooks| - 1, |c.hooks[|c.hooks| - 1]|, s, n)
  {
    EffectOfInsert(c, s);
    MutateOfInsert(c, s);
    var i := |c.hooks| - 1;
    var (t, ok) := BatchCreate(c, Build(Log(s, Check(i)), i));
    n := if ok then i else |c.hooks|;
  }

  lemma MutateOfInsert(c: Config, s: State)
    requires Apart(c) && |c.hooks| > 0 && Fits(c, s) && Checked(c.runtime, s.mutations[|c.hooks| - 1].fields)
    ensures var i := |c.hooks| - 1;
            var (t, ok) := BatchCreate(c, Build(Log(s, Check(i)), i));
            Mutate(c, i, |c.hooks[i]|, s) == if ok then (Finish(t, i), true) else (t, false)
  {
    var i := |c.hooks| - 1;
    var (t, ok) := BatchCreate(c, Build(Log(s, Check(i)), i));
    if ok {
      FinishIsOwn(c, t, i);
    }
  }

  /** The effect of every run of the chain, whatever fails in it, if every builder has a mutation of its own. */
  lemma {:induction false} MutateEffect(c: Config, i: nat, h: nat, s: State) returns (m: nat)
    requires Apart(c) && i < |c.hooks| && h <= |c.hooks[i]| && Fits(c, s)
    ensures Ran(c, i, h, s, m)
    decreases |c.hooks| - i, |c.hooks[i]| - h
  {
    if h < |c.hooks[i]| && c.hooks[i][h].enter(s.mutations[i].fields).Some? {
      var fields := c.hooks[i][h].enter(s.mutations[i].fields).value;
      var next := SetMutation(Log(s, Enter(i, h)), i, s.mutations[i].(fields := fields));
      m := MutateEffect(c, i, h + 1, next);
      RanHook(c, i, h, s, fields, next, m);
    } else if h < |c.hooks[i]| || !Checked(c.runtime, s.mutations[i].fields) {
      m := |c.hooks|;
      RanStop(c, i, h, s);
    } else if i < |c.hooks| - 1 {
      m := MutateEffect(c, i + 1, 0, Build(Log(s, Check(i)), i));
      m := RanBase(c, i, s, m);
    } else {
      m := RanInsert(c, s);
    }
  }
}
