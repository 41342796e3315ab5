/** What a bulk create guarantees even if builders share a mutation, as when one builder is given twice. */
module BulkShared {
  import opened Wrappers
  import opened Schema
  import opened AccountFields
  import opened BulkChain
  import opened BulkTrace
  import opened BulkCreate

  /** All builders from `i` on get through their hooks and checks, each on the mutations as the ones before it left
      them. */
  predicate AllGetThrough(c: Config, i: nat, ms: seq<Mutation>)
    requires i <= |c.hooks| == |ms|
    decreases |c.hooks| - i
  {
    i == |c.hooks| ||
    var admitted := Admit(c.hooks[i], 0, ms[i].fields);
    && admitted.Some? && Checked(c.runtime, admitted.value)
    && AllGetThrough(c, i + 1, Edited(c, ms, i, admitted.value))
  }

  function Edited(c: Config, ms: seq<Mutation>, i: nat, fields: Row): (r: seq<Mutation>)
    requires i < |ms|
    ensures |r| == |ms|
  {
    seq(|ms|, k requires 0 <= k < |ms| => if c.shares(i, k) then ms[i].(fields := fields) else ms[k])
  }

  /** The same, in the middle of the hooks of builder `i`. */
  predicate RestGetsThrough(c: Config, i: nat, h: nat, ms: seq<Mutation>)
    requires i < |c.hooks| == |ms| && h <= |c.hooks[i]|
  {
    var admitted := Admit(c.hooks[i], h, ms[i].fields);
    && admitted.Some? && Checked(c.runtime, admitted.value)
    && AllGetThrough(c, i + 1, Edited(c, ms, i, admitted.value))
  }

  lemma EditedTwice(c: Config, ms: seq<Mutation>, i: nat, fields: Row, more: Row)
    requires i < |ms| && c.shares(i, i)
    ensures Edited(c, Edited(c, ms, i, fields), i, more) == Edited(c, ms, i, more)
  {
  }

  lemma NotEdited(c: Config, ms: seq<Mutation>, i: nat)
    requires i < |ms| && Coherent(c, ms)
    ensures Edited(c, ms, i, ms[i].fields) == ms
  {
  }

  /** The insert runs if and only if every builder gets through, one after the other. */
  lemma {:induction false} InsertsIffAllGetThrough(c: Config, i: nat, h: nat, s: State)
    requires i < |c.hooks| && h <= |c.hooks[i]| && Fits(c, s) && Coherent(c, s.mutations)
    ensures Mutate(c, i, h, s).0.batches != s.batches <==> RestGetsThrough(c, i, h, s.mutations)
    decreases |c.hooks| - i, |c.hooks[i]| - h
  {
    if h < |c.hooks[i]| {
      var entered := Log(s, Enter(i, h));
      if c.hooks[i][h].enter(s.mutations[i].fields).Some? {
        var fields := c.hooks[i][h].enter(s.mutations[i].fields).value;
        var next := SetShared(c, entered, i, s.mutations[i].(fields := fields));
        SharedStaysCoherent(c, entered, i, s.mutations[i].(fields := fields));
        InsertsIffAllGetThrough(c, i, h + 1, next);
        HookGetsThrough(c, i, h, s.mutations, fields, next.mutations);
      }
    } else {
      NotEdited(c, s.mutations, i);
      if Checked(c.runtime, s.mutations[i].fields) {
        BaseInserts(c, i, s);
      }
    }
  }

  lemma HookGetsThrough(c: Config, i: nat, h: nat, ms: seq<Mutation>, fields: Row, next: seq<Mutation>)
    requires i < |c.hooks| == |ms| && h < |c.hooks[i]| && c.hooks[i][h].enter(ms[i].fields) == Some(fields)
    requires c.shares(i, i) && next == Edited(c, ms, i, fields)
    ensures RestGetsThrough(c, i, h, ms) <==> RestGetsThrough(c, i, h + 1, next)
  {
    var admitted := Admit(c.hooks[i], h, ms[i].fields);
    if admitted.Some? {
      EditedTwice(c, ms, i, fields, admitted.value);
    }
  }

  lemma {:induction false} BaseInserts(c: Config, i: nat, s: State)
    requires i < |c.hooks| && Fits(c, s) && Coherent(c, s.mutations) && Checked(c.runtime, s.mutations[i].fields)
    ensures Mutate(c, i, |c.hooks[i]|, s).0.batches != s.batches <==> AllGetThrough(c, i + 1, s.mutations)
    decreases |c.hooks| - i, 0, 0
  {
    var built := Build(Log(s, Check(i)), i);
    if i < |c.hooks| - 1 {
      InsertsIffAllGetThrough(c, i + 1, 0, built);
    } else {
      assert BatchCreate(c, built).0.batches == s.batches + [built.specs];
    }
  }

  // ---- Done marks ----

  /** Builders that share a mutation see the same one. */
  ghost predicate Coherent(c: Config, ms: seq<Mutation>) {
    && (forall i, k | 0 <= i < |ms| && 0 <= k < |ms| && c.shares(i, k) :: c.shares(k, i) && ms[i] == ms[k])
    && (forall i, j, k | 0 <= i < |ms| && 0 <= j < |ms| && 0 <= k < |ms| && c.shares(i, j) && c.shares(j, k) ::
          c.shares(i, k))
  }

  lemma SharedStaysCoherent(c: Config, s: State, i: nat, m: Mutation)
    requires i < |s.mutations| && Coherent(c, s.mutations)
    ensures Coherent(c, SetShared(c, s, i, m).mutations)
  {
  }

  ghost predicate SameMarks(a: seq<Mutation>, b: seq<Mutation>) {
    |a| == |b| && forall k | 0 <= k < |a| :: a[k].done == b[k].done && a[k].id == b[k].id
  }

  lemma EditKeepsMarks(c: Config, s: State, i: nat, fields: Row)
    requires i < |s.mutations| && Coherent(c, s.mutations)
    ensures SameMarks(SetShared(c, s, i, s.mutations[i].(fields := fields)).mutations, s.mutations)
  {
  }

  /** The insert of this run was successful. */
  ghost predicate InsertDone(c: Config, s: State, t: State) {
    |t.batches| == |s.batches| + 1 && c.insert(t.batches[|s.batches|]).Some?
  }

  /** Marks change only if there was a successful insert, and on success builder `i` and all later ones are done. */
  ghost predicate MarksFollowInsert(c: Config, i: nat, s: State, t: State, ok: bool)
    requires Fits(c, s) && Fits(c, t)
  {
    && Coherent(c, t.mutations)
    && (InsertDone(c, s, t) || SameMarks(t.mutations, s.mutations))
    && (ok ==> InsertDone(c, s, t) && forall k | i <= k < |c.hooks| :: t.mutations[k].done)
  }

  lemma MarksAfterFinish(c: Config, i: nat, s: State, t: State)
    requires i < |c.hooks| && Fits(c, s) && Fits(c, t) && t.specs[i].Some? && t.nodes[i].Some?
    requires Coherent(c, t.mutations) && InsertDone(c, s, t)
    requires forall k | i < k < |c.hooks| :: t.mutations[k].done
    ensures MarksFollowInsert(c, i, s, FinishShared(c, t, i), true)
  {
    var id := AssignedId(t, i);
    var stored := t.(nodes := t.nodes[i := Some(t.nodes[i].value.(id := id))]);
    SharedStaysCoherent(c, stored, i, t.mutations[i].(id := Some(id), done := true));
  }

  lemma MarksAfterHook(c: Config, i: nat, h: nat, s: State, next: State, t: State, ok: bool, content: bool)
    requires i < |c.hooks| && Fits(c, s) && Fits(c, next) && Fits(c, t)
    requires next.batches == s.batches && SameMarks(next.mutations, s.mutations)
    requires MarksFollowInsert(c, i, next, t, ok)
    ensures MarksFollowInsert(c, i, s, Log(t, Exit(i, h)), ok && content)
  {
  }

  lemma {:induction false} ChainMarks(c: Config, i: nat, h: nat, s: State)
    requires i < |c.hooks| && h <= |c.hooks[i]| && Fits(c, s) && Coherent(c, s.mutations)
    ensures MarksFollowInsert(c, i, s, Mutate(c, i, h, s).0, Mutate(c, i, h, s).1)
    decreases |c.hooks| - i, |c.hooks[i]| - h
  {
    if h < |c.hooks[i]| {
      var entered := Log(s, Enter(i, h));
      if c.hooks[i][h].enter(s.mutations[i].fields).Some? {
        var fields := c.hooks[i][h].enter(s.mutations[i].fields).value;
        var next := SetShared(c, entered, i, s.mutations[i].(fields := fields));
        SharedStaysCoherent(c, entered, i, s.mutations[i].(fields := fields));
        EditKeepsMarks(c, entered, i, fields);
        ChainMarks(c, i, h + 1, next);
        var (t, ok) := Mutate(c, i, h + 1, next);
        MarksAfterHook(c, i, h, s, next, t, ok, c.hooks[i][h].leave(t.mutations[i].fields));
      }
    } else if Checked(c.runtime, s.mutations[i].fields) {
      BaseMarks(c, i, s);
    }
  }

  lemma {:induction false} BaseMarks(c: Config, i: nat, s: State)
    requires i < |c.hooks| && Fits(c, s) && Coherent(c, s.mutations) && Checked(c.runtime, s.mutations[i].fields)
    ensures var (t, ok) := Mutate(c, i, |c.hooks[i]|, s); MarksFollowInsert(c, i, s, t, ok)
    decreases |c.hooks| - i, 0, 0
  {
    var built := Build(Log(s, Check(i)), i);
    if i < |c.hooks| - 1 {
      ChainMarks(c, i + 1, 0, built);
      var (t, ok) := Mutate(c, i + 1, 0, built);
      if ok {
        MarksAfterFinish(c, i, s, t);
      }
    } else {
      var (t, ok) := BatchCreate(c, built);
      assert t.batches == s.batches + [built.specs];
      if ok {
        MarksAfterFinish(c, i, s, t);
      }
    }
  }

  // ---- What is inserted and returned when all get through ----

  /** The fields that each builder from `i` on has at its turn, once its hooks have let them through. */
  function Admitted(c: Config, i: nat, ms: seq<Mutation>): (r: seq<Row>)
    requires i <= |c.hooks| == |ms| && AllGetThrough(c, i, ms)
    ensures |r| == |c.hooks| - i
    decreases |c.hooks| - i
  {
    if i == |c.hooks| then [] else RestAdmitted(c, i, 0, ms)
  }

  function RestAdmitted(c: Config, i: nat, h: nat, ms: seq<Mutation>): (r: seq<Row>)
    requires i < |c.hooks| == |ms| && h <= |c.hooks[i]| && RestGetsThrough(c, i, h, ms)
    ensures |r| == |c.hooks| - i
    decreases |c.hooks| - i, 0
  {
    var fields := Admit(c.hooks[i], h, ms[i].fields).value;
    [fields] + Admitted(c, i + 1, Edited(c, ms, i, fields))
  }

  /** The mutations as the last builder leaves them. */
  function Final(c: Config, i: nat, ms: seq<Mutation>): (r: seq<Mutation>)
    requires i <= |c.hooks| == |ms| && AllGetThrough(c, i, ms)
    ensures |r| == |ms|
    decreases |c.hooks| - i
  {
    if i == |c.hooks| then ms else RestFinal(c, i, 0, ms)
  }

  function RestFinal(c: Config, i: nat, h: nat, ms: seq<Mutation>): (r: seq<Mutation>)
    requires i < |c.hooks| == |ms| && h <= |c.hooks[i]| && RestGetsThrough(c, i, h, ms)
    ensures |r| == |ms|
    decreases |c.hooks| - i, 0
  {
    Final(c, i + 1, Edited(c, ms, i, Admit(c.hooks[i], h, ms[i].fields).value))
  }

  function SpecsOf(rows: seq<Row>): (r: seq<Option<CreateSpec>>)
    ensures |r| == |rows|
  {
    seq(|rows|, k requires 0 <= k < |rows| => Some(SpecOf(rows[k])))
  }

  /** The hooks of builder `i` from `h` on, and those of all later builders, are content with these mutations. */
  predicate Content(c: Config, i: nat, h: nat, ms: seq<Mutation>)
    requires i < |c.hooks| == |ms| && h <= |c.hooks[i]|
  {
    && (forall g | h <= g < |c.hooks[i]| :: c.hooks[i][g].leave(ms[i].fields))
    && forall k, g | i < k < |c.hooks| && 0 <= g < |c.hooks[k]| :: c.hooks[k][g].leave(ms[k].fields)
  }

  ghost predicate SameFields(a: seq<Mutation>, b: seq<Mutation>) {
    |a| == |b| && forall k | 0 <= k < |a| :: a[k].fields == b[k].fields
  }

  /** The nodes of the builders from `i` on have the fields of their specs and the ids that these got. */
  ghost predicate NodesSaved(c: Config, i: nat, rows: seq<Row>, t: State)
    requires i <= |c.hooks| && |rows| == |c.hooks| - i && Fits(c, t)
  {
    forall k | i <= k < |c.hooks| ::
      t.specs[k].Some? && t.nodes[k] == Some(Created(NodeFields(rows[k - i]), IdIn(t.specs[k].value)))
  }

  /** A mutation has the id of the first builder from `i` on that it belongs to. */
  ghost predicate FirstIdCounts(c: Config, i: nat, t: State)
    requires Fits(c, t)
  {
    forall j, k | i <= j < |c.hooks| && 0 <= k < |c.hooks| && c.shares(j, k) ::
      (forall l | i <= l < j :: !c.shares(l, k)) ==>
      t.nodes[j].Some? && t.mutations[k].id == Some(t.nodes[j].value.id)
  }

  /** One insert, of exactly this batch; success if and only if it succeeds and the hooks are content with the final
      mutations. */
  ghost predicate InsertsExactly(c: Config, i: nat, h: nat, s: State, t: State, ok: bool,
                                 batch: seq<Option<CreateSpec>>, final: seq<Mutation>)
    requires i < |c.hooks| == |final| && h <= |c.hooks[i]| && Fits(c, s) && Fits(c, t)
  {
    && t.batches == s.batches + [batch]
    && SameFields(t.mutations, final)
    && (ok <==> c.insert(batch).Some? && Content(c, i, h, final))
    && (c.insert(batch).Some? ==> t.specs == WithIds(batch, c.insert(batch).value))
  }

  /** What is stored for the builders from `i` on after a success; the nodes in front of them are as they were. */
  ghost predicate StoresExactly(c: Config, i: nat, rows: seq<Row>, s: State, t: State, ok: bool)
    requires i < |c.hooks| && |rows| == |c.hooks| - i && Fits(c, s) && Fits(c, t)
  {
    && (forall k | 0 <= k < i :: t.nodes[k] == s.nodes[k])
    && (ok ==> NodesSaved(c, i, rows, t) && FirstIdCounts(c, i, t))
  }

  /** The batch: what earlier builders built, and the specs of the admitted fields. */
  function BatchOf(c: Config, i: nat, h: nat, s: State): seq<Option<CreateSpec>>
    requires i < |c.hooks| && h <= |c.hooks[i]| && Fits(c, s) && RestGetsThrough(c, i, h, s.mutations)
  {
    s.specs[..i] + SpecsOf(RestAdmitted(c, i, h, s.mutations))
  }

  ghost predicate RunsExactly(c: Config, i: nat, h: nat, s: State)
    requires i < |c.hooks| && h <= |c.hooks[i]| && Fits(c, s) && RestGetsThrough(c, i, h, s.mutations)
  {
    var (t, ok) := Mutate(c, i, h, s);
    && InsertsExactly(c, i, h, s, t, ok, BatchOf(c, i, h, s), RestFinal(c, i, h, s.mutations))
    && StoresExactly(c, i, RestAdmitted(c, i, h, s.mutations), s, t, ok)
  }

  lemma HookAdmits(c: Config, i: nat, h: nat, ms: seq<Mutation>, fields: Row, next: seq<Mutation>)
    requires i < |c.hooks| == |ms| && h < |c.hooks[i]| && c.hooks[i][h].enter(ms[i].fields) == Some(fields)
    requires c.shares(i, i) && next == Edited(c, ms, i, fields) && RestGetsThrough(c, i, h, ms)
    ensures RestGetsThrough(c, i, h + 1, next)
    ensures RestAdmitted(c, i, h + 1, next) == RestAdmitted(c, i, h, ms)
    ensures RestFinal(c, i, h + 1, next) == RestFinal(c, i, h, ms)
  {
    HookGetsThrough(c, i, h, ms, fields, next);
    EditedTwice(c, ms, i, fields, Admit(c.hooks[i], h, ms[i].fields).value);
  }

  lemma ExactAfterHook(c: Config, i: nat, h: nat, s: State, next: State, t: State, ok: bool, content: bool,
                       rows: seq<Row>, batch: seq<Option<CreateSpec>>, final: seq<Mutation>)
    requires i < |c.hooks| == |final| && h < |c.hooks[i]| && Fits(c, s) && Fits(c, next) && Fits(c, t)
    requires |rows| == |c.hooks| - i && next.batches == s.batches && next.nodes == s.nodes
    requires InsertsExactly(c, i, h + 1, next, t, ok, batch, final) && StoresExactly(c, i, rows, next, t, ok)
    requires content == c.hooks[i][h].leave(t.mutations[i].fields)
    ensures InsertsExactly(c, i, h, s, Log(t, Exit(i, h)), ok && content, batch, final)
    ensures StoresExactly(c, i, rows, s, Log(t, Exit(i, h)), ok && content)
  {
    assert t.mutations[i].fields == final[i].fields;
    assert Content(c, i, h, final) <==> content && Content(c, i, h + 1, final);
  }

  lemma {:induction false} ChainIsExact(c: Config, i: nat, h: nat, s: State)
    requires i < |c.hooks| && h <= |c.hooks[i]| && Fits(c, s) && Coherent(c, s.mutations)
    requires RestGetsThrough(c, i, h, s.mutations)
    ensures RunsExactly(c, i, h, s)
    decreases |c.hooks| - i, |c.hooks[i]| - h
  {
    if h < |c.hooks[i]| {
      var entered := Log(s, Enter(i, h));
      var fields := c.hooks[i][h].enter(s.mutations[i].fields).value;
      var next := SetShared(c, entered, i, s.mutations[i].(fields := fields));
      SharedStaysCoherent(c, entered, i, s.mutations[i].(fields := fields));
      HookAdmits(c, i, h, s.mutations, fields, next.mutations);
      ChainIsExact(c, i, h + 1, next);
      var (t, ok) := Mutate(c, i, h + 1, next);
      ExactAfterHook(c, i, h, s, next, t, ok, c.hooks[i][h].leave(t.mutations[i].fields),
                     RestAdmitted(c, i, h, s.mutations), BatchOf(c, i, h, s), RestFinal(c, i, h, s.mutations));
    } else {
      BaseIsExact(c, i, s);
    }
  }

  /** A base mutator, given what its successor or the insert did. */
  lemma ExactAfterNext(c: Config, i: nat, s: State, t: State, ok: bool, rows: seq<Row>,
                       batch: seq<Option<CreateSpec>>, final: seq<Mutation>)
    requires i < |c.hooks| == |final| == |batch| && Fits(c, s) && Fits(c, t) && |rows| == |c.hooks| - i
    requires t.batches == s.batches + [batch] && SameFields(t.mutations, final)
    requires c.insert(batch).Some? ==> t.specs == WithIds(batch, c.insert(batch).value)
    requires ok <==> c.insert(batch).Some? && Content(c, i, |c.hooks[i]|, final)
    requires forall k | 0 <= k < i :: t.nodes[k] == s.nodes[k]
    requires t.specs[i].Some? && t.nodes[i] == Some(Created(NodeFields(rows[0]), 0)) && Coherent(c, t.mutations)
    requires ok ==> NodesSaved(c, i + 1, rows[1..], t) && FirstIdCounts(c, i + 1, t)
    ensures var u := if ok then FinishShared(c, t, i) else t;
            InsertsExactly(c, i, |c.hooks[i]|, s, u, ok, batch, final) && StoresExactly(c, i, rows, s, u, ok)
  {
    if ok {
      FinishSavesNodes(c, i, t, rows);
      FinishSetsFirstId(c, i, t);
    }
  }

  lemma ContentOfNext(c: Config, i: nat, ms: seq<Mutation>)
    requires i < |c.hooks| - 1 && |ms| == |c.hooks|
    ensures Content(c, i, |c.hooks[i]|, ms) <==> Content(c, i + 1, 0, ms)
  {
  }

  lemma FinishSavesNodes(c: Config, i: nat, t: State, rows: seq<Row>)
    requires i < |c.hooks| && Fits(c, t) && |rows| == |c.hooks| - i
    requires t.specs[i].Some? && t.nodes[i] == Some(Created(NodeFields(rows[0]), 0))
    requires NodesSaved(c, i + 1, rows[1..], t)
    ensures NodesSaved(c, i, rows, FinishShared(c, t, i))
  {
    var u := FinishShared(c, t, i);
    forall k | i <= k < |c.hooks|
      ensures u.specs[k].Some? && u.nodes[k] == Some(Created(NodeFields(rows[k - i]), IdIn(u.specs[k].value)))
    {
      if k > i {
        assert rows[1..][k - (i + 1)] == rows[k - i] && u.nodes[k] == t.nodes[k];
      }
    }
  }

  lemma FinishSetsFirstId(c: Config, i: nat, t: State)
    requires i < |c.hooks| && Fits(c, t) && t.specs[i].Some? && t.nodes[i].Some? && Coherent(c, t.mutations)
    requires FirstIdCounts(c, i + 1, t)
    ensures FirstIdCounts(c, i, FinishShared(c, t, i))
  {
    var u := FinishShared(c, t, i);
    forall j, k | i <= j < |c.hooks| && 0 <= k < |c.hooks| && c.shares(j, k) && forall l | i <= l < j :: !c.shares(l, k)
      ensures u.nodes[j].Some? && u.mutations[k].id == Some(u.nodes[j].value.id)
    {
      if j > i {
        assert !c.shares(i, k) && u.mutations[k] == t.mutations[k] && u.nodes[j] == t.nodes[j];
      }
    }
  }

  lemma {:induction false} BaseIsExact(c: Config, i: nat, s: State)
    requires i < |c.hooks| && Fits(c, s) && Coherent(c, s.mutations)
    requires RestGetsThrough(c, i, |c.hooks[i]|, s.mutations)
    ensures RunsExactly(c, i, |c.hooks[i]|, s)
    decreases |c.hooks| - i, 0, 0
  {
    var built := Build(Log(s, Check(i)), i);
    NotEdited(c, s.mutations, i);
    if i < |c.hooks| - 1 {
      ChainIsExact(c, i + 1, 0, built);
      NextIsExact(c, i, s);
    } else {
      InsertIsExact(c, s);
    }
  }

  lemma AdmittedOfNext(c: Config, i: nat, ms: seq<Mutation>)
    requires i < |c.hooks| - 1 && |ms| == |c.hooks| && Coherent(c, ms) && RestGetsThrough(c, i, |c.hooks[i]|, ms)
    ensures RestGetsThrough(c, i + 1, 0, ms)
    ensures RestFinal(c, i, |c.hooks[i]|, ms) == RestFinal(c, i + 1, 0, ms)
    ensures RestAdmitted(c, i, |c.hooks[i]|, ms) == [ms[i].fields] + RestAdmitted(c, i + 1, 0, ms)
  {
    NotEdited(c, ms, i);
  }

  lemma SpecsOfMore(front: seq<Option<CreateSpec>>, fields: Row, rest: seq<Row>)
    ensures front + SpecsOf([fields] + rest) == (front + [Some(SpecOf(fields))]) + SpecsOf(rest)
  {
    assert SpecsOf([fields] + rest) == [Some(SpecOf(fields))] + SpecsOf(rest);
  }

  lemma BatchOfBuilt(c: Config, i: nat, s: State)
    requires i < |c.hooks| - 1 && Fits(c, s) && Coherent(c, s.mutations)
    requires RestGetsThrough(c, i, |c.hooks[i]|, s.mutations) && RestGetsThrough(c, i + 1, 0, s.mutations)
    ensures BatchOf(c, i + 1, 0, Build(Log(s, Check(i)), i)) == BatchOf(c, i, |c.hooks[i]|, s)
  {
    var built := Build(Log(s, Check(i)), i);
    AdmittedOfNext(c, i, s.mutations);
    SpecsOfMore(s.specs[..i], s.mutations[i].fields, RestAdmitted(c, i + 1, 0, s.mutations));
    assert built.specs[..i + 1] == s.specs[..i] + [Some(SpecOf(s.mutations[i].fields))];
  }

  lemma {:induction false} NextIsExact(c: Config, i: nat, s: State)
    requires i < |c.hooks| - 1 && Fits(c, s) && Coherent(c, s.mutations)
    requires RestGetsThrough(c, i, |c.hooks[i]|, s.mutations)
    requires AllGetThrough(c, i + 1, s.mutations) && RunsExactly(c, i + 1, 0, Build(Log(s, Check(i)), i))
    ensures RunsExactly(c, i, |c.hooks[i]|, s)
  {
    var built := Build(Log(s, Check(i)), i);
    var (t, ok) := Mutate(c, i + 1, 0, built);
    AdmittedOfNext(c, i, s.mutations);
    BatchOfBuilt(c, i, s);
    ChainMarks(c, i + 1, 0, built);
    var rows := RestAdmitted(c, i, |c.hooks[i]|, s.mutations);
    assert rows[1..] == RestAdmitted(c, i + 1, 0, built.mutations);
    ContentOfNext(c, i, RestFinal(c, i, |c.hooks[i]|, s.mutations));
    ExactAfterNext(c, i, s, t, ok, rows, BatchOf(c, i, |c.hooks[i]|, s), RestFinal(c, i, |c.hooks[i]|, s.mutations));
  }

  lemma InsertIsExact(c: Config, s: State)
    requires |c.hooks| > 0 && Fits(c, s) && Coherent(c, s.mutations)
    requires RestGetsThrough(c, |c.hooks| - 1, |c.hooks[|c.hooks| - 1]|, s.mutations)
    ensures RunsExactly(c, |c.hooks| - 1, |c.hooks[|c.hooks| - 1]|, s)
  {
    var i := |c.hooks| - 1;
    var built := Build(Log(s, Check(i)), i);
    var (t, ok) := BatchCreate(c, built);
    BatchOfLast(c, s);
    var rows := RestAdmitted(c, i, |c.hooks[i]|, s.mutations);
    ExactAfterNext(c, i, s, t, ok, rows, built.specs, s.mutations);
  }

  lemma BatchOfLast(c: Config, s: State)
    requires |c.hooks| > 0 && Fits(c, s) && Coherent(c, s.mutations)
    requires RestGetsThrough(c, |c.hooks| - 1, |c.hooks[|c.hooks| - 1]|, s.mutations)
    ensures var i := |c.hooks| - 1;
            && RestAdmitted(c, i, |c.hooks[i]|, s.mutations) == [s.mutations[i].fields]
            && Build(Log(s, Check(i)), i).specs == BatchOf(c, i, |c.hooks[i]|, s)
            && RestFinal(c, i, |c.hooks[i]|, s.mutations) == s.mutations
  {
    var i := |c.hooks| - 1;
    NotEdited(c, s.mutations, i);
    var rows := RestAdmitted(c, i, |c.hooks[i]|, s.mutations);
    assert rows == [s.mutations[i].fields];
    assert SpecsOf(rows) == [Some(SpecOf(s.mutations[i].fields))];
  }

  // ---- A whole `Save` ----

  /** The mutations of a list of builders, read through the builders. */
  lemma ValuesAreCoherent(c: Config, builders: seq<AccountCreate>)
    requires |c.hooks| == |builders| && c.shares == SharedBy(builders)
    ensures SharesWithSelf(c) && Coherent(c, ValuesOf(builders))
    ensures Apart(c) <==> forall i, k | 0 <= i < k < |builders| :: builders[i].mutation != builders[k].mutation
  {
    forall i, k | 0 <= i < |builders| && 0 <= k < |builders|
      ensures c.shares(i, k) <==> builders[i].mutation == builders[k].mutation
    {
    }
    if Apart(c) {
      forall i, k | 0 <= i < k < |builders|
        ensures builders[i].mutation != builders[k].mutation
      {
        assert !c.shares(i, k);
      }
    }
  }

  lemma DefaultsStayCoherent(c: Config, ms: seq<Mutation>)
    requires Coherent(c, ms)
    ensures Coherent(c, WithDefaults(c.runtime, ms))
  {
    var after := WithDefaults(c.runtime, ms);
    forall i, k | 0 <= i < |ms| && 0 <= k < |ms| && c.shares(i, k)
      ensures c.shares(k, i) && after[i] == after[k]
    {
      assert ms[i] == ms[k];
    }
  }

  /** All builders get through, and this is what then is inserted: the specs of the fields that each builder has at its
      turn. */
  ghost predicate Inserts(c: Config, ms: seq<Mutation>) {
    |ms| == |c.hooks| > 0 && AllGetThrough(c, 0, WithDefaults(c.runtime, ms))
  }

  ghost function InsertedRows(c: Config, ms: seq<Mutation>): (r: seq<Row>)
    requires Inserts(c, ms)
    ensures |r| == |ms|
  {
    Admitted(c, 0, WithDefaults(c.runtime, ms))
  }

  ghost function FinalMutations(c: Config, ms: seq<Mutation>): (r: seq<Mutation>)
    requires Inserts(c, ms)
    ensures |r| == |ms|
  {
    Final(c, 0, WithDefaults(c.runtime, ms))
  }

  /** `Save` succeeds: all get through, the insert of their specs succeeds, and all hooks are content with the
      mutations as the last builder left them. */
  ghost predicate Succeeds(c: Config, ms: seq<Mutation>) {
    && Inserts(c, ms) && c.insert(SpecsOf(InsertedRows(c, ms))).Some?
    && Content(c, 0, 0, FinalMutations(c, ms))
  }

  lemma {:induction false} AdmittedAreChecked(c: Config, i: nat, ms: seq<Mutation>)
    requires i <= |c.hooks| == |ms| && AllGetThrough(c, i, ms)
    ensures forall k | 0 <= k < |Admitted(c, i, ms)| :: Checked(c.runtime, Admitted(c, i, ms)[k])
    decreases |c.hooks| - i
  {
    if i < |c.hooks| {
      var fields := Admit(c.hooks[i], 0, ms[i].fields).value;
      var next := Edited(c, ms, i, fields);
      AdmittedAreChecked(c, i + 1, next);
      assert Admitted(c, i, ms) == [fields] + Admitted(c, i + 1, next);
    }
  }

  lemma SaveIsExact(c: Config, ms: seq<Mutation>)
    requires SharesWithSelf(c) && Inserts(c, ms) && Coherent(c, ms)
    ensures var (t, ok) := SaveRun(c, ms);
            && InsertsExactly(c, 0, 0, Prepared(c, ms), t, ok, SpecsOf(InsertedRows(c, ms)), FinalMutations(c, ms))
            && StoresExactly(c, 0, InsertedRows(c, ms), Prepared(c, ms), t, ok)
  {
    var s := Prepared(c, ms);
    DefaultsStayCoherent(c, ms);
    assert RestGetsThrough(c, 0, 0, s.mutations);
    ChainIsExact(c, 0, 0, s);
    assert s.specs[..0] + SpecsOf(InsertedRows(c, ms)) == SpecsOf(InsertedRows(c, ms));
  }

  /** Whether or not builders share mutations: the insert runs if and only if all builders get through one after the
      other, once, and exactly with the specs of the checked fields that each builder had at its turn. Nothing is
      marked done without a successful insert. `Save` succeeds if and only if the insert does and all hooks are
      content afterwards. */
  lemma AnySave(c: Config, ms: seq<Mutation>)
    requires |ms| == |c.hooks| && SharesWithSelf(c) && Coherent(c, ms)
    ensures var (t, ok) := SaveRun(c, ms);
            && t.batches == (if Inserts(c, ms) then [SpecsOf(InsertedRows(c, ms))] else [])
            && (Inserts(c, ms) ==> SameFields(t.mutations, FinalMutations(c, ms)))
            && (ok <==> ms == [] || Succeeds(c, ms))
            && ((t.batches != [] && c.insert(t.batches[0]).Some?) || SameMarks(t.mutations, ms))
    ensures Inserts(c, ms) ==> forall k | 0 <= k < |ms| :: Checked(c.runtime, InsertedRows(c, ms)[k])
  {
    DefaultsStayCoherent(c, ms);
    var s := Prepared(c, ms);
    if ms != [] {
      ChainMarks(c, 0, 0, s);
      InsertsIffAllGetThrough(c, 0, 0, s);
    }
    if Inserts(c, ms) {
      SaveIsExact(c, ms);
      AdmittedAreChecked(c, 0, WithDefaults(c.runtime, ms));
    }
  }

  /** After a success, every node has the fields that were inserted for its builder and the id that the database
      returned for it; every mutation is done, and has the id of the first builder that it belongs to. */
  lemma AnySavedNodes(c: Config, ms: seq<Mutation>, k: nat)
    requires |ms| == |c.hooks| && SharesWithSelf(c) && Coherent(c, ms) && k < |ms| && Succeeds(c, ms)
    ensures var (t, ids) := (SaveRun(c, ms).0, c.insert(SpecsOf(InsertedRows(c, ms))).value);
            && t.nodes[k] == Some(Created(NodeFields(InsertedRows(c, ms)[k]),
                                          if k < |ids| && ids[k].Some? then ids[k].value else 0))
            && t.mutations[k].done
            && forall j | 0 <= j <= k && c.shares(j, k) && (forall l | 0 <= l < j :: !c.shares(l, k)) ::
                 t.nodes[j].Some? && t.mutations[k].id == Some(t.nodes[j].value.id)
  {
    AnySave(c, ms);
    DefaultsStayCoherent(c, ms);
    ChainMarks(c, 0, 0, Prepared(c, ms));
    SaveIsExact(c, ms);
    var t, batch := SaveRun(c, ms).0, SpecsOf(InsertedRows(c, ms));
    assert t.batches[0] == batch && t.specs[k] == WithIds(batch, c.insert(batch).value)[k];
  }

  /** The trace of a whole `Save`: a part of the way down, then the insert if the way down was completed, then only
      returns; hooks return in the opposite order of their entry, and all that were entered return. */
  lemma SaveTrace(c: Config, ms: seq<Mutation>) returns (k: nat, up: seq<Event>)
    requires |ms| == |c.hooks| && SharesWithSelf(c) && ms != []
    ensures var (t, ok) := SaveRun(c, ms);
            && k <= |Descent(c, 0, 0)|
            && t.trace == Descent(c, 0, 0)[..k] + (if t.batches != [] then [Insert] else []) + up
            && (t.batches != [] ==> k == |Descent(c, 0, 0)|)
            && ReturnsOnly(up)
            && (ok ==> up == Ascent(c, 0, 0))
            && Replay([], t.trace) == Some([])
  {
    var run;
    run, k, up := RunsAreWellNested(c, 0, 0, Prepared(c, ms), []);
    assert [] + run == run;
  }

  // ---- What is in the inserted specs ----

  lemma RequiredIsSet(fields: Row, col: Column)
    requires HasRequired(fields) && IsRequired(col)
    ensures col in fields
  {
  }

  lemma RequiredIsField(col: Column)
    requires IsRequired(col)
    ensures col in Columns(Account) && col != Id && col != ProxyId && col != ParentAccountId
  {
    ColumnsAreValid(Account, col);
  }

  lemma InsertedSpec(c: Config, ms: seq<Mutation>, k: nat) returns (fields: Row)
    requires |ms| == |c.hooks| && SharesWithSelf(c) && Coherent(c, ms) && k < |ms| && SaveRun(c, ms).0.batches != []
    ensures IsComplete(c.runtime, fields) && |SaveRun(c, ms).0.batches[0]| == |ms|
    ensures SaveRun(c, ms).0.batches[0][k] == Some(SpecOf(fields))
  {
    AnySave(c, ms);
    fields := InsertedRows(c, ms)[k];
    CheckedFieldByField(c.runtime, fields);
  }

  /** No spec reaches the insert without a value for each of the fourteen required fields, whatever became of the
      defaults. */
  lemma InsertedSpecsAreComplete(c: Config, ms: seq<Mutation>, k: nat, col: Column)
    requires |ms| == |c.hooks| && SharesWithSelf(c) && Coherent(c, ms) && k < |ms| && SaveRun(c, ms).0.batches != []
    requires IsRequired(col)
    ensures |SaveRun(c, ms).0.batches[0]| == |ms| && SaveRun(c, ms).0.batches[0][k].Some?
    ensures exists v :: (col, v) in SaveRun(c, ms).0.batches[0][k].value.fields
  {
    var fields := InsertedSpec(c, ms, k);
    RequiredIsSet(fields, col);
    RequiredIsField(col);
    SpecMeaning(fields, col, fields[col]);
  }

  /** Every text that reaches the insert was accepted by its validator, and the quota dimension is one of the two. */
  lemma InsertedSpecsAreValid(c: Config, ms: seq<Mutation>, k: nat, col: Column, s: string)
    requires |ms| == |c.hooks| && SharesWithSelf(c) && Coherent(c, ms) && k < |ms| && SaveRun(c, ms).0.batches != []
    requires |SaveRun(c, ms).0.batches[0]| == |ms| && SaveRun(c, ms).0.batches[0][k].Some?
    requires (col, TextV(s)) in SaveRun(c, ms).0.batches[0][k].value.fields
    ensures col == Name || col == Platform || col == Type || col == Status || col == SessionWindowStatus ==>
              c.runtime.accepts(col, s)
    ensures col == QuotaDimension ==> s == "global" || s == "spark"
  {
    var fields := InsertedSpec(c, ms, k);
    SpecMeaning(fields, col, TextV(s));
  }

  // ---- Defaults reach the insert ----

  lemma {:induction false} AdmittedWithoutHooks(c: Config, i: nat, ms: seq<Mutation>, k: nat)
    requires i <= k < |c.hooks| == |ms| && AllGetThrough(c, i, ms) && Coherent(c, ms)
    requires forall j | 0 <= j < |c.hooks| :: c.hooks[j] == []
    ensures Admitted(c, i, ms)[k - i] == ms[k].fields
    decreases |c.hooks| - i
  {
    NotEdited(c, ms, i);
    if i < k {
      AdmittedWithoutHooks(c, i + 1, ms, k);
    }
  }

  lemma InsertedWithoutHooks(c: Config, ms: seq<Mutation>, k: nat)
    requires SharesWithSelf(c) && Inserts(c, ms) && Coherent(c, ms) && k < |ms|
    requires forall j | 0 <= j < |c.hooks| :: c.hooks[j] == []
    ensures InsertedRows(c, ms)[k] == FillDefaults(c.runtime, ms[k].fields, DEFAULT_ORDER).0
  {
    DefaultsStayCoherent(c, ms);
    AdmittedWithoutHooks(c, 0, WithDefaults(c.runtime, ms), k);
  }

  lemma CompleteHasDefaulted(rt: Runtime, fields: Row)
    requires IsComplete(rt, fields)
    ensures HasAllDefaulted(fields)
  {
  }

  /** Without hooks, each builder's fields reach the insert with every unset one of the eleven at its default. */
  lemma DefaultsAreInserted(c: Config, ms: seq<Mutation>, k: nat) returns (fields: Row)
    requires |ms| == |c.hooks| && SharesWithSelf(c) && Coherent(c, ms) && k < |ms| && SaveRun(c, ms).0.batches != []
    requires forall j | 0 <= j < |c.hooks| :: c.hooks[j] == []
    ensures |SaveRun(c, ms).0.batches[0]| == |ms| && SaveRun(c, ms).0.batches[0][k] == Some(SpecOf(fields))
    ensures OnlyDefaultsAdded(c.runtime, ms[k].fields, fields) && HasAllDefaulted(fields)
  {
    AnySave(c, ms);
    fields := InsertedRows(c, ms)[k];
    InsertedWithoutHooks(c, ms, k);
    DefaultsFieldByField(c.runtime, ms[k].fields);
    CheckedFieldByField(c.runtime, fields);
    CompleteHasDefaulted(c.runtime, fields);
  }
}
