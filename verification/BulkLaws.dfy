/** What a whole `Save` guarantees, whichever check, hook or insert fails in it. */
module BulkLaws {
  import opened Wrappers
  import opened Schema
  import opened AccountFields
  import opened BulkChain
  import opened BulkCreate

  /** The fields with which builder `k` reaches its check: its own, the defaults, and the edits of its hooks. */
  function AdmittedFields(c: Config, ms: seq<Mutation>, k: nat): Option<Row>
    requires k < |ms| == |c.hooks|
  {
    Admit(c.hooks[k], 0, FillDefaults(c.runtime, ms[k].fields, DEFAULT_ORDER).0)
  }

  predicate BuilderPasses(c: Config, ms: seq<Mutation>, k: nat)
    requires k < |ms| == |c.hooks|
  {
    var admitted := AdmittedFields(c, ms, k);
    admitted.Some? && Checked(c.runtime, admitted.value)
  }

  predicate EveryBuilderPasses(c: Config, ms: seq<Mutation>)
    requires |ms| == |c.hooks|
  {
    forall k | 0 <= k < |ms| :: BuilderPasses(c, ms, k)
  }

  /** The batch that should be inserted. */
  function FullBatch(c: Config, ms: seq<Mutation>): seq<Option<CreateSpec>>
    requires |ms| == |c.hooks| && EveryBuilderPasses(c, ms)
  {
    seq(|ms|, k requires 0 <= k < |ms| =>
      assert BuilderPasses(c, ms, k); Some(SpecOf(AdmittedFields(c, ms, k).value)))
  }

  /** No hook of builder `k` complains after the fact. */
  predicate BuilderLeaves(c: Config, ms: seq<Mutation>, k: nat)
    requires k < |ms| == |c.hooks| && BuilderPasses(c, ms, k)
  {
    forall g | 0 <= g < |c.hooks[k]| :: c.hooks[k][g].leave(AdmittedFields(c, ms, k).value)
  }

  lemma SaveEffect(c: Config, ms: seq<Mutation>) returns (m: nat)
    requires Apart(c) && |ms| == |c.hooks| && ms != []
    ensures Effect(c, 0, 0, Prepared(c, ms), SaveRun(c, ms).0, SaveRun(c, ms).1, m)
  {
    m := MutateEffect(c, 0, 0, Prepared(c, ms));
  }

  lemma AllPassIsEveryBuilderPasses(c: Config, ms: seq<Mutation>)
    requires Apart(c) && |ms| == |c.hooks| && ms != []
    ensures AllPass(c, 0, 0, Prepared(c, ms)) <==> EveryBuilderPasses(c, ms)
  {
    var s := Prepared(c, ms);
    assert forall k | 0 <= k < |ms| :: Passes(c, k, 0, s) == BuilderPasses(c, ms, k);
    assert AllPass(c, 0, 0, s) ==> EveryBuilderPasses(c, ms);
  }

  lemma FieldsAfterPass(c: Config, ms: seq<Mutation>)
    requires Apart(c) && |ms| == |c.hooks| && ms != [] && EveryBuilderPasses(c, ms)
    ensures forall k | 0 <= k < |ms| ::
              BuilderPasses(c, ms, k) && SaveRun(c, ms).0.mutations[k].fields == AdmittedFields(c, ms, k).value
  {
    var m := SaveEffect(c, ms);
    AllPassIsEveryBuilderPasses(c, ms);
    forall k | 0 <= k < |ms|
      ensures BuilderPasses(c, ms, k) && SaveRun(c, ms).0.mutations[k].fields == AdmittedFields(c, ms, k).value
    {
      assert FieldsAdmitted(c, 0, 0, Prepared(c, ms), SaveRun(c, ms).0);
    }
  }

  /** The insert runs at most once, and it runs if and only if every builder gets through its hooks and its check;
      it is then given one spec for every builder, made of that builder's own checked fields. */
  lemma InsertRunsIffEveryBuilderPasses(c: Config, ms: seq<Mutation>)
    requires Apart(c) && |ms| == |c.hooks|
    ensures SaveRun(c, ms).0.batches ==
            if ms != [] && EveryBuilderPasses(c, ms) then [FullBatch(c, ms)] else []
  {
    if ms != [] {
      var m := SaveEffect(c, ms);
      AllPassIsEveryBuilderPasses(c, ms);
      var t := SaveRun(c, ms).0;
      if EveryBuilderPasses(c, ms) {
        FieldsAfterPass(c, ms);
        assert t.batches[0] == FullBatch(c, ms) by {
          assert BatchOk(c, 0, Prepared(c, ms), t, t.batches[0]);
        }
        assert t.batches == [t.batches[0]];
      }
    }
  }

  /** Without an insert, or after one that failed, no mutation is marked done or gets an id, and `Save` reports
      an error. */
  lemma NothingDoneWithoutInsert(c: Config, ms: seq<Mutation>)
    requires Apart(c) && |ms| == |c.hooks| && ms != []
    requires EveryBuilderPasses(c, ms) ==> c.insert(FullBatch(c, ms)).None?
    ensures !SaveRun(c, ms).1
    ensures forall k | 0 <= k < |ms| ::
              SaveRun(c, ms).0.mutations[k].done == ms[k].done && SaveRun(c, ms).0.mutations[k].id == ms[k].id
  {
    var m := SaveEffect(c, ms);
    InsertRunsIffEveryBuilderPasses(c, ms);
    assert !Inserted(c, Prepared(c, ms), SaveRun(c, ms).0);
  }

  /** In every run the mutations marked done form a suffix of the builder list, and on success they are all of
      them. */
  lemma DoneIsSuffix(c: Config, ms: seq<Mutation>) returns (m: nat)
    requires Apart(c) && |ms| == |c.hooks| && ms != []
    ensures m <= |ms|
    ensures forall k | 0 <= k < m :: SaveRun(c, ms).0.mutations[k].done == ms[k].done
    ensures forall k | m <= k < |ms| :: SaveRun(c, ms).0.mutations[k].done
    ensures SaveRun(c, ms).1 ==> m == 0
    ensures m < |ms| ==> EveryBuilderPasses(c, ms) && c.insert(FullBatch(c, ms)).Some?
  {
    m := SaveEffect(c, ms);
    InsertRunsIffEveryBuilderPasses(c, ms);
  }

  /** `Save` succeeds if and only if every builder passes, the insert succeeds, and no hook complains after it. */
  lemma SaveSucceedsIff(c: Config, ms: seq<Mutation>)
    requires Apart(c) && |ms| == |c.hooks|
    ensures SaveRun(c, ms).1 <==>
            ms == [] || (&& EveryBuilderPasses(c, ms)
                         && c.insert(FullBatch(c, ms)).Some?
                         && forall k | 0 <= k < |ms| :: BuilderPasses(c, ms, k) && BuilderLeaves(c, ms, k))
  {
    if ms != [] {
      var m := SaveEffect(c, ms);
      InsertRunsIffEveryBuilderPasses(c, ms);
      if EveryBuilderPasses(c, ms) {
        FieldsAfterPass(c, ms);
        var t := SaveRun(c, ms).0;
        assert forall k | 0 <= k < |ms| :: Leaves(c, k, 0, t) == BuilderLeaves(c, ms, k);
      }
    }
  }

  /** The nodes that a successful `Save` returns: one for each builder, in order, with the fields that were
      inserted for it and the id that the database returned for it (0 if there is none). */
  lemma SavedNodes(c: Config, ms: seq<Mutation>, k: nat)
    requires Apart(c) && |ms| == |c.hooks| && k < |ms| && SaveRun(c, ms).1
    ensures EveryBuilderPasses(c, ms) && BuilderPasses(c, ms, k) && c.insert(FullBatch(c, ms)).Some?
    ensures var (t, ids) := (SaveRun(c, ms).0, c.insert(FullBatch(c, ms)).value);
            var id := if k < |ids| && ids[k].Some? then ids[k].value else 0;
            && t.nodes[k] == Some(Created(NodeFields(AdmittedFields(c, ms, k).value), id))
            && t.mutations[k] == Mutation(AdmittedFields(c, ms, k).value, Some(id), true)
  {
    var m := SaveEffect(c, ms);
    InsertRunsIffEveryBuilderPasses(c, ms);
    FieldsAfterPass(c, ms);
    var t := SaveRun(c, ms).0;
    assert IdsStored(c, Prepared(c, ms), t) && DoneFrom(c, Prepared(c, ms), t, 0);
    assert t.specs[k] == WithIds(FullBatch(c, ms), c.insert(FullBatch(c, ms)).value)[k];
  }

  // ---- The dropped error of `defaults` ----

  lemma PassedFieldIsSet(c: Config, ms: seq<Mutation>, k: nat, col: Column)
    requires k < |ms| == |c.hooks| && BuilderPasses(c, ms, k)
    requires col in CHECK_ORDER && !MayBeMissing(col)
    ensures col in AdmittedFields(c, ms, k).value
    ensures Validates(c.runtime, col, AdmittedFields(c, ms, k).value[col])
  {
    assert FieldOk(c.runtime, AdmittedFields(c, ms, k).value, col);
  }

  /** A hook never sets this field. */
  ghost predicate NeverSets(hook: Hook, col: Column) {
    forall fields: Row | col !in fields :: hook.enter(fields).Some? ==> col !in hook.enter(fields).value
  }

  lemma {:induction false} AdmitNeverSets(hooks: seq<Hook>, h: nat, fields: Row, col: Column)
    requires h <= |hooks| && col !in fields && forall g | h <= g < |hooks| :: NeverSets(hooks[g], col)
    ensures Admit(hooks, h, fields).Some? ==> col !in Admit(hooks, h, fields).value
    decreases |hooks| - h
  {
    if h < |hooks| && hooks[h].enter(fields).Some? {
      assert NeverSets(hooks[h], col);
      AdmitNeverSets(hooks, h + 1, hooks[h].enter(fields).value, col);
    }
  }

  /** Dropping the error of `defaults` is harmless for a builder whose hooks do not set the missing field: if
      `defaults` stopped at it, the insert never runs, `Save` reports an error, and nothing is marked done. */
  lemma StoppedDefaultsNeverInsert(c: Config, ms: seq<Mutation>, k: nat, col: Column)
    requires Apart(c) && |ms| == |c.hooks| && k < |ms|
    requires FillDefaults(c.runtime, ms[k].fields, DEFAULT_ORDER).1 == Some(col)
    requires forall g | 0 <= g < |c.hooks[k]| :: NeverSets(c.hooks[k][g], col)
    ensures SaveRun(c, ms).0.batches == [] && !SaveRun(c, ms).1
    ensures forall i | 0 <= i < |ms| :: SaveRun(c, ms).0.mutations[i].done == ms[i].done
  {
    var fields := FillDefaults(c.runtime, ms[k].fields, DEFAULT_ORDER).0;
    var at := DefaultsMeaning(c.runtime, ms[k].fields, DEFAULT_ORDER);
    StopIsChecked(c.runtime, col);
    if BuilderPasses(c, ms, k) {
      PassedFieldIsSet(c, ms, k, col);
    }
    AdmitNeverSets(c.hooks[k], 0, fields, col);
    InsertRunsIffEveryBuilderPasses(c, ms);
    NothingDoneWithoutInsert(c, ms);
  }

  /** With hooks that do set them, a builder whose `defaults` stopped may pass and be inserted: here nothing at all
      is set before the one hook runs. */
  lemma HooksMaySupplyDefaults() returns (c: Config, ms: seq<Mutation>)
    ensures |ms| == |c.hooks| == 1 && Apart(c)
    ensures FillDefaults(c.runtime, ms[0].fields, DEFAULT_ORDER) == (map[], Some(CreatedAt))
    ensures |SaveRun(c, ms).0.batches| == 1 && SaveRun(c, ms).1
  {
    var rt := Runtime(None, None, None, None, 3, 50, 1.0, "active", true, true, (_, _) => true);
    var supplied: Row :=
      map[CreatedAt := TimeV(0), UpdatedAt := TimeV(0), Name := TextV("n"), Platform := TextV("p"), Type := TextV("t"),
          Credentials := JsonV("{}"), Extra := JsonV("{}"), Concurrency := IntV(1), Priority := IntV(1),
          RateMultiplier := FloatV(1.0), Status := TextV("active"), AutoPauseOnExpired := BoolV(true),
          Schedulable := BoolV(true), QuotaDimension := TextV("global")];
    var hook := Hook(_ => Some(supplied), _ => true);
    c := Config(rt, [[hook]], (i: nat, k: nat) => i == k, _ => Some([Some(7)]));
    ms := [Mutation(map[], None, false)];
    SuppliedPasses(rt, supplied);
    AdmitSingle(hook, FillDefaults(rt, map[], DEFAULT_ORDER).0, supplied);
    assert c.hooks[0] == [hook];
    assert BuilderPasses(c, ms, 0);
    InsertRunsIffEveryBuilderPasses(c, ms);
    SaveSucceedsIff(c, ms);
  }

  lemma AdmitSingle(hook: Hook, fields: Row, edited: Row)
    requires hook.enter(fields) == Some(edited)
    ensures Admit([hook], 0, fields) == Some(edited)
  {
    assert Admit([hook], 1, edited) == Some(edited);
  }

  lemma SuppliedPasses(rt: Runtime, fields: Row)
    requires forall c, v :: rt.accepts(c, v)
    requires forall c | c in CHECK_ORDER :: MayBeMissing(c) || c in fields
    requires QuotaDimension in fields && fields[QuotaDimension] == TextV("global")
    requires SessionWindowStatus !in fields
    ensures Checked(rt, fields)
  {
    forall c | c in CHECK_ORDER
      ensures FieldOk(rt, fields, c)
    {
      if c in fields {
        assert Validates(rt, c, fields[c]);
      }
    }
  }
}
