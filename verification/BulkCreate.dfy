/** `AccountCreateBulk.Save`: the builders, the chain of mutators, and the run over shared slices. */
module BulkCreate {
  import opened Wrappers
  import opened Schema
  import opened AccountFields
  import opened BulkChain

  class AccountMutation {
    var fields: Row
    var id: Option<int>
    var done: bool

    constructor (fields: Row)
      ensures this.fields == fields && id == None && !done
    {
      this.fields, id, done := fields, None, false;
    }
  }

  class AccountCreate {
    const mutation: AccountMutation
    const hooks: seq<Hook>

    constructor (mutation: AccountMutation, hooks: seq<Hook>)
      ensures this.mutation == mutation && this.hooks == hooks
    {
      this.mutation, this.hooks := mutation, hooks;
    }

    /** `defaults`: one block per field with a default; it stops at a default function that is nil. */
    method Defaults(rt: Runtime) returns (err: Option<FieldError>)
      modifies mutation`fields
      ensures mutation.fields == FillDefaults(rt, old(mutation.fields), DEFAULT_ORDER).0
      ensures err == match FillDefaults(rt, old(mutation.fields), DEFAULT_ORDER).1
                     case None => None
                     case Some(c) => Some(UninitializedDefault(c))
      ensures OnlyDefaultsAdded(rt, old(mutation.fields), mutation.fields)
      ensures err == DefaultsError(rt, old(mutation.fields))
      ensures err.None? ==> HasAllDefaulted(mutation.fields)
    {
      DefaultsFieldByField(rt, mutation.fields);
      ghost var all := FillDefaults(rt, mutation.fields, DEFAULT_ORDER);
      assert DEFAULT_ORDER[0..] == DEFAULT_ORDER;
      for k := 0 to |DEFAULT_ORDER|
        invariant FillDefaults(rt, mutation.fields, DEFAULT_ORDER[k..]) == all
      {
        var c := DEFAULT_ORDER[k];
        assert DEFAULT_ORDER[k..][0] == c && DEFAULT_ORDER[k..][1..] == DEFAULT_ORDER[k + 1..];
        if c !in mutation.fields {
          var v := DefaultFor(rt, c);
          if v.None? {
            return Some(UninitializedDefault(c));
          }
          mutation.fields := mutation.fields[c := v.value];
        }
      }
      err := None;
    }

    /** `check`: the first field, in order, that is missing or that its validator rejects. */
    method Check(rt: Runtime) returns (err: Option<FieldError>)
      ensures err.None? <==> Checked(rt, mutation.fields)
      ensures err.None? <==> IsComplete(rt, mutation.fields)
      ensures err == CheckError(rt, mutation.fields)
    {
      CheckedFieldByField(rt, mutation.fields);
      for k := 0 to |CHECK_ORDER|
        invariant forall j | 0 <= j < k :: FieldOk(rt, mutation.fields, CHECK_ORDER[j])
      {
        var c := CHECK_ORDER[k];
        assert c in CHECK_ORDER;
        if c !in mutation.fields && !MayBeMissing(c) {
          FirstBadIsError(rt, mutation.fields, k);
          return Some(MissingField(c));
        }
        if c in mutation.fields && !Validates(rt, c, mutation.fields[c]) {
          FirstBadIsError(rt, mutation.fields, k);
          return Some(InvalidValue(c));
        }
      }
      err := None;
    }
  }

  /** A mutator: the closure that `Save` builds for builder `i`, or hook `h` of that builder around another one. */
  datatype Mutator = Base(i: nat) | Wrapped(i: nat, h: nat, hook: Hook, next: Mutator)

  function Chain(hooks: seq<Hook>, i: nat, h: nat): Mutator
    requires h <= |hooks|
    decreases |hooks| - h
  {
    if h == |hooks| then Base(i) else Wrapped(i, h, hooks[h], Chain(hooks, i, h + 1))
  }

  /** Whether two builders have one mutation. */
  function SharedBy(builders: seq<AccountCreate>): (nat, nat) -> bool {
    (i: nat, k: nat) => i < |builders| && k < |builders| && builders[i].mutation == builders[k].mutation
  }

  ghost function MutationsOf(builders: seq<AccountCreate>): set<AccountMutation> {
    set k | 0 <= k < |builders| :: builders[k].mutation
  }

  ghost function ValuesOf(builders: seq<AccountCreate>): (ms: seq<Mutation>)
    reads MutationsOf(builders)
    ensures |ms| == |builders|
  {
    seq(|builders|, k requires 0 <= k < |builders| reads MutationsOf(builders) =>
      Mutation(builders[k].mutation.fields, builders[k].mutation.id, builders[k].mutation.done))
  }

  /** The variables that the closures of one call of `Save` share. */
  class BulkRun {
    const builders: seq<AccountCreate>
    const config: Config
    const specs: array<Option<CreateSpec>>
    const nodes: array<Option<Created>>
    const mutators: array<Mutator>
    var batches: seq<seq<Option<CreateSpec>>>
    ghost var trace: seq<Event>

    constructor (builders: seq<AccountCreate>, runtime: Runtime,
                 insert: seq<Option<CreateSpec>> -> Option<seq<Option<int>>>)
      ensures this.builders == builders
      ensures config == Config(runtime, seq(|builders|, k requires 0 <= k < |builders| => builders[k].hooks),
                               SharedBy(builders), insert)
      ensures fresh(specs) && fresh(nodes) && fresh(mutators) && Valid()
      ensures forall k | 0 <= k < |builders| :: specs[k] == None && nodes[k] == None
      ensures batches == [] && trace == []
    {
      this.builders := builders;
      config := Config(runtime, seq(|builders|, k requires 0 <= k < |builders| => builders[k].hooks),
                       SharedBy(builders), insert);
      specs := new Option<CreateSpec>[|builders|](_ => None);
      nodes := new Option<Created>[|builders|](_ => None);
      mutators := new Mutator[|builders|](_ => Base(0));
      batches, trace := [], [];
    }

    ghost predicate Valid() {
      && config.shares == SharedBy(builders)
      && specs.Length == nodes.Length == mutators.Length == |builders| == |config.hooks|
      && (forall k | 0 <= k < |builders| :: config.hooks[k] == builders[k].hooks)
    }

    ghost predicate ChainsBuilt()
      reads mutators
    {
      mutators.Length == |builders| && forall k | 0 <= k < |builders| :: mutators[k] == Chain(builders[k].hooks, k, 0)
    }

    /** The state of the run. */
    ghost function View(): State
      reads this, specs, nodes, MutationsOf(builders)
    {
      State(ValuesOf(builders), specs[..], nodes[..], batches, trace)
    }

    ghost method LogEvent(e: Event)
      requires Valid()
      modifies this`trace
      ensures View() == Log(old(View()), e)
    {
      trace := trace + [e];
      assert ValuesOf(builders) == old(ValuesOf(builders));
    }

    method SetFields(i: nat, fields: Row)
      requires Valid() && i < |builders|
      modifies builders[i].mutation`fields
      ensures View() == SetShared(config, old(View()), i, old(View()).mutations[i].(fields := fields))
    {
      builders[i].mutation.fields := fields;
      assert ValuesOf(builders) ==
             ValuesSet(config, old(ValuesOf(builders)), i, old(ValuesOf(builders))[i].(fields := fields));
      assert specs[..] == old(specs[..]) && nodes[..] == old(nodes[..]);
    }

    method StoreSpec(i: nat)
      requires Valid() && i < |builders|
      modifies specs, nodes
      ensures View() == Build(old(View()), i)
    {
      var node, spec := BuildSpec(builders[i].mutation.fields);
      nodes[i], specs[i] := Some(Created(node, 0)), Some(spec);
      assert ValuesOf(builders) == old(ValuesOf(builders));
      assert specs[..] == old(specs[..])[i := Some(spec)] && nodes[..] == old(nodes[..])[i := Some(Created(node, 0))];
    }

    /** `sqlgraph.BatchCreate` on the shared `specs`. */
    method RunInsert() returns (ok: bool)
      requires Valid()
      modifies this`batches, this`trace, specs
      ensures View() == BatchCreate(config, old(View())).0 && ok == BatchCreate(config, old(View())).1
    {
      var before := specs[..];
      batches, trace := batches + [before], trace + [Insert];
      var outcome := config.insert(before);
      ok := outcome.Some?;
      if ok {
        for k := 0 to specs.Length
          invariant batches == old(batches) + [before] && trace == old(trace) + [Insert]
          invariant specs[..k] == WithIds(before, outcome.value)[..k] && specs[k..] == before[k..]
        {
          assert specs[k] == before[k];
          if specs[k].Some? && k < |outcome.value| {
            specs[k] := Some(specs[k].value.(id := outcome.value[k]));
          }
          assert specs[..k + 1] == specs[..k] + [specs[k]];
          ghost var after := WithIds(before, outcome.value);
          assert after[..k + 1] == after[..k] + [after[k]];
        }
        assert specs[..] == specs[..specs.Length] == WithIds(before, outcome.value);
      }
      assert ValuesOf(builders) == old(ValuesOf(builders));
      assert nodes[..] == old(nodes[..]) && specs[..] == BatchCreate(config, old(View())).0.specs;
    }

    /** The end of the base mutator, after its successors succeeded. */
    method FinishAt(i: nat)
      requires Valid() && i < |builders| && specs[i].Some? && nodes[i].Some?
      modifies this`trace, nodes, builders[i].mutation
      ensures View() == FinishShared(config, old(View()), i)
    {
      ghost var before, mutation := ValuesOf(builders), builders[i].mutation;
      if specs[i].value.id.Some? {
        nodes[i] := Some(nodes[i].value.(id := specs[i].value.id.value));
      }
      builders[i].mutation.id := Some(nodes[i].value.id);
      builders[i].mutation.done := true;
      trace := trace + [Done(i)];
      assert ValuesOf(builders) == ValuesSet(config, before, i, before[i].(id := mutation.id, done := true));
      assert nodes[..] == old(nodes[..])[i := nodes[i]] && specs[..] == old(specs[..]);
    }

    /** Calls a mutator. */
    method Invoke(m: Mutator, ghost i: nat, ghost h: nat) returns (ok: bool)
      requires Valid() && ChainsBuilt()
      requires i < |builders| && h <= |builders[i].hooks| && m == Chain(builders[i].hooks, i, h)
      modifies this`batches, this`trace, specs, nodes, MutationsOf(builders)
      ensures View() == Mutate(config, i, h, old(View())).0 && ok == Mutate(config, i, h, old(View())).1
      decreases |builders| - i, |builders[i].hooks| - h, 3
    {
      match m
      case Base(_) =>
        ok := InvokeBase(m.i);
      case Wrapped(_, _, hook, next) =>
        LogEvent(Enter(m.i, m.h));
        var entered := hook.enter(builders[m.i].mutation.fields);
        if entered.None? {
          LogEvent(Exit(m.i, m.h));
          return false;
        }
        SetFields(m.i, entered.value);
        ok := Invoke(next, m.i, m.h + 1);
        LogEvent(Exit(m.i, m.h));
        ok := ok && hook.leave(builders[m.i].mutation.fields);
    }

    /** The closure that `Save` builds for builder `i`. */
    method InvokeBase(i: nat) returns (ok: bool)
      requires Valid() && ChainsBuilt() && i < |builders|
      modifies this`batches, this`trace, specs, nodes, MutationsOf(builders)
      ensures View() == Mutate(config, i, |builders[i].hooks|, old(View())).0
      ensures ok == Mutate(config, i, |builders[i].hooks|, old(View())).1
      decreases |builders| - i, 0, 2
    {
      LogEvent(Check(i));
      var err := builders[i].Check(config.runtime);
      if err.Some? {
        return false;
      }
      StoreSpec(i);
      ok := InvokeChecked(i);
    }

    /** The rest of the closure, with the spec and the node in place. */
    method InvokeChecked(i: nat) returns (ok: bool)
      requires Valid() && ChainsBuilt() && i < |builders| && specs[i].Some? && nodes[i].Some?
      modifies this`batches, this`trace, specs, nodes, MutationsOf(builders)
      ensures View() == AfterBuild(config, i, old(View())).0 && ok == AfterBuild(config, i, old(View())).1
      decreases |builders| - i, 0, 1
    {
      ok := InvokeNext(i);
      if ok {
        FinishAt(i);
      }
    }

    /** The successor of builder `i`, or the insert. */
    method InvokeNext(i: nat) returns (ok: bool)
      requires Valid() && ChainsBuilt() && i < |builders|
      modifies this`batches, this`trace, specs, nodes, MutationsOf(builders)
      ensures i < |builders| - 1 ==>
                View() == Mutate(config, i + 1, 0, old(View())).0 && ok == Mutate(config, i + 1, 0, old(View())).1
      ensures i == |builders| - 1 ==>
                View() == BatchCreate(config, old(View())).0 && ok == BatchCreate(config, old(View())).1
      decreases |builders| - i, 0, 0
    {
      if i < mutators.Length - 1 {
        ok := Invoke(mutators[i + 1], i + 1, 0);
      } else {
        ok := RunInsert();
      }
    }
  }

  /** The mutations after the one of builder `i` was set. */
  ghost function ValuesSet(c: Config, ms: seq<Mutation>, i: nat, m: Mutation): seq<Mutation> {
    seq(|ms|, k requires 0 <= k < |ms| => if c.shares(i, k) then m else ms[k])
  }

  /** The mutations after the loop of `Save`, whose calls of `defaults` are not checked. */
  ghost function WithDefaults(rt: Runtime, ms: seq<Mutation>): (r: seq<Mutation>)
    ensures |r| == |ms|
  {
    seq(|ms|, k requires 0 <= k < |ms| => ms[k].(fields := FillDefaults(rt, ms[k].fields, DEFAULT_ORDER).0))
  }

  /** The state in which `Save` calls the first mutator. */
  ghost function Prepared(c: Config, ms: seq<Mutation>): (s: State)
    requires |ms| == |c.hooks| && SharesWithSelf(c)
    ensures Fits(c, s)
  {
    State(WithDefaults(c.runtime, ms), seq(|ms|, _ => None), seq(|ms|, _ => None), [], [])
  }

  /** What `Save` does: nothing for an empty list, otherwise it calls the mutator of the first builder. */
  ghost function SaveRun(c: Config, ms: seq<Mutation>): (r: (State, bool))
    requires |ms| == |c.hooks| && SharesWithSelf(c)
    ensures Fits(c, r.0)
  {
    if ms == [] then (Prepared(c, ms), true) else Mutate(c, 0, 0, Prepared(c, ms))
  }

  /** Builder `k` has the mutation of one of the first `i` builders. */
  ghost predicate Reached(c: Config, i: nat, k: nat) {
    exists j: nat | j < i :: c.shares(j, k)
  }

  /** The mutations when the loop of `Save` has reached builder `i`. */
  ghost function HalfWay(c: Config, start: seq<Mutation>, i: nat): (ms: seq<Mutation>)
    ensures |ms| == |start|
  {
    seq(|start|, k requires 0 <= k < |start| =>
      if Reached(c, i, k) then WithDefaults(c.runtime, start)[k] else start[k])
  }

  lemma SharersAgree(builders: seq<AccountCreate>)
    ensures forall j, k | 0 <= j < |builders| && 0 <= k < |builders| && SharedBy(builders)(j, k) ::
              ValuesOf(builders)[j] == ValuesOf(builders)[k]
  {
  }

  lemma NothingPrepared(c: Config, start: seq<Mutation>)
    ensures HalfWay(c, start, 0) == start
  {
  }

  lemma AllPrepared(c: Config, start: seq<Mutation>)
    requires |start| == |c.hooks| && SharesWithSelf(c)
    ensures HalfWay(c, start, |start|) == WithDefaults(c.runtime, start)
  {
    forall k: nat | k < |start|
      ensures Reached(c, |start|, k)
    {
      assert c.shares(k, k);
    }
  }

  /** Builders that share a mutation see one value, and `defaults` called on it again changes nothing. */
  lemma OneMorePrepared(c: Config, start: seq<Mutation>, i: nat)
    requires i < |start| == |c.hooks|
    requires forall j, k | 0 <= j < |start| && 0 <= k < |start| && c.shares(j, k) :: start[j] == start[k]
    ensures HalfWay(c, start, i + 1) ==
            ValuesSet(c, HalfWay(c, start, i), i, WithDefaults(c.runtime, HalfWay(c, start, i))[i])
  {
    var wanted, before := WithDefaults(c.runtime, start), HalfWay(c, start, i);
    DefaultsTwice(c.runtime, start[i].fields, DEFAULT_ORDER);
    assert WithDefaults(c.runtime, before)[i] == wanted[i];
    forall k | 0 <= k < |start|
      ensures HalfWay(c, start, i + 1)[k] == if c.shares(i, k) then wanted[i] else before[k]
    {
      assert Reached(c, i + 1, k) <==> Reached(c, i, k) || c.shares(i, k);
    }
  }

  class AccountCreateBulk {
    const failed: bool                       // `MapCreateBulk` was given something that is not a slice
    const builders: seq<AccountCreate>

    constructor (failed: bool, builders: seq<AccountCreate>)
      ensures this.failed == failed && this.builders == builders
    {
      this.failed, this.builders := failed, builders;
    }

    /** `Save`. None stands for an error; `run` shows what happened. */
    method Save(runtime: Runtime, insert: seq<Option<CreateSpec>> -> Option<seq<Option<int>>>)
      returns (saved: Option<seq<Option<Created>>>, run: BulkRun)
      modifies MutationsOf(builders)
      ensures fresh(run) && run.builders == builders && run.Valid()
      ensures run.config.runtime == runtime && run.config.insert == insert
      ensures failed ==> saved.None? && run.batches == [] && ValuesOf(builders) == old(ValuesOf(builders))
      ensures !failed ==>
                var (t, ok) := SaveRun(run.config, old(ValuesOf(builders)));
                run.View() == t && saved == if ok then Some(t.nodes) else None
    {
      run := new BulkRun(builders, runtime, insert);
      if failed {
        assert ValuesOf(builders) == old(ValuesOf(builders));
        return None, run;
      }
      PrepareAll(run);
      if run.mutators.Length > 0 {
        var ok := run.Invoke(run.mutators[0], 0, 0);
        if !ok {
          return None, run;
        }
      }
      saved := Some(run.nodes[..]);
    }

    /** The loop of `Save` over the builders. */
    method PrepareAll(run: BulkRun)
      requires run.Valid() && run.builders == builders
      requires run.View() == State(ValuesOf(builders), seq(|builders|, _ => None), seq(|builders|, _ => None), [], [])
      modifies run.mutators, MutationsOf(builders)
      ensures run.View() == Prepared(run.config, old(ValuesOf(builders))) && run.ChainsBuilt()
    {
      ghost var start := ValuesOf(builders);
      SharersAgree(builders);
      NothingPrepared(run.config, start);
      for i := 0 to |builders|
        invariant ValuesOf(builders) == HalfWay(run.config, start, i)
        invariant forall k | 0 <= k < i :: run.mutators[k] == Chain(builders[k].hooks, k, 0)
      {
        OneMorePrepared(run.config, start, i);
        PrepareBuilder(run, i);
      }
      AllPrepared(run.config, start);
      assert run.specs[..] == old(run.specs[..]) && run.nodes[..] == old(run.nodes[..]);
    }

    /** One iteration of the loop of `Save`: defaults, whose error is dropped, and the chain of hooks. */
    method PrepareBuilder(run: BulkRun, i: nat)
      requires run.Valid() && run.builders == builders && i < |builders|
      modifies run.mutators, builders[i].mutation`fields
      ensures run.mutators[i] == Chain(builders[i].hooks, i, 0)
      ensures forall k | 0 <= k < |builders| && k != i :: run.mutators[k] == old(run.mutators[k])
      ensures ValuesOf(builders) ==
              ValuesSet(run.config, old(ValuesOf(builders)), i,
                        WithDefaults(run.config.runtime, old(ValuesOf(builders)))[i])
    {
      var _ := builders[i].Defaults(run.config.runtime);
      assert ValuesOf(builders) ==
             ValuesSet(run.config, old(ValuesOf(builders)), i,
                       WithDefaults(run.config.runtime, old(ValuesOf(builders)))[i]);
      var mut := BuildChain(builders[i], i);
      run.mutators[i] := mut;
    }

    /** The inner loop: the last hook of the list ends up innermost. */
    method BuildChain(builder: AccountCreate, i: nat) returns (mut: Mutator)
      ensures mut == Chain(builder.hooks, i, 0)
    {
      mut := Base(i);
      for h := |builder.hooks| downto 0
        invariant mut == Chain(builder.hooks, i, h)
      {
        mut := Wrapped(i, h, builder.hooks[h], mut);
      }
    }
  }
}
