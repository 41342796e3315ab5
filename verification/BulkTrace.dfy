/** The order of events in a run of the mutator chain. */
module BulkTrace {
  import opened Wrappers
  import opened AccountFields
  import opened BulkChain

  type Frame = (nat, nat)

  /** Walks through the events with the stack of hooks that are under way. It fails if a hook returns that is not
      the innermost one. */
  function Replay(stack: seq<Frame>, events: seq<Event>): Option<seq<Frame>>
    decreases events
  {
    if events == [] then Some(stack)
    else
      match events[0]
      case Enter(i, h) => Replay(stack + [(i, h)], events[1..])
      case Exit(i, h) =>
        if stack != [] && stack[|stack| - 1] == (i, h) then Replay(stack[..|stack| - 1], events[1..]) else None
      case _ => Replay(stack, events[1..])
  }

  /** The way down through all hooks and checks, from hook `h` of builder `i` to the insert. */
  function Descent(c: Config, i: nat, h: nat): (d: seq<Event>)
    requires i < |c.hooks| && h <= |c.hooks[i]|
    decreases |c.hooks| - i, |c.hooks[i]| - h
  {
    if h < |c.hooks[i]| then [Enter(i, h)] + Descent(c, i, h + 1)
    else [Check(i)] + if i < |c.hooks| - 1 then Descent(c, i + 1, 0) else []
  }

  /** The way back up, if nothing fails. */
  function Ascent(c: Config, i: nat, h: nat): seq<Event>
    requires i < |c.hooks| && h <= |c.hooks[i]|
    decreases |c.hooks| - i, |c.hooks[i]| - h
  {
    if h < |c.hooks[i]| then Ascent(c, i, h + 1) + [Exit(i, h)]
    else (if i < |c.hooks| - 1 then Ascent(c, i + 1, 0) else []) + [Done(i)]
  }

  /** The hooks from hook `h` of builder `i` on, outermost first. */
  function Frames(c: Config, i: nat, h: nat): seq<Frame>
    requires i < |c.hooks| && h <= |c.hooks[i]|
    decreases |c.hooks| - i, |c.hooks[i]| - h
  {
    if h < |c.hooks[i]| then [(i, h)] + Frames(c, i, h + 1)
    else if i < |c.hooks| - 1 then Frames(c, i + 1, 0)
    else []
  }

  predicate ReturnsOnly(events: seq<Event>) {
    forall e | e in events :: e.Exit? || e.Done?
  }

  lemma {:induction false} ReplayConcat(stack: seq<Frame>, a: seq<Event>, b: seq<Event>)
    ensures Replay(stack, a + b) == if Replay(stack, a).Some? then Replay(Replay(stack, a).value, b) else None
    decreases a
  {
    if a == [] {
      assert a + b == b;
    } else {
      assert (a + b)[0] == a[0] && (a + b)[1..] == a[1..] + b;
      match a[0]
      case Enter(i, h) => ReplayConcat(stack + [(i, h)], a[1..], b);
      case Exit(i, h) =>
        if stack != [] && stack[|stack| - 1] == (i, h) {
          ReplayConcat(stack[..|stack| - 1], a[1..], b);
        }
      case _ => ReplayConcat(stack, a[1..], b);
    }
  }

  lemma ReplayQuiet(stack: seq<Frame>, e: Event, rest: seq<Event>)
    requires !e.Enter? && !e.Exit?
    ensures Replay(stack, [e] + rest) == Replay(stack, rest)
  {
    assert ([e] + rest)[1..] == rest;
  }

  lemma ReplayEnter(stack: seq<Frame>, i: nat, h: nat, rest: seq<Event>)
    ensures Replay(stack, [Enter(i, h)] + rest) == Replay(stack + [(i, h)], rest)
  {
    assert ([Enter(i, h)] + rest)[1..] == rest;
  }

  /** At the insert all hooks of all builders are under way, hook 0 of builder 0 outermost. */
  lemma {:induction false} InsertIsInnermost(c: Config, i: nat, h: nat, stack: seq<Frame>)
    requires i < |c.hooks| && h <= |c.hooks[i]|
    ensures Replay(stack, Descent(c, i, h)) == Some(stack + Frames(c, i, h))
    decreases |c.hooks| - i, |c.hooks[i]| - h
  {
    if h < |c.hooks[i]| {
      InsertIsInnermost(c, i, h + 1, stack + [(i, h)]);
      InnermostOfHook(c, i, h, stack);
    } else {
      if i < |c.hooks| - 1 {
        InsertIsInnermost(c, i + 1, 0, stack);
      }
      InnermostOfBase(c, i, stack);
    }
  }

  lemma InnermostOfHook(c: Config, i: nat, h: nat, stack: seq<Frame>)
    requires i < |c.hooks| && h < |c.hooks[i]|
    requires Replay(stack + [(i, h)], Descent(c, i, h + 1)) == Some(stack + [(i, h)] + Frames(c, i, h + 1))
    ensures Replay(stack, Descent(c, i, h)) == Some(stack + Frames(c, i, h))
  {
    ReplayEnter(stack, i, h, Descent(c, i, h + 1));
    assert stack + [(i, h)] + Frames(c, i, h + 1) == stack + ([(i, h)] + Frames(c, i, h + 1));
  }

  lemma InnermostOfBase(c: Config, i: nat, stack: seq<Frame>)
    requires i < |c.hooks|
    requires i < |c.hooks| - 1 ==> Replay(stack, Descent(c, i + 1, 0)) == Some(stack + Frames(c, i + 1, 0))
    ensures Replay(stack, Descent(c, i, |c.hooks[i]|)) == Some(stack + Frames(c, i, |c.hooks[i]|))
  {
    ReplayQuiet(stack, Check(i), if i < |c.hooks| - 1 then Descent(c, i + 1, 0) else []);
    assert stack + [] == stack;
  }

  /** `run` is what one run adds to the trace: the first `k` events of the way down, the insert if the way down was
      completed and it ran, and then only returns, the inner ones first. */
  ghost predicate WellNested(c: Config, i: nat, h: nat, run: seq<Event>, k: nat, up: seq<Event>, inserted: bool,
                             ok: bool, stack: seq<Frame>)
    requires i < |c.hooks| && h <= |c.hooks[i]|
  {
    && k <= |Descent(c, i, h)| && (inserted ==> k == |Descent(c, i, h)|)
    && run == Descent(c, i, h)[..k] + (if inserted then [Insert] else []) + up
    && ReturnsOnly(up)
    && (ok ==> up == Ascent(c, i, h))
    && Replay(stack, run) == Some(stack)
  }

  lemma WrapInHook(c: Config, i: nat, h: nat, inner: seq<Event>, k: nat, up: seq<Event>, inserted: bool, ok: bool,
                   content: bool, stack: seq<Frame>)
    requires i < |c.hooks| && h < |c.hooks[i]|
    requires WellNested(c, i, h + 1, inner, k, up, inserted, ok, stack + [(i, h)])
    ensures WellNested(c, i, h, [Enter(i, h)] + inner + [Exit(i, h)], k + 1, up + [Exit(i, h)], inserted,
                       ok && content, stack)
  {
    var d, mid := Descent(c, i, h + 1), if inserted then [Insert] else [];
    assert Descent(c, i, h) == [Enter(i, h)] + d;
    assert Descent(c, i, h)[..k + 1] == [Enter(i, h)] + d[..k];
    var run := [Enter(i, h)] + inner + [Exit(i, h)];
    assert run == Descent(c, i, h)[..k + 1] + mid + (up + [Exit(i, h)]);
    assert run[1..] == inner + [Exit(i, h)];
    ReplayConcat(stack + [(i, h)], inner, [Exit(i, h)]);
    assert (stack + [(i, h)])[..|stack|] == stack;
    assert Replay(stack + [(i, h)], [Exit(i, h)]) == Replay(stack, []);
  }

  lemma WrapInBase(c: Config, i: nat, inner: seq<Event>, k: nat, up: seq<Event>, inserted: bool, ok: bool,
                   stack: seq<Frame>)
    requires i < |c.hooks| - 1
    requires WellNested(c, i + 1, 0, inner, k, up, inserted, ok, stack)
    ensures var end := if ok then [Done(i)] else [];
            WellNested(c, i, |c.hooks[i]|, [Check(i)] + inner + end, k + 1, up + end, inserted, ok, stack)
  {
    var d, mid, end := Descent(c, i + 1, 0), if inserted then [Insert] else [], if ok then [Done(i)] else [];
    var h := |c.hooks[i]|;
    assert Descent(c, i, h) == [Check(i)] + d;
    assert Descent(c, i, h)[..k + 1] == [Check(i)] + d[..k];
    var run := [Check(i)] + inner + end;
    assert run == Descent(c, i, h)[..k + 1] + mid + (up + end);
    assert run[1..] == inner + end;
    ReplayConcat(stack, inner, end);
    assert ok ==> end[1..] == [];
    assert Replay(stack, end) == Some(stack);
  }

  /** A hook that does not let the mutation through. */
  lemma RejectedRun(c: Config, i: nat, h: nat, stack: seq<Frame>)
    requires i < |c.hooks| && h < |c.hooks[i]|
    ensures WellNested(c, i, h, [Enter(i, h), Exit(i, h)], 1, [Exit(i, h)], false, false, stack)
  {
    var run := [Enter(i, h), Exit(i, h)];
    assert Descent(c, i, h)[..1] == [Enter(i, h)];
    assert run == [Enter(i, h)] + [] + [Exit(i, h)];
    assert run[1..] == [Exit(i, h)] && [Exit(i, h)][1..] == [];
    assert (stack + [(i, h)])[..|stack|] == stack;
    assert Replay(stack + [(i, h)], [Exit(i, h)]) == Replay(stack, []);
  }

  /** A check that fails. */
  lemma UncheckedRun(c: Config, i: nat, stack: seq<Frame>)
    requires i < |c.hooks|
    ensures WellNested(c, i, |c.hooks[i]|, [Check(i)], 1, [], false, false, stack)
  {
    assert Descent(c, i, |c.hooks[i]|)[..1] == [Check(i)];
    assert [Check(i)] == [Check(i)] + [] + [];
    assert [Check(i)][1..] == [];
  }

  /** The base mutator of the last builder. */
  lemma InsertRun(c: Config, ok: bool, stack: seq<Frame>)
    requires |c.hooks| > 0
    ensures var i, end := |c.hooks| - 1, if ok then [Done(|c.hooks| - 1)] else [];
            WellNested(c, i, |c.hooks[i]|, [Check(i), Insert] + end, 1, end, true, ok, stack)
  {
    var i, end := |c.hooks| - 1, if ok then [Done(|c.hooks| - 1)] else [];
    assert Descent(c, i, |c.hooks[i]|) == [Check(i)];
    assert [Check(i), Insert] + end == [Check(i)] + ([Insert] + end);
    ReplayQuiet(stack, Check(i), [Insert] + end);
    ReplayQuiet(stack, Insert, end);
    if ok {
      ReplayQuiet(stack, Done(i), []);
      assert [Done(i)] + [] == end;
    }
  }

  /** `run` is what the chain adds to the trace, and it is well nested. */
  ghost predicate RunIs(c: Config, i: nat, h: nat, s: State, run: seq<Event>, k: nat, up: seq<Event>,
                        stack: seq<Frame>)
    requires i < |c.hooks| && h <= |c.hooks[i]| && Fits(c, s)
  {
    var (t, ok) := Mutate(c, i, h, s);
    t.trace == s.trace + run && WellNested(c, i, h, run, k, up, t.batches != s.batches, ok, stack)
  }

  lemma RunOfHook(c: Config, i: nat, h: nat, s: State, next: State, inner: seq<Event>, k: nat, up: seq<Event>,
                  stack: seq<Frame>)
    requires i < |c.hooks| && h < |c.hooks[i]| && Fits(c, s) && c.hooks[i][h].enter(s.mutations[i].fields).Some?
    requires next == SetShared(c, Log(s, Enter(i, h)), i,
                               s.mutations[i].(fields := c.hooks[i][h].enter(s.mutations[i].fields).value))
    requires RunIs(c, i, h + 1, next, inner, k, up, stack + [(i, h)])
    ensures RunIs(c, i, h, s, [Enter(i, h)] + inner + [Exit(i, h)], k + 1, up + [Exit(i, h)], stack)
  {
    var (t, ok) := Mutate(c, i, h + 1, next);
    WrapInHook(c, i, h, inner, k, up, t.batches != next.batches, ok, c.hooks[i][h].leave(t.mutations[i].fields), stack);
    var run := [Enter(i, h)] + inner + [Exit(i, h)];
    assert ((s.trace + [Enter(i, h)]) + inner) + [Exit(i, h)] == s.trace + run;
  }

  lemma RunOfBase(c: Config, i: nat, s: State, inner: seq<Event>, k: nat, up: seq<Event>, stack: seq<Frame>)
    requires i < |c.hooks| - 1 && Fits(c, s) && Checked(c.runtime, s.mutations[i].fields)
    requires RunIs(c, i + 1, 0, Build(Log(s, Check(i)), i), inner, k, up, stack)
    ensures var end := if Mutate(c, i + 1, 0, Build(Log(s, Check(i)), i)).1 then [Done(i)] else [];
            RunIs(c, i, |c.hooks[i]|, s, [Check(i)] + inner + end, k + 1, up + end, stack)
  {
    var built := Build(Log(s, Check(i)), i);
    var (t, ok) := Mutate(c, i + 1, 0, built);
    var end := if ok then [Done(i)] else [];
    WrapInBase(c, i, inner, k, up, t.batches != built.batches, ok, stack);
    assert Mutate(c, i, |c.hooks[i]|, s) == if ok then (FinishShared(c, t, i), true) else (t, false);
    RegroupTrace(s.trace, [Check(i)], inner, end);
    assert t.trace + [] == t.trace;
  }

  lemma RegroupTrace(trace: seq<Event>, a: seq<Event>, b: seq<Event>, c: seq<Event>)
    ensures ((trace + a) + b) + c == trace + (a + b + c)
  {
  }

  lemma RunOfInsert(c: Config, s: State, stack: seq<Frame>)
    requires |c.hooks| > 0 && Fits(c, s) && Checked(c.runtime, s.mutations[|c.hooks| - 1].fields)
    ensures var i := |c.hooks| - 1;
            var end := if BatchCreate(c, Build(Log(s, Check(i)), i)).1 then [Done(i)] else [];
            RunIs(c, i, |c.hooks[i]|, s, [Check(i), Insert] + end, 1, end, stack)
  {
    var i := |c.hooks| - 1;
    var built := Build(Log(s, Check(i)), i);
    var (t, ok) := BatchCreate(c, built);
    var end := if ok then [Done(i)] else [];
    InsertRun(c, ok, stack);
    assert t.batches == s.batches + [built.specs];
    var run := [Check(i), Insert] + end;
    assert ((s.trace + [Check(i)]) + [Insert]) + end == s.trace + run;
  }

  lemma RunOfStop(c: Config, i: nat, h: nat, s: State, stack: seq<Frame>)
    requires i < |c.hooks| && h <= |c.hooks[i]| && Fits(c, s)
    ensures h < |c.hooks[i]| && c.hooks[i][h].enter(s.mutations[i].fields).None? ==>
              RunIs(c, i, h, s, [Enter(i, h), Exit(i, h)], 1, [Exit(i, h)], stack)
    ensures h == |c.hooks[i]| && !Checked(c.runtime, s.mutations[i].fields) ==>
              RunIs(c, i, h, s, [Check(i)], 1, [], stack)
  {
    if h < |c.hooks[i]| {
      RejectedRun(c, i, h, stack);
      assert (s.trace + [Enter(i, h)]) + [Exit(i, h)] == s.trace + [Enter(i, h), Exit(i, h)];
    } else {
      UncheckedRun(c, i, stack);
    }
  }

  /** Every run is well nested: each builder's hooks enter in list order, builder `i` encloses builder `i + 1`, the
      insert comes when every hook is under way, and every hook that was entered returns, the innermost first. */
  lemma {:induction false} RunsAreWellNested(c: Config, i: nat, h: nat, s: State, stack: seq<Frame>)
    returns (run: seq<Event>, k: nat, up: seq<Event>)
    requires i < |c.hooks| && h <= |c.hooks[i]| && Fits(c, s)
    ensures RunIs(c, i, h, s, run, k, up, stack)
    decreases |c.hooks| - i, |c.hooks[i]| - h
  {
    RunOfStop(c, i, h, s, stack);
    if h < |c.hooks[i]| && c.hooks[i][h].enter(s.mutations[i].fields).Some? {
      var fields := c.hooks[i][h].enter(s.mutations[i].fields).value;
      var next := SetShared(c, Log(s, Enter(i, h)), i, s.mutations[i].(fields := fields));
      run, k, up := RunsAreWellNested(c, i, h + 1, next, stack + [(i, h)]);
      RunOfHook(c, i, h, s, next, run, k, up, stack);
      run, k, up := [Enter(i, h)] + run + [Exit(i, h)], k + 1, up + [Exit(i, h)];
    } else if h < |c.hooks[i]| {
      run, k, up := [Enter(i, h), Exit(i, h)], 1, [Exit(i, h)];
    } else if !Checked(c.runtime, s.mutations[i].fields) {
      run, k, up := [Check(i)], 1, [];
    } else if i < |c.hooks| - 1 {
      var built := Build(Log(s, Check(i)), i);
      run, k, up := RunsAreWellNested(c, i + 1, 0, built, stack);
      RunOfBase(c, i, s, run, k, up, stack);
      var end := if Mutate(c, i + 1, 0, built).1 then [Done(i)] else [];
      run, k, up := [Check(i)] + run + end, k + 1, up + end;
    } else {
      RunOfInsert(c, s, stack);
      var end := if BatchCreate(c, Build(Log(s, Check(i)), i)).1 then [Done(i)] else [];
      run, k, up := [Check(i), Insert] + end, 1, end;
    }
  }
}
