/** Every asynchronous call can finish, whatever the others are doing. */
module AsyncProgress {

  import opened AsyncRuns
  import opened Wrappers

  /** Fragment results still to arrive. */
  function Missing(got: seq<Option<seq<Row>>>): nat {
    if got == [] then 0 else (if got[0].None? then 1 else 0) + Missing(got[1..])
  }

  /** Gathering comes before sending, and sending before the end. */
  function Rank(c: Call): nat {
    match c.phase
    case Gathering(_) => 2
    case Fetching(_, _) => 1
    case Direct(_, _) => 1
    case Done(_) => 0
  }

  /** What is left of the current phase: results to arrive, or rows to send and the end to notice. */
  function Left(s: State, c: Call): nat {
    match c.phase
    case Gathering(got) => Missing(got)
    case Fetching(k, _) => if k in s.databases then |s.databases[k].pending| else 0
    case Direct(rest, _) => |rest|
    case Done(_) => 0
  }

  predicate Closer(t: State, s: State, i: nat)
    requires i < |s.calls| && i < |t.calls|
  {
    t.calls[i].plan == s.calls[i].plan && t.calls[i].mode == s.calls[i].mode &&
    (Rank(t.calls[i]) < Rank(s.calls[i]) || (Rank(t.calls[i]) == Rank(s.calls[i]) && Left(t, t.calls[i]) < Left(s, s.calls[i])))
  }

  lemma {:induction false} ArrivalCounts(got: seq<Option<seq<Row>>>, k: nat, rows: seq<Row>)
    requires k < |got| && got[k].None?
    ensures Missing(got[k := Some(rows)]) == Missing(got) - 1
  {
    if k > 0 {
      ArrivalCounts(got[1..], k - 1, rows);
      assert got[k := Some(rows)][1..] == got[1..][k - 1 := Some(rows)];
    } else {
      assert got[k := Some(rows)][1..] == got[1..];
    }
  }

  lemma Arrives(w: World, s: State, i: nat, k: nat)
    requires i < |s.calls| && s.calls[i].phase.Gathering? && k < |s.calls[i].phase.got| && s.calls[i].phase.got[k].None?
    ensures Enabled(s, Arrive(i, k))
    ensures var t := Next(w, s, Arrive(i, k)); |t.calls| == |s.calls| && Closer(t, s, i)
  {
    var c := s.calls[i];
    var answer := w.answer(if k < |c.plan.fragments| then c.plan.fragments[k] else Fragment("", []));
    ArrivalCounts(c.phase.got, k, answer);
  }

  lemma Merges(w: World, s: State, i: nat)
    requires i < |s.calls| && s.calls[i].phase.Gathering? && AllGot(s.calls[i].phase.got) && s.shared.None?
    ensures Enabled(s, Merge(i))
    ensures var t := Next(w, s, Merge(i)); |t.calls| == |s.calls| && Closer(t, s, i)
  {
    hide Selected, Loaded, Opened, CanStream;
  }

  lemma Fetches(w: World, s: State, i: nat)
    requires Isolated(w, s) && i < |s.calls| && (s.calls[i].phase.Fetching? || s.calls[i].phase.Direct?)
    ensures Enabled(s, Fetch(i))
    ensures var t := Next(w, s, Fetch(i)); |t.calls| == |s.calls| && Closer(t, s, i)
  {
    hide Expected, Concat, ChunksOk, Compiled, Apart;
    assert CallOk(w, s, s.calls[i]);
  }

  /** A call that is not done can always take a step that brings it closer to the end. */
  lemma Progress(w: World, s: State, i: nat)
    requires Isolated(w, s) && i < |s.calls| && !s.calls[i].phase.Done?
    ensures exists step: Step :: !step.Begin? && Enabled(s, step) && |Next(w, s, step).calls| == |s.calls| && Closer(Next(w, s, step), s, i)
  {
    hide Isolated, Next, Enabled, Closer;
    if s.calls[i].phase.Gathering? {
      var got := s.calls[i].phase.got;
      if k :| 0 <= k < |got| && got[k].None? {
        Arrives(w, s, i, k);
        assert !Arrive(i, k).Begin?;
      } else {
        assert s.shared.None? by { NotShared(w, s); }
        Merges(w, s, i);
        assert !Merge(i).Begin?;
      }
    } else {
      Fetches(w, s, i);
      assert !Fetch(i).Begin?;
    }
  }

  lemma NotShared(w: World, s: State)
    requires Isolated(w, s)
    ensures s.shared.None?
  {
  }

  lemma {:induction false} CanFinish(w: World, s: State, i: nat) returns (steps: seq<Step>, final: State)
    requires WellShaped(w) && Isolated(w, s) && i < |s.calls|
    ensures Runs(w, s, steps, final) && i < |final.calls| && final.calls[i].phase.Done? && final.calls[i].plan == s.calls[i].plan
    ensures forall step | step in steps :: !step.Begin?
    decreases Rank(s.calls[i]), Left(s, s.calls[i])
  {
    hide Isolated, Next, WellShaped, Enabled;
    if s.calls[i].phase.Done? {
      steps, final := [], s;
    } else {
      Progress(w, s, i);
      var step: Step :| !step.Begin? && Enabled(s, step) && |Next(w, s, step).calls| == |s.calls| && Closer(Next(w, s, step), s, i);
      StepKeeps(w, s, step);
      var rest;
      rest, final := CanFinish(w, Next(w, s, step), i);
      steps := [step] + rest;
      assert steps[0] == step && steps[1..] == rest;
    }
  }

  /** From every state that calls on private connections reach, each of them can still finish, without new calls and with its own rows. */
  lemma EachCanFinish(w: World, steps: seq<Step>, s: State, i: nat) returns (more: seq<Step>, final: State)
    requires WellShaped(w) && AllCompiled(steps) && Runs(w, Fresh(None), steps, s) && i < |s.calls|
    ensures Runs(w, s, more, final) && i < |final.calls| && final.calls[i].phase.Done? && final.calls[i].plan == s.calls[i].plan
    ensures Concat(final.calls[i].phase.sent) == Expected(w, s.calls[i].plan)
  {
    hide Runs, WellShaped, Compiled, Isolated, CallOk, Expected, Concat;
    assert Isolated(w, Fresh(None)) by { FreshIsolated(w); }
    AlwaysIsolated(w, Fresh(None), steps, s);
    more, final := CanFinish(w, s, i);
    assert AllCompiled(more);
    AlwaysIsolated(w, s, more, final);
    DoneIsExpected(w, final, i);
  }

  lemma FreshIsolated(w: World)
    ensures Isolated(w, Fresh(None))
  {
  }

  lemma DoneIsExpected(w: World, s: State, i: nat)
    requires Isolated(w, s) && i < |s.calls| && s.calls[i].phase.Done?
    ensures Concat(s.calls[i].phase.sent) == Expected(w, s.calls[i].plan)
  {
    hide Expected, Concat, ChunksOk, Compiled, Apart;
    assert CallOk(w, s, s.calls[i]);
  }
}
