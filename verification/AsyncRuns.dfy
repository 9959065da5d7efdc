/** Concurrent calls on one asynchronous engine, as a state machine. */
module AsyncRuns {

  /*
    A step is the stretch between two awaits: fragment answers arrive in any
    order, a merge loads and queries one database connection, and streams fetch
    chunk by chunk.
  */

  import opened Wrappers
  import opened Sequences

  type Row = seq<int>

  datatype Fragment = Fragment(query: string, columns: seq<string>)

  /** A merged output: how it aggregates or buckets its source column of a fragment, if at all. */
  datatype Output = Output(recipe: string, fragment: nat, column: string)

  /** The merge: outputs over the primary fragment and its bridges, and any further clauses. */
  datatype Spec = Spec(primary: nat, bridges: nat, dimensions: seq<Output>, measures: seq<Output>, clauses: seq<string>)

  datatype Plan = Plan(fragments: seq<Fragment>, spec: Spec, columns: seq<string>)

  type Tables = map<nat, seq<Row>>

  /** What adapters answer and what a merge other than a plain projection selects from a database. */
  datatype World = World(answer: Fragment -> seq<Row>, select: (Spec, Tables) -> seq<Row>)

  /** A database holds tables and the result of its last statement, not yet fetched. */
  datatype Database = Database(tables: Tables, pending: seq<Row>)

  /** A whole-result call, or a stream in chunks of a size. */
  datatype Mode = Whole | Chunked(size: nat)

  datatype Phase =
    | Gathering(got: seq<Option<seq<Row>>>)
    | Fetching(connection: nat, sent: seq<seq<Row>>)
    | Direct(rest: seq<Row>, sent: seq<seq<Row>>)
    | Done(sent: seq<seq<Row>>)

  datatype Call = Call(plan: Plan, mode: Mode, phase: Phase)

  /** `shared` is a connection the caller supplied; otherwise each merge opens its own. */
  datatype State = State(calls: seq<Call>, databases: map<nat, Database>, next: nat, shared: Option<nat>)

  datatype Step = Begin(plan: Plan, mode: Mode) | Arrive(call: nat, fragment: nat) | Merge(call: nat) | Fetch(call: nat)

  // ----------------------------------------------------------------- one merge

  /** Fragment results become the tables `frag_0`, `frag_1`, ... */
  function Loaded(tables: Tables, results: seq<seq<Row>>): Tables {
    if results == [] then tables else
      var n := |results| - 1;
      Loaded(tables, results[..n])[n := results[n]]
  }

  /** Table i holds result i, and tables beyond the results stay as they were. */
  lemma {:induction false} LoadedIs(tables: Tables, results: seq<seq<Row>>)
    ensures forall k: nat :: k in Loaded(tables, results) <==> k in tables || k < |results|
    ensures forall k: nat | k in Loaded(tables, results) ::
              if k < |results| then Loaded(tables, results)[k] == results[k] else k in tables && Loaded(tables, results)[k] == tables[k]
  {
    if results != [] {
      var n := |results| - 1;
      LoadedIs(tables, results[..n]);
      var before := Loaded(tables, results[..n]);
      assert Loaded(tables, results) == before[n := results[n]];
      forall k: nat ensures k in before <==> k in tables || k < n {
      }
    }
  }

  method LoadFragments(tables0: Tables, results: seq<seq<Row>>) returns (tables: Tables)
    ensures tables == Loaded(tables0, results)
    ensures forall k | k in tables :: if k < |results| then tables[k] == results[k] else k in tables0 && tables[k] == tables0[k]
  {
    tables := tables0;
    for i := 0 to |results|
      invariant tables == Loaded(tables0, results[..i])
    {
      assert results[..i + 1][..i] == results[..i];
      tables := tables[i := results[i]];
    }
    assert results[..|results|] == results;
    LoadedIs(tables0, results);
  }

  function Answers(w: World, fragments: seq<Fragment>): (rs: seq<seq<Row>>)
    ensures |rs| == |fragments| && forall k | 0 <= k < |fragments| :: rs[k] == w.answer(fragments[k])
  {
    seq(|fragments|, k requires 0 <= k < |fragments| => w.answer(fragments[k]))
  }

  // ------------------------------------------------------- plain projections

  function Outputs(spec: Spec): seq<Output> {
    spec.dimensions + spec.measures
  }

  /** What a plan compiled for one backend asks of the merge: its columns, in order, and nothing else. */
  predicate IsPlain(p: Plan) {
    && |p.fragments| == 1 && p.spec.primary == 0 && p.spec.bridges == 0 && p.spec.clauses == []
    && |Outputs(p.spec)| == |p.columns| == |p.fragments[0].columns|
    && forall i | 0 <= i < |Outputs(p.spec)| :: Outputs(p.spec)[i] == Output("passthrough", 0, p.fragments[0].columns[i])
  }

  function Projected(columns: seq<string>, outputs: seq<Output>, row: Row): Row
    requires |row| == |columns| && forall o | o in outputs :: o.column in columns
  {
    seq(|outputs|, i requires 0 <= i < |outputs| => row[IndexOf(columns, outputs[i].column)])
  }

  predicate Fits(p: Plan, rows: seq<Row>) {
    IsPlain(p) && (forall o | o in Outputs(p.spec) :: o.column in p.fragments[0].columns) && forall row | row in rows :: |row| == |p.fragments[0].columns|
  }

  /** The rows the merge selects: a plain projection reads the one table column by column. */
  function Selected(w: World, p: Plan, tables: Tables): seq<Row> {
    if 0 in tables && Fits(p, tables[0])
    then seq(|tables[0]|, i requires 0 <= i < |tables[0]| => Projected(p.fragments[0].columns, Outputs(p.spec), tables[0][i]))
    else w.select(p.spec, tables)
  }

  /** The rows a plan yields on its own. */
  function Expected(w: World, p: Plan): seq<Row> {
    Selected(w, p, Loaded(map[], Answers(w, p.fragments)))
  }

  /** The engine's test for streaming a fragment past the merge; it looks neither at clauses nor at dimensions. */
  predicate CanStream(p: Plan) {
    && |p.fragments| == 1 && p.spec.primary == 0 && p.spec.bridges == 0
    && (forall m | m in p.spec.measures :: m.recipe == "passthrough")
    && p.fragments[0].columns == p.columns
  }

  /** The compiler's single-fragment plans are plain, over columns that differ. */
  predicate Compiled(p: Plan) {
    CanStream(p) ==> IsPlain(p) && Distinct(p.columns)
  }

  /** Adapters answer with the columns a fragment declares. */
  ghost predicate WellShaped(w: World) {
    forall f: Fragment :: forall row | row in w.answer(f) :: |row| == |f.columns|
  }

  lemma ProjectedSame(columns: seq<string>, outputs: seq<Output>, row: Row)
    requires |row| == |columns| == |outputs| && Distinct(columns)
    requires forall i | 0 <= i < |outputs| :: outputs[i] == Output("passthrough", 0, columns[i])
    requires forall o | o in outputs :: o.column in columns
    ensures Projected(columns, outputs, row) == row
  {
    forall i | 0 <= i < |row| ensures IndexOf(columns, outputs[i].column) == i {
      var k := IndexOf(columns, columns[i]);
      assert columns[k] == columns[i];
    }
  }

  /** Streaming a compiled plan's fragment sends what its merge would select. */
  lemma StreamedIsMerged(w: World, p: Plan)
    requires CanStream(p) && Compiled(p) && WellShaped(w)
    ensures Expected(w, p) == w.answer(p.fragments[0])
  {
    var columns, outputs, rows := p.fragments[0].columns, Outputs(p.spec), w.answer(p.fragments[0]);
    var answers := Answers(w, p.fragments);
    assert answers[..0] == [] && Loaded(map[], answers) == map[0 := rows];
    forall o | o in outputs ensures o.column in columns {
      var i :| 0 <= i < |outputs| && outputs[i] == o;
      assert o.column == columns[i];
    }
    assert Fits(p, rows);
    forall i | 0 <= i < |rows| ensures Projected(columns, outputs, rows[i]) == rows[i] {
      assert rows[i] in rows;
      ProjectedSame(columns, outputs, rows[i]);
    }
  }

  /** A plan the compiler does not make: its merge has a clause, and streaming skips it. */
  lemma ClausesAreSkipped() returns (w: World, p: Plan)
    ensures WellShaped(w) && CanStream(p) && !Compiled(p) && Expected(w, p) != w.answer(p.fragments[0])
  {
    var f := Fragment("q", ["x"]);
    w := World(g => if g == f then [[1]] else [], (_, _) => []);
    p := Plan([f], Spec(0, 0, [], [Output("passthrough", 0, "x")], ["LIMIT 0"]), ["x"]);
  }

  predicate AllGot(got: seq<Option<seq<Row>>>) {
    forall k | 0 <= k < |got| :: got[k].Some?
  }

  function Values(got: seq<Option<seq<Row>>>): (rs: seq<seq<Row>>)
    requires AllGot(got)
    ensures |rs| == |got| && forall k | 0 <= k < |got| :: rs[k] == got[k].value
  {
    seq(|got|, k requires 0 <= k < |got| => got[k].value)
  }

  // ------------------------------------------------------------------- chunks

  function Take(rows: seq<Row>, n: nat): seq<Row> {
    if |rows| <= n then rows else rows[..n]
  }

  function Drop(rows: seq<Row>, n: nat): seq<Row> {
    if |rows| <= n then [] else rows[n..]
  }

  /** Pull up to `size` rows from an iterator. */
  method NextChunk(rows: seq<Row>, size: nat) returns (chunk: seq<Row>, rest: seq<Row>)
    ensures chunk == Take(rows, size) && rest == Drop(rows, size)
    ensures chunk + rest == rows && |chunk| <= size && (|chunk| < size ==> rest == [])
  {
    chunk, rest := [], rows;
    for i := 0 to size
      invariant chunk == Take(rows, i) && rest == Drop(rows, i)
    {
      if rest == [] {
        return;
      }
      chunk := chunk + [rest[0]];
      rest := rest[1..];
    }
  }

  function Concat(chunks: seq<seq<Row>>): seq<Row> {
    if chunks == [] then [] else Concat(chunks[..|chunks| - 1]) + chunks[|chunks| - 1]
  }

  lemma ConcatMore(chunks: seq<seq<Row>>, chunk: seq<Row>)
    ensures Concat(chunks + [chunk]) == Concat(chunks) + chunk
  {
    assert (chunks + [chunk])[..|chunks|] == chunks;
  }

  lemma TakeDrop(rows: seq<Row>, n: nat)
    ensures Take(rows, n) + Drop(rows, n) == rows && |Take(rows, n)| <= n
    ensures n > 0 && rows != [] ==> Take(rows, n) != []
  {
  }

  // -------------------------------------------------------------------- steps

  predicate Enabled(s: State, step: Step) {
    match step
    case Begin(_, mode) => mode.Chunked? ==> mode.size > 0
    case Arrive(i, k) => i < |s.calls| && s.calls[i].phase.Gathering? && k < |s.calls[i].phase.got|
    case Merge(i) => i < |s.calls| && s.calls[i].phase.Gathering? && AllGot(s.calls[i].phase.got) && Connected(s)
    case Fetch(i) =>
      i < |s.calls| && s.calls[i].mode.Chunked? &&
      (s.calls[i].phase.Direct? || (s.calls[i].phase.Fetching? && s.calls[i].phase.connection in s.databases))
  }

  /** No answer yet. */
  function Waiting(n: nat): (got: seq<Option<seq<Row>>>)
    ensures |got| == n && forall k | 0 <= k < n :: got[k].None?
  {
    seq(n, _ => None)
  }

  predicate Connected(s: State) {
    s.shared.Some? ==> s.shared.value in s.databases
  }

  function WithPhase(s: State, i: nat, phase: Phase): State
    requires i < |s.calls|
  {
    s.(calls := s.calls[i := s.calls[i].(phase := phase)])
  }

  /** A caller's connection is reused after dropping old fragment tables; otherwise a new one is opened. */
  function Opened(s: State, n: nat): Tables
    requires Connected(s)
  {
    match s.shared
    case None => map[]
    case Some(c) => map k | k in s.databases[c].tables && k >= (if n > 32 then n else 32) :: s.databases[c].tables[k]
  }

  function ConnectionOf(s: State): nat {
    match s.shared case None => s.next case Some(c) => c
  }

  /** Load, run the merge, and either fetch everything or start a stream. */
  function MergeStep(w: World, s: State, i: nat): State
    requires Enabled(s, Merge(i))
  {
    var call := s.calls[i];
    var results := Values(call.phase.got);
    if CanStream(call.plan) && call.mode.Chunked? && |results| == 1 then WithPhase(s, i, Direct(results[0], []))
    else
      var tables := Loaded(Opened(s, |results|), results);
      var rows := Selected(w, call.plan, tables);
      var c := ConnectionOf(s);
      var later := s.(next := if s.shared.None? then s.next + 1 else s.next);
      match call.mode
      case Whole =>
        WithPhase(if s.shared.None? then later else later.(databases := s.databases[c := Database(tables, [])]), i, Done([rows]))
      case Chunked(_) => WithPhase(later.(databases := s.databases[c := Database(tables, rows)]), i, Fetching(c, []))
  }

  function FetchStep(s: State, i: nat): State
    requires Enabled(s, Fetch(i))
  {
    var call := s.calls[i];
    var size := call.mode.size;
    match call.phase
    case Direct(rest, sent) =>
      var chunk := Take(rest, size);
      WithPhase(s, i, if chunk == [] then Done(sent) else Direct(Drop(rest, size), sent + [chunk]))
    case Fetching(c, sent) =>
      var db := s.databases[c];
      var chunk := Take(db.pending, size);
      if chunk == [] then WithPhase(s, i, Done(sent))
      else WithPhase(s.(databases := s.databases[c := db.(pending := Drop(db.pending, size))]), i, Fetching(c, sent + [chunk]))
  }

  function Next(w: World, s: State, step: Step): State
    requires Enabled(s, step)
  {
    match step
    case Begin(plan, mode) => s.(calls := s.calls + [Call(plan, mode, Gathering(Waiting(|plan.fragments|)))])
    case Arrive(i, k) =>
      var got := s.calls[i].phase.got;
      WithPhase(s, i, Gathering(got[k := Some(w.answer(if k < |s.calls[i].plan.fragments| then s.calls[i].plan.fragments[k] else Fragment("", [])))]))
    case Merge(i) => MergeStep(w, s, i)
    case Fetch(i) => FetchStep(s, i)
  }

  /** A run of enabled steps, in whatever interleaving. */
  ghost predicate Runs(w: World, s: State, steps: seq<Step>, final: State)
    decreases |steps|
  {
    if steps == [] then final == s
    else Enabled(s, steps[0]) && Runs(w, Next(w, s, steps[0]), steps[1..], final)
  }

  function Fresh(shared: Option<nat>): State {
    match shared
    case None => State([], map[], 0, None)
    case Some(c) => State([], map[c := Database(map[], [])], c + 1, Some(c))
  }

  // ---------------------------------------------------------------- isolation

  predicate ChunksOk(sent: seq<seq<Row>>, size: nat) {
    forall k | 0 <= k < |sent| :: 0 < |sent[k]| <= size
  }

  /** What a call has sent and still holds adds up to its plan's own rows. */
  ghost predicate CallOk(w: World, s: State, c: Call) {
    && (c.mode.Chunked? ==> c.mode.size > 0) && Compiled(c.plan)
    && match c.phase
       case Gathering(got) =>
         |got| == |c.plan.fragments| && forall k | 0 <= k < |got| && got[k].Some? :: got[k].value == w.answer(c.plan.fragments[k])
       case Fetching(k, sent) =>
         c.mode.Chunked? && k in s.databases && Concat(sent) + s.databases[k].pending == Expected(w, c.plan) && ChunksOk(sent, c.mode.size)
       case Direct(rest, sent) =>
         c.mode.Chunked? && Concat(sent) + rest == Expected(w, c.plan) && ChunksOk(sent, c.mode.size)
       case Done(sent) =>
         Concat(sent) == Expected(w, c.plan) && (if c.mode.Chunked? then ChunksOk(sent, c.mode.size) else sent == [Expected(w, c.plan)])
  }

  /** No two streams share a connection. */
  predicate Apart(s: State) {
    forall i, j | 0 <= i < j < |s.calls| && s.calls[i].phase.Fetching? && s.calls[j].phase.Fetching? ::
      s.calls[i].phase.connection != s.calls[j].phase.connection
  }

  ghost predicate Isolated(w: World, s: State) {
    && s.shared.None? && Apart(s) && (forall k | k in s.databases :: k < s.next)
    && forall i | 0 <= i < |s.calls| :: CallOk(w, s, s.calls[i])
  }

  lemma OthersKept(w: World, s: State, t: State, i: nat)
    requires Isolated(w, s) && i < |s.calls| == |t.calls| && t.shared.None?
    requires forall j | 0 <= j < |s.calls| && j != i :: t.calls[j] == s.calls[j]
    requires forall j | 0 <= j < |s.calls| && j != i && s.calls[j].phase.Fetching? ::
               s.calls[j].phase.connection in t.databases && t.databases[s.calls[j].phase.connection] == s.databases[s.calls[j].phase.connection]
    requires CallOk(w, t, t.calls[i])
    ensures forall j | 0 <= j < |t.calls| :: CallOk(w, t, t.calls[j])
  {
    hide Expected, Concat, ChunksOk, Compiled;
    forall j | 0 <= j < |t.calls| ensures CallOk(w, t, t.calls[j]) {
      assert CallOk(w, s, s.calls[j]);
    }
  }

  lemma GatheredAnswers(w: World, s: State, i: nat)
    requires Isolated(w, s) && Enabled(s, Merge(i))
    ensures var call := s.calls[i];
            Values(call.phase.got) == Answers(w, call.plan.fragments) &&
            Selected(w, call.plan, Loaded(Opened(s, |call.phase.got|), Values(call.phase.got))) == Expected(w, call.plan)
  {
    assert CallOk(w, s, s.calls[i]);
  }

  lemma MergeKeeps(w: World, s: State, i: nat)
    requires Isolated(w, s) && WellShaped(w) && Enabled(s, Merge(i))
    ensures Isolated(w, MergeStep(w, s, i))
  {
    hide Expected, Loaded, Opened, Values, Answers, Selected, CanStream, Compiled, WellShaped;
    var t := MergeStep(w, s, i);
    var call := s.calls[i];
    assert CallOk(w, s, call);
    GatheredAnswers(w, s, i);
    if CanStream(call.plan) {
      StreamedIsMerged(w, call.plan);
    }
    assert CallOk(w, t, t.calls[i]) by {
      Sums(w, call.plan);
      assert Values(call.phase.got) == Answers(w, call.plan.fragments);
    }
    forall j | 0 <= j < |s.calls| && s.calls[j].phase.Fetching? ensures s.calls[j].phase.connection < s.next {
      assert CallOk(w, s, s.calls[j]);
    }
    OthersKept(w, s, t, i);
  }

  lemma Sums(w: World, p: Plan)
    ensures Concat([]) + Expected(w, p) == Expected(w, p) && Concat([Expected(w, p)]) == Expected(w, p)
    ensures |p.fragments| == 1 ==> Answers(w, p.fragments)[0] == w.answer(p.fragments[0])
  {
    hide Expected;
    ConcatMore([], Expected(w, p));
    assert [] + [Expected(w, p)] == [Expected(w, p)];
  }

  lemma ChunkSent(sent: seq<seq<Row>>, rest: seq<Row>, size: nat)
    requires ChunksOk(sent, size) && size > 0
    ensures Take(rest, size) == [] ==> rest == []
    ensures Take(rest, size) != [] ==>
              ChunksOk(sent + [Take(rest, size)], size) && Concat(sent + [Take(rest, size)]) + Drop(rest, size) == Concat(sent) + rest
  {
    hide Concat, Take, Drop;
    TakeDrop(rest, size);
    ConcatMore(sent, Take(rest, size));
    Regroup(Concat(sent), Take(rest, size), Drop(rest, size));
  }

  lemma Regroup(a: seq<Row>, b: seq<Row>, c: seq<Row>)
    ensures a + b + c == a + (b + c)
  {
  }

  lemma FetchKeeps(w: World, s: State, i: nat)
    requires Isolated(w, s) && Enabled(s, Fetch(i))
    ensures Isolated(w, FetchStep(s, i))
  {
    hide Expected, Take, Drop, Concat, ChunksOk;
    var t := FetchStep(s, i);
    var call := s.calls[i];
    assert CallOk(w, s, call);
    match call.phase {
      case Direct(rest, sent) =>
        ChunkSent(sent, rest, call.mode.size);
      case Fetching(c, sent) =>
        ChunkSent(sent, s.databases[c].pending, call.mode.size);
    }
    assert CallOk(w, t, t.calls[i]) by { EmptyTail(); }
    OthersKept(w, s, t, i);
  }

  lemma EmptyTail()
    ensures forall rows: seq<Row> :: rows + [] == rows
  {
  }

  lemma ArriveKeeps(w: World, s: State, i: nat, k: nat)
    requires Isolated(w, s) && Enabled(s, Arrive(i, k))
    ensures Isolated(w, Next(w, s, Arrive(i, k)))
  {
    hide Expected, Concat, ChunksOk;
    assert CallOk(w, s, s.calls[i]);
    OthersKept(w, s, Next(w, s, Arrive(i, k)), i);
  }

  lemma BeginKeeps(w: World, s: State, plan: Plan, mode: Mode)
    requires Isolated(w, s) && Enabled(s, Begin(plan, mode)) && Compiled(plan)
    ensures Isolated(w, Next(w, s, Begin(plan, mode)))
  {
    hide Expected, Concat, ChunksOk, Compiled;
    var t := Next(w, s, Begin(plan, mode));
    forall i | 0 <= i < |t.calls| ensures CallOk(w, t, t.calls[i]) {
      if i < |s.calls| {
        assert CallOk(w, s, s.calls[i]);
      }
    }
  }

  /** Calls run plans from the compiler. */
  predicate AllCompiled(steps: seq<Step>) {
    forall step | step in steps && step.Begin? :: Compiled(step.plan)
  }

  lemma StepKeeps(w: World, s: State, step: Step)
    requires Isolated(w, s) && WellShaped(w) && Enabled(s, step) && (step.Begin? ==> Compiled(step.plan))
    ensures Isolated(w, Next(w, s, step))
  {
    hide Isolated, WellShaped;
    match step
    case Begin(plan, mode) => BeginKeeps(w, s, plan, mode);
    case Arrive(i, k) => ArriveKeeps(w, s, i, k);
    case Merge(i) => MergeKeeps(w, s, i);
    case Fetch(i) => FetchKeeps(w, s, i);
  }

  /** Without a shared connection, every interleaving keeps every call on its own rows. */
  lemma {:induction false} AlwaysIsolated(w: World, s: State, steps: seq<Step>, final: State)
    requires Isolated(w, s) && WellShaped(w) && AllCompiled(steps) && Runs(w, s, steps, final)
    ensures Isolated(w, final)
    decreases |steps|
  {
    hide Isolated, WellShaped, Next, Compiled;
    if steps != [] {
      StepKeeps(w, s, steps[0]);
      AlwaysIsolated(w, Next(w, s, steps[0]), steps[1..], final);
    }
  }

  /**
    In every interleaving on private connections a finished call has sent the
    rows its plan yields alone: whole, or in chunks that are non-empty, no
    longer than asked, and concatenate to them.
  */
  lemma ConcurrentIsAlone(w: World, steps: seq<Step>, final: State, i: nat)
    requires WellShaped(w) && AllCompiled(steps) && Runs(w, Fresh(None), steps, final) && i < |final.calls| && final.calls[i].phase.Done?
    ensures var call := final.calls[i];
            Concat(call.phase.sent) == Expected(w, call.plan) &&
            (if call.mode.Chunked? then ChunksOk(call.phase.sent, call.mode.size) else call.phase.sent == [Expected(w, call.plan)])
  {
    hide Runs, WellShaped, Compiled;
    AlwaysIsolated(w, Fresh(None), steps, final);
    assert CallOk(w, final, final.calls[i]);
  }

  // ------------------------------------------------------ a shared connection

  const LEFT_SOURCE := Fragment("left", ["x"])
  const RIGHT_SOURCE := Fragment("right", ["x"])
  const TOTAL := Spec(0, 0, [], [Output("sum", 0, "x")], [])
  const LEFT := Plan([LEFT_SOURCE], TOTAL, ["x"])
  const RIGHT := Plan([RIGHT_SOURCE], TOTAL, ["x"])

  function TwoSources(): World {
    World(f => if f == LEFT_SOURCE then [[1]] else if f == RIGHT_SOURCE then [[2]] else [], (m: Spec, t: Tables) => if 0 in t then t[0] else [])
  }

  /** Both streams have their answers and neither has merged. */
  function BothReady(): State {
    State([Call(LEFT, Chunked(1), Gathering([Some([[1]])])), Call(RIGHT, Chunked(1), Gathering([Some([[2]])]))],
          map[0 := Database(map[], [])], 1, Some(0))
  }

  lemma BothMerge() returns (steps: seq<Step>, final: State)
    ensures Runs(TwoSources(), BothReady(), steps, final)
    ensures |final.calls| == 2 && final.calls[0].plan == LEFT && final.calls[0].phase == Done([[[2]]])
  {
    var w := TwoSources();
    var s5 := Next(w, BothReady(), Merge(0));
    var s6 := Next(w, s5, Merge(1));
    var s7 := Next(w, s6, Fetch(0));
    final := Next(w, s7, Fetch(0));
    steps := [];
    steps := StepFirst(w, s7, Fetch(0), steps, final);
    steps := StepFirst(w, s6, Fetch(0), steps, final);
    steps := StepFirst(w, s5, Merge(1), steps, final);
    steps := StepFirst(w, BothReady(), Merge(0), steps, final);
  }

  /** On a connection the callers share, one stream can send the other's rows. */
  lemma SharedConnectionInterferes() returns (steps: seq<Step>, final: State)
    ensures WellShaped(TwoSources())
    ensures Runs(TwoSources(), Fresh(Some(0)), steps, final)
    ensures |final.calls| == 2 && final.calls[0].plan == LEFT && final.calls[0].phase == Done([[[2]]])
    ensures Expected(TwoSources(), LEFT) == [[1]]
  {
    var w, c := TwoSources(), Chunked(1);
    var s1 := Next(w, Fresh(Some(0)), Begin(LEFT, c));
    var s2 := Next(w, s1, Begin(RIGHT, c));
    var s3 := Next(w, s2, Arrive(0, 0));
    assert Waiting(1) == [None];
    assert s2.calls == [Call(LEFT, c, Gathering([None])), Call(RIGHT, c, Gathering([None]))];
    assert [None][0 := Some([[1]])] == [Some([[1]])] && [None][0 := Some([[2]])] == [Some([[2]])];
    assert s3.calls == [Call(LEFT, c, Gathering([Some([[1]])])), Call(RIGHT, c, Gathering([None]))];
    assert Next(w, s3, Arrive(1, 0)).calls == BothReady().calls;
    steps, final := BothMerge();
    steps := StepFirst(w, s3, Arrive(1, 0), steps, final);
    steps := StepFirst(w, s2, Arrive(0, 0), steps, final);
    steps := StepFirst(w, s1, Begin(RIGHT, c), steps, final);
    steps := StepFirst(w, Fresh(Some(0)), Begin(LEFT, c), steps, final);
    LeftAlone();
  }

  lemma LeftAlone()
    ensures Expected(TwoSources(), LEFT) == [[1]]
  {
    var answers := Answers(TwoSources(), LEFT.fragments);
    assert answers[..0] == [];
  }

  lemma StepFirst(w: World, s: State, step: Step, rest: seq<Step>, final: State) returns (steps: seq<Step>)
    requires Enabled(s, step) && Runs(w, Next(w, s, step), rest, final)
    ensures steps == [step] + rest && Runs(w, s, steps, final)
  {
    steps := [step] + rest;
    assert steps[1..] == rest;
  }
}
