/**
  Which fields the references in use stand for: when all of them are found,
  which of several fields with one name wins, and why operands of a ratio that
  are no ratios keep field nodes apart from themselves.
*/
module AnalysisUse {
  import opened Wrappers
  import opened SemanticGraph
  import opened AnalysisDraft
  import opened AnalysisBuilder
  import opened AnalysisAssembly
  import opened AnalysisNames
  import opened AnalysisBuild

  // ------------------------------------------------------ references that are found

  /** From a reference to one of its field's operands, and on. */
  ghost predicate OperandPath(fields: Registry, p: seq<string>) {
    |p| > 0 && forall i | 0 <= i < |p| - 1 :: p[i] in fields && p[i + 1] in OperandRefs(fields[p[i]])
  }

  /** Every reference, and every operand of a ratio met on the way, has a field. */
  ghost predicate Registered(fields: Registry, refs: seq<string>) {
    forall p | OperandPath(fields, p) && p[0] in refs :: p[|p| - 1] in fields
  }

  lemma OperandsRegistered(fields: Registry, ref: string)
    requires Registered(fields, [ref])
    ensures ref in fields && Registered(fields, OperandRefs(fields[ref]))
  {
    hide OperandRefs;
    assert OperandPath(fields, [ref]);
    forall p | OperandPath(fields, p) && p[0] in OperandRefs(fields[ref]) ensures p[|p| - 1] in fields {
      var q := [ref] + p;
      forall i | 0 <= i < |q| - 1 ensures q[i] in fields && q[i + 1] in OperandRefs(fields[q[i]]) {
        if i > 0 {
          assert p[i - 1] in fields && p[i - 1 + 1] in OperandRefs(fields[p[i - 1]]);
        }
      }
      assert OperandPath(fields, q) && q[0] == ref;
    }
  }

  /** Registered references are always found, however names are shared. */
  lemma {:induction false} NoteSuffices(fields: Registry, book: Book, ref: string)
    requires Registered(fields, [ref])
    ensures Note(fields, book, ref).Ok?
    decreases Canonicals(fields) - book.target.Keys, 1, 0
  {
    hide Registered, OperandRefs;
    OperandsRegistered(fields, ref);
    if ref !in book.target && Canonical(fields[ref]) !in book.target {
      NotedFewer(fields, book, ref);
      NoteAllSuffices(fields, Noted(book, ref, fields[ref]), OperandRefs(fields[ref]));
    }
  }

  lemma {:induction false} NoteAllSuffices(fields: Registry, book: Book, refs: seq<string>)
    requires Registered(fields, refs)
    ensures NoteAll(fields, book, refs).Ok?
    decreases Canonicals(fields) - book.target.Keys, 2, |refs|
  {
    hide Note, OperandPath;
    if refs != [] {
      assert Registered(fields, [refs[0]]) && Registered(fields, refs[1..]);
      NoteSuffices(fields, book, refs[0]);
      var first := Note(fields, book, refs[0]).value;
      assert Canonicals(fields) - first.target.Keys <= Canonicals(fields) - book.target.Keys;
      NoteAllSuffices(fields, first, refs[1..]);
    }
  }

  /** A field's own name means that field. */
  predicate Consistent(fields: Registry) {
    forall ref | ref in fields :: Canonical(fields[ref]) in fields && fields[Canonical(fields[ref])] == fields[ref]
  }

  /** Everything in use has its operands in use, except fields still being added. */
  predicate ClosedBut(fields: Registry, book: Book, open: set<string>) {
    forall ref | ref in book.target ::
      ref in fields && (Canonical(fields[ref]) in open || forall o | o in OperandRefs(fields[ref]) :: o in book.target)
  }

  lemma NotedClosed(fields: Registry, book: Book, ref: string, open: set<string>)
    requires Consistent(fields) && ref in fields && ClosedBut(fields, book, open)
    ensures ClosedBut(fields, Noted(book, ref, fields[ref]), open + {Canonical(fields[ref])})
  {
    hide OperandRefs, Canonical;
    var c := Canonical(fields[ref]);
    assert c in fields && fields[c] == fields[ref];
  }

  lemma ClosedAgain(fields: Registry, book: Book, ref: string, open: set<string>)
    requires Consistent(fields) && ref in fields && ClosedBut(fields, book, open + {Canonical(fields[ref])})
    requires forall o | o in OperandRefs(fields[ref]) :: o in book.target
    ensures ClosedBut(fields, book, open)
  {
    hide OperandRefs, Canonical;
    forall r | r in book.target
      ensures r in fields && (Canonical(fields[r]) in open || forall o | o in OperandRefs(fields[r]) :: o in book.target)
    {
      if Canonical(fields[r]) == Canonical(fields[ref]) {
        assert fields[r] == fields[Canonical(fields[r])] == fields[ref];
      }
    }
  }

  lemma {:induction false} NoteCloses(fields: Registry, book: Book, ref: string, open: set<string>)
    requires Consistent(fields) && ClosedBut(fields, book, open) && Note(fields, book, ref).Ok?
    ensures ClosedBut(fields, Note(fields, book, ref).value, open)
    decreases Canonicals(fields) - book.target.Keys, 1, 0
  {
    hide OperandRefs, NoteAll;
    if ref !in book.target {
      var c := Canonical(fields[ref]);
      if c in book.target {
        assert fields[c] == fields[ref];
      } else {
        NotedFewer(fields, book, ref);
        NotedClosed(fields, book, ref, open);
        NoteAllCloses(fields, Noted(book, ref, fields[ref]), OperandRefs(fields[ref]), open + {c});
        ClosedAgain(fields, Note(fields, book, ref).value, ref, open);
      }
    }
  }

  lemma {:induction false} NoteAllCloses(fields: Registry, book: Book, refs: seq<string>, open: set<string>)
    requires Consistent(fields) && ClosedBut(fields, book, open) && NoteAll(fields, book, refs).Ok?
    ensures ClosedBut(fields, NoteAll(fields, book, refs).value, open)
    decreases Canonicals(fields) - book.target.Keys, 2, |refs|
  {
    hide Note, Consistent, ClosedBut;
    if refs != [] {
      var first := Note(fields, book, refs[0]).value;
      NoteCloses(fields, book, refs[0], open);
      assert Canonicals(fields) - first.target.Keys <= Canonicals(fields) - book.target.Keys;
      NoteAllCloses(fields, first, refs[1..], open);
    }
  }

  lemma {:induction false} PathUsed(fields: Registry, book: Book, p: seq<string>, i: nat)
    requires ClosedBut(fields, book, {}) && OperandPath(fields, p) && p[0] in book.target && i < |p|
    ensures p[i] in book.target && p[i] in fields
  {
    hide OperandRefs;
    if i > 0 {
      PathUsed(fields, book, p, i - 1);
      assert p[i - 1 + 1] in OperandRefs(fields[p[i - 1]]);
    }
  }

  /**
    With own names that mean their own fields, references are found exactly when
    they and all operands reached from them are registered.
  */
  lemma FoundIffRegistered(fields: Registry, refs: seq<string>)
    requires Consistent(fields)
    ensures NoteAll(fields, EMPTY, refs).Ok? <==> Registered(fields, refs)
  {
    hide Consistent, NoteAll, OperandRefs;
    if Registered(fields, refs) {
      NoteAllSuffices(fields, EMPTY, refs);
    }
    if NoteAll(fields, EMPTY, refs).Ok? {
      var book := NoteAll(fields, EMPTY, refs).value;
      NoteAllCloses(fields, EMPTY, refs, {});
      forall p | OperandPath(fields, p) && p[0] in refs ensures p[|p| - 1] in fields {
        PathUsed(fields, book, p, |p| - 1);
      }
    }
  }

  // ------------------------------------------------ which field a shared name means

  /** A reference spelled like a field's own name, or like an operand, means a field of that name. */
  predicate SpelledRight(pairs: seq<(string, Field)>) {
    forall p, s | p in pairs && s in pairs && (s.0 == Canonical(p.1) || s.0 in OperandRefs(p.1)) :: Canonical(s.1) == s.0
  }

  /** A field's own name, with its operands' names, after registration. */
  predicate SelfNamed(fields: Registry, ref: string) {
    ref in fields ==> Canonical(fields[ref]) == ref
  }

  predicate OperandsSelfNamed(fields: Registry) {
    forall ref | ref in fields :: forall o | o in OperandRefs(fields[ref]) :: SelfNamed(fields, o)
  }

  lemma {:induction false} LastIsIn(pairs: seq<(string, Field)>, ref: string)
    requires LastNamed(pairs, ref).Some?
    ensures exists s | s in pairs :: s.1 == LastNamed(pairs, ref).value && NamedBy(s, ref)
  {
    if !NamedBy(pairs[|pairs| - 1], ref) {
      LastIsIn(pairs[..|pairs| - 1], ref);
    }
  }

  lemma RightNames(pairs: seq<(string, Field)>)
    requires SpelledRight(pairs)
    ensures var fields := Register(map[], pairs);
            (forall p | p in pairs :: SelfNamed(fields, Canonical(p.1))) &&
            OperandsSelfNamed(fields)
  {
    hide OperandRefs, Canonical, Register, LastNamed, NamedBy;
    var fields := Register(map[], pairs);
    forall p | p in pairs ensures SelfNamed(fields, Canonical(p.1)) {
      RightName(pairs, p, Canonical(p.1));
    }
    forall ref, o | ref in fields && o in OperandRefs(fields[ref]) ensures SelfNamed(fields, o) {
      RegisteredIsLast(pairs, ref);
      LastIsIn(pairs, ref);
      var p :| p in pairs && p.1 == fields[ref] && NamedBy(p, ref);
      RightName(pairs, p, o);
    }
  }

  lemma RightName(pairs: seq<(string, Field)>, p: (string, Field), name: string)
    requires SpelledRight(pairs) && p in pairs && (name == Canonical(p.1) || name in OperandRefs(p.1))
    ensures SelfNamed(Register(map[], pairs), name)
  {
    hide OperandRefs, Canonical, Register;
    RegisteredIsLast(pairs, name);
    if name in Register(map[], pairs) {
      LastIsIn(pairs, name);
    }
  }

  /** Only own names are in use, each for the field registered under it. */
  predicate OwnBook(fields: Registry, book: Book) {
    && (forall ref | ref in book.target :: book.target[ref] == ref && ref in book.owner)
    && (forall c | c in book.owner :: c in fields && book.owner[c] == fields[c])
  }

  lemma {:induction false} OwnNoted(fields: Registry, book: Book, ref: string)
    requires OwnBook(fields, book) && SelfNamed(fields, ref) && Note(fields, book, ref).Ok?
    requires OperandsSelfNamed(fields)
    ensures OwnBook(fields, Note(fields, book, ref).value)
    decreases Canonicals(fields) - book.target.Keys, 1, 0
  {
    hide OperandRefs, NoteAll;
    if ref !in book.target {
      NotedFewer(fields, book, ref);
      OwnAllNoted(fields, Noted(book, ref, fields[ref]), OperandRefs(fields[ref]));
    }
  }

  lemma {:induction false} OwnAllNoted(fields: Registry, book: Book, refs: seq<string>)
    requires OwnBook(fields, book) && (forall ref | ref in refs :: SelfNamed(fields, ref)) && NoteAll(fields, book, refs).Ok?
    requires OperandsSelfNamed(fields)
    ensures OwnBook(fields, NoteAll(fields, book, refs).value)
    decreases Canonicals(fields) - book.target.Keys, 2, |refs|
  {
    hide Note, OwnBook, OperandRefs;
    if refs != [] {
      var first := Note(fields, book, refs[0]).value;
      OwnNoted(fields, book, refs[0]);
      assert Canonicals(fields) - first.target.Keys <= Canonicals(fields) - book.target.Keys;
      OwnAllNoted(fields, first, refs[1..]);
    }
  }

  /** The fields whose own names are looked up first. */
  function ResolvedFields(r: Resolved): seq<Field> {
    r.dimensions + r.measures + r.operands + if r.time.Some? then [r.time.value] else []
  }

  lemma ResolvedRegistered(q: Query, r: Resolved, f: Field)
    requires LinedUp(q, r) && (r.time.Some? ==> q.time.Some?) && f in ResolvedFields(r)
    ensures exists p | p in Registrations(q, r) :: p.1 == f
  {
    hide Own, OfCubes, OperandsOf;
    var i :| 0 <= i < |ResolvedFields(r)| && ResolvedFields(r)[i] == f;
    var ms, ds, os := Pairs(q.measures, r.measures), Pairs(q.dimensions, r.dimensions), Pairs(OperandsOf(q.derived), r.operands);
    if i < |r.dimensions| {
      assert ds[i].1 == f && ds[i] in Registrations(q, r);
    } else if i < |r.dimensions| + |r.measures| {
      assert ms[i - |r.dimensions|].1 == f && ms[i - |r.dimensions|] in Registrations(q, r);
    } else if i < |r.dimensions| + |r.measures| + |r.operands| {
      assert os[i - |r.dimensions| - |r.measures|].1 == f && os[i - |r.dimensions| - |r.measures|] in Registrations(q, r);
    } else {
      assert (q.time.value.dimension, f) in Registrations(q, r);
    }
  }

  lemma ResolvedSelfNamed(q: Query, r: Resolved)
    requires LinedUp(q, r) && (r.time.Some? ==> q.time.Some?) && SpelledRight(Registrations(q, r))
    ensures forall ref | ref in ResolvedRefs(r) :: SelfNamed(RegistryOf(q, r), ref)
    ensures OperandsSelfNamed(RegistryOf(q, r))
    ensures forall f | f in ResolvedFields(r) :: Canonical(f) in ResolvedRefs(r)
  {
    hide Registrations, SpelledRight, Canonical, SelfNamed, OperandRefs, Register;
    RightNames(Registrations(q, r));
    var fs, refs := ResolvedFields(r), ResolvedRefs(r);
    assert refs == OwnNames(fs);
    forall ref | ref in refs ensures SelfNamed(RegistryOf(q, r), ref) {
      var i :| 0 <= i < |refs| && refs[i] == ref;
      ResolvedRegistered(q, r, fs[i]);
    }
    forall f | f in fs ensures Canonical(f) in refs {
      var i :| 0 <= i < |fs| && fs[i] == f;
      assert refs[i] == Canonical(f);
    }
  }

  lemma {:induction false} LastOfOwn(pairs: seq<(string, Field)>, name: string, f: Field)
    requires forall s | s in pairs && s.0 == name :: Canonical(s.1) == name
    requires LastNamed(pairs, name).Some?
    ensures LastNamed(pairs, name).value == f <==>
            exists k | 0 <= k < |pairs| :: pairs[k].1 == f && Canonical(f) == name && forall j | k < j < |pairs| :: Canonical(pairs[j].1) != name
  {
    hide Canonical;
    var n := |pairs| - 1;
    assert pairs[n] in pairs;
    if NamedBy(pairs[n], name) {
      assert Canonical(pairs[n].1) == name;
    } else {
      LastOfOwn(pairs[..n], name, f);
      if LastNamed(pairs, name).value == f {
        var k :| 0 <= k < n && pairs[..n][k].1 == f && Canonical(f) == name && forall j | k < j < n :: Canonical(pairs[..n][j].1) != name;
        forall j | k < j < |pairs| ensures Canonical(pairs[j].1) != name {
          if j < n { assert pairs[..n][j] == pairs[j]; }
        }
      }
      if exists k | 0 <= k < |pairs| :: pairs[k].1 == f && Canonical(f) == name && forall j | k < j < |pairs| :: Canonical(pairs[j].1) != name {
        var k :| 0 <= k < |pairs| && pairs[k].1 == f && Canonical(f) == name && forall j | k < j < |pairs| :: Canonical(pairs[j].1) != name;
        assert pairs[..n][k].1 == f;
        forall j | k < j < n ensures Canonical(pairs[..n][j].1) != name {
          assert pairs[..n][j] == pairs[j];
        }
      }
    }
  }

  /** The last field registered with a name. */
  predicate LastWithName(pairs: seq<(string, Field)>, f: Field) {
    exists k | 0 <= k < |pairs| :: pairs[k].1 == f && forall j | k < j < |pairs| :: Canonical(pairs[j].1) != Canonical(f)
  }

  lemma SpelledAt(pairs: seq<(string, Field)>, p: (string, Field))
    requires SpelledRight(pairs) && p in pairs
    ensures forall s | s in pairs && s.0 == Canonical(p.1) :: Canonical(s.1) == Canonical(p.1)
    ensures LastNamed(pairs, Canonical(p.1)).Some?
  {
    hide Canonical, OperandRefs;
    NamedLast(pairs, p);
  }

  lemma {:induction false} NamedLast(pairs: seq<(string, Field)>, p: (string, Field))
    requires p in pairs
    ensures LastNamed(pairs, Canonical(p.1)).Some?
  {
    hide Canonical;
    if !NamedBy(pairs[|pairs| - 1], Canonical(p.1)) {
      NamedLast(pairs[..|pairs| - 1], p);
    }
  }

  /**
    The node of a resolved field's own name is that field's node exactly when
    the field is the last one registered with that name.
  */
  lemma NodeIsOwnIff(q: Query, r: Resolved, plan: Plan, f: Field)
    requires LinedUp(q, r) && (r.time.Some? ==> q.time.Some?) && SpelledRight(Registrations(q, r))
    requires UsedBook(q, r, plan).Ok? && f in ResolvedFields(r)
    ensures var book, name := UsedBook(q, r, plan).value, Canonical(f);
            name in book.target && book.target[name] == name && name in book.owner &&
            (book.owner[name] == f <==> LastWithName(Registrations(q, r), f))
  {
    hide NoteAll, Registrations, Canonical, SpelledRight, OperandRefs, Register, LastNamed, SelfNamed, ResolvedRefs, ResolvedFields, ProjectedRefs, UsedBook;
    var pairs, fields, name := Registrations(q, r), RegistryOf(q, r), Canonical(f);
    GraphSplits(q, r, plan);
    ResolvedSelfNamed(q, r);
    ResolvedRegistered(q, r, f);
    var p :| p in pairs && p.1 == f;
    SpelledAt(pairs, p);
    OwnAllNoted(fields, EMPTY, ResolvedRefs(r));
    var first := NoteAll(fields, EMPTY, ResolvedRefs(r)).value;
    NoteAllKeeps(fields, first, ProjectedRefs(q, plan));
    assert name in first.owner && first.owner[name] == fields[name];
    RegisteredIsLast(pairs, name);
    LastOfOwn(pairs, name, f);
  }

  // ---------------------------------------------------------- a name two fields share

  const SHARED_MEASURE := Field("c", "m", Measure("sum", []), "")
  const SHARED_DIMENSION := Field("c", "m", Dimension, "")

  function SharedQuery(): Query {
    Query(["c.m"], [], [], [], None, [], None, None, [], [], [], None, false, "")
  }

  function SharedFields(): Resolved {
    Resolved([SHARED_MEASURE], [], [], [], [], [Cube("c", [SHARED_MEASURE, SHARED_DIMENSION])], None)
  }

  function SharedPlan(): Plan {
    Plan([Column("c", "m", "m", true)], false, [], "query_rows", [], [], [], None, true, false)
  }

  lemma SharedNoted(fields: Registry, book: Book)
    requires fields == map["c.m" := SHARED_DIMENSION] && book == Book(map["c.m" := "c.m"], map["c.m" := SHARED_DIMENSION])
    ensures NoteAll(fields, EMPTY, ["c.m", "c.m", "c.m"]) == Ok(book)
  {
    var ref := "c.m";
    assert Canonical(SHARED_DIMENSION) == ref;
    assert Noted(EMPTY, ref, fields[ref]) == book;
    assert NoteAll(fields, book, OperandRefs(fields[ref])) == Ok(book);
    assert Note(fields, EMPTY, ref) == Ok(book);
    assert [ref, ref, ref][1..] == [ref, ref] && [ref, ref][1..] == [ref] && [ref][1..] == [];
    assert NoteAll(fields, book, [ref, ref]) == Ok(book);
  }

  lemma SharedRegistry()
    ensures LinedUp(SharedQuery(), SharedFields()) && RegistryOf(SharedQuery(), SharedFields()) == map["c.m" := SHARED_DIMENSION]
  {
    var q, r := SharedQuery(), SharedFields();
    var ref := "c.m";
    assert Canonical(SHARED_MEASURE) == ref == Canonical(SHARED_DIMENSION);
    var pairs := [(ref, SHARED_MEASURE), (ref, SHARED_MEASURE), (ref, SHARED_DIMENSION)];
    assert Registrations(q, r) == pairs by {
      assert r.touched[1..] == [];
    }
    assert pairs[1..] == [(ref, SHARED_MEASURE), (ref, SHARED_DIMENSION)] && pairs[1..][1..] == [(ref, SHARED_DIMENSION)];
    assert pairs[1..][1..][1..] == [];
  }

  lemma SharedRefs()
    ensures AllRefs(SharedQuery(), SharedFields(), SharedPlan()) == ["c.m", "c.m", "c.m"]
  {
    assert Canonical(SHARED_MEASURE) == "c.m";
  }

  /**
    A cube with a measure and a dimension of one name: the query for the measure
    is built, and its output is the dimension's node.
  */
  lemma SharedNameMisleads()
    ensures LinedUp(SharedQuery(), SharedFields()) && Buildable(SharedQuery(), SharedFields(), SharedPlan())
    ensures UsedBook(SharedQuery(), SharedFields(), SharedPlan()).value == Book(map["c.m" := "c.m"], map["c.m" := SHARED_DIMENSION])
  {
    hide RegistryOf, NoteAll;
    SharedRegistry();
    SharedRefs();
    SharedNoted(map["c.m" := SHARED_DIMENSION], Book(map["c.m" := "c.m"], map["c.m" := SHARED_DIMENSION]));
  }

  // ------------------------------------------------------------- field nodes

  /** What a field's node says: its name, its role, when it is computed, the grain of the query and a ratio's operands. */
  predicate SaysField(ids: map<string, string>, n: SemanticNode, f: Field, q: Query, dimensions: seq<Field>) {
    && ReadsOperands(ids, n, f)
    && n.catalogRef == Some(f.cube + "." + f.name) && n.population == Some("p1") && n.details == f.details
    && (match f.kind
        case Measure(agg, _) => n.kind == "aggregate" && n.aggregate == Some(agg) && n.stage == Some("event_to_group")
        case Dimension => n.kind == "dimension" && n.aggregate == None && n.stage == Some(if q.ungrouped then "row" else "group_by")
        case TimeDimension =>
          && n.kind == "time" && n.aggregate == None
          && n.stage == Some(if q.ungrouped then "row" else if q.time.Some? && q.time.value.granularity.Some? then "time_bucket" else "group_by"))
    && |n.grainRefs| == |dimensions| && forall i | 0 <= i < |dimensions| :: n.grainRefs[i] == dimensions[i].cube + "." + dimensions[i].name
  }

  /** A ratio reads its operands' nodes on its own cube, in order; other fields read nothing. */
  predicate ReadsOperands(ids: map<string, string>, n: SemanticNode, f: Field) {
    if f.kind.Measure? && f.kind.agg == "ratio" then
      |n.operands| == |f.kind.operands| &&
      forall i | 0 <= i < |n.operands| :: var name := f.cube + "." + f.kind.operands[i]; name in ids && n.operands[i] == ids[name]
    else n.operands == []
  }

  lemma StandsSays(style: Style, f: Field, ids: map<string, string>, n: SemanticNode, q: Query, r: Resolved)
    requires StandsFor(style, f, ids, n) && style == Style(q.ungrouped, Bucketed(q), OwnNames(r.dimensions))
    ensures SaysField(ids, n, f, q, r.dimensions)
  {
    forall i | 0 <= i < |r.dimensions| ensures n.grainRefs[i] == r.dimensions[i].cube + "." + r.dimensions[i].name {
      assert n.grainRefs[i] == Canonical(r.dimensions[i]);
    }
    assert ReadsOperands(ids, n, f) by { StandsReads(style, f, ids, n); }
  }

  lemma StandsReads(style: Style, f: Field, ids: map<string, string>, n: SemanticNode)
    requires StandsFor(style, f, ids, n)
    ensures ReadsOperands(ids, n, f)
  {
    forall i | 0 <= i < |n.operands| && IsRatio(f) ensures var name := f.cube + "." + f.kind.operands[i]; name in ids && n.operands[i] == ids[name] {
      assert OperandRefs(f)[i] == f.cube + "." + f.kind.operands[i];
    }
  }

  lemma BuiltStyle(d: Draft, a: Analysis, q: Query, r: Resolved, plan: Plan)
    requires LinedUp(q, r) && Buildable(q, r, plan) && BuiltFrom(d, a) && Answers(d, a, q, r, plan)
    ensures Inv(d) && d.pending == {} && d.style == Style(q.ungrouped, Bucketed(q), OwnNames(r.dimensions))
  {
    hide Inv, DescribeAll, RegistryOf, HavingStands, ResultStands, UsedBook, PopulationDescs, Projectable, RankResolves, GrainRefs, OutputsOf;
  }

  /** In a built artifact the node of every reference in use says what its field is. */
  lemma FieldNodeSays(d: Draft, a: Analysis, q: Query, r: Resolved, plan: Plan, ref: string)
    requires LinedUp(q, r) && Buildable(q, r, plan) && BuiltFrom(d, a) && Answers(d, a, q, r, plan) && ref in d.ids
    ensures ref in d.book.target && d.book.target[ref] in d.book.owner && d.ids[ref] in d.table
    ensures SaysField(d.ids, d.table[d.ids[ref]], d.book.owner[d.book.target[ref]], q, r.dimensions)
  {
    hide *;
    BuiltStyle(d, a, q, r, plan);
    FieldSettled(d, ref);
    StandsSays(d.style, d.book.owner[d.book.target[ref]], d.ids, d.table[d.ids[ref]], q, r);
  }

  /** The references of an analysis: its resolved fields' own names, its columns, its measures and its inline measures' operands. */
  lemma AllRefsAre(q: Query, r: Resolved, plan: Plan, ref: string)
    ensures ref in AllRefs(q, r, plan) <==>
            || (exists f :: f in r.dimensions + r.measures + r.operands && ref == f.cube + "." + f.name)
            || (r.time.Some? && ref == r.time.value.cube + "." + r.time.value.name)
            || (exists c :: c in plan.columns && ref == c.cube + "." + c.field)
            || ref in q.measures || exists d :: d in q.derived && ref in d.operands
  {
    OwnNamesAre(r.dimensions, ref);
    OwnNamesAre(r.measures, ref);
    OwnNamesAre(r.operands, ref);
    DerivedRefsAre(q.derived, ref);
    assert ref in ColumnRefs(plan.columns) <==> exists c :: c in plan.columns && ref == c.cube + "." + c.field by {
      if c :| c in plan.columns && ref == c.cube + "." + c.field {
        var i :| 0 <= i < |plan.columns| && plan.columns[i] == c;
        assert ColumnRefs(plan.columns)[i] == Reference(c) == ref;
      }
    }
    hide OwnNames, ColumnRefs, OperandsOf;
  }

  lemma OwnNamesAre(fs: seq<Field>, ref: string)
    ensures ref in OwnNames(fs) <==> exists f :: f in fs && ref == f.cube + "." + f.name
  {
    if f :| f in fs && ref == f.cube + "." + f.name {
      var i :| 0 <= i < |fs| && fs[i] == f;
      assert OwnNames(fs)[i] == Canonical(f) == ref;
    }
  }

  lemma {:induction false} DerivedRefsAre(derived: seq<Inline>, ref: string)
    ensures ref in OperandsOf(derived) <==> exists d :: d in derived && ref in d.operands
  {
    if derived != [] {
      DerivedRefsAre(derived[1..], ref);
      assert derived == [derived[0]] + derived[1..];
    }
  }
}
