/** What every name a HAVING clause may use stands for. */
module AnalysisHaving {

  import opened Wrappers
  import opened Spec
  import opened AnalysisDraft
  import opened AnalysisAssembly
  import opened AnalysisNames
  import opened AnalysisOutputs
  import opened AnalysisBuild

  // -------------------------------------------------------------- names given

  /** Names given to a node at once. */
  datatype Giving = Giving(names: set<string>, node: string)

  /** Measure columns give their reference, field and alias, in order. */
  function ByColumns(ids: map<string, string>, columns: seq<Column>): seq<Giving>
    requires forall c | c in columns :: Reference(c) in ids
  {
    if columns == [] then [] else
      var c := columns[|columns| - 1];
      assert Reference(c) == c.cube + "." + c.field && c in columns;
      ByColumns(ids, columns[..|columns| - 1]) +
      if c.isMeasure then [Giving({c.cube + "." + c.field, c.field, c.alias}, ids[c.cube + "." + c.field])] else []
  }

  /** Then the requested measures give their reference, field and own name. */
  function ByMeasures(ids: map<string, string>, refs: seq<string>, fs: seq<Field>): seq<Giving>
    requires |refs| == |fs| && AllUsed(ids, refs)
  {
    seq(|refs|, i requires 0 <= i < |refs| => Giving({refs[i], fs[i].name, fs[i].cube + "." + fs[i].name}, ids[refs[i]]))
  }

  /** By a giving, all names its node has been given so far stand for the node again. */
  predicate Gives(gs: seq<Giving>, j: nat, k: string)
    requires j < |gs|
  {
    exists i :: 0 <= i <= j && gs[i].node == gs[j].node && k in gs[i].names
  }

  /** The last giving that makes a name stand for its node. */
  predicate LastGives(gs: seq<Giving>, k: string, j: int) {
    0 <= j < |gs| && Gives(gs, j, k) && forall l | j < l < |gs| :: !Gives(gs, l, k)
  }

  /** What a name stands for without aliases. */
  ghost predicate StandsPlain(gs: seq<Giving>, k: string, node: string) {
    exists j :: LastGives(gs, k, j) && gs[j].node == node
  }

  predicate CalledPlain(gs: seq<Giving>, node: string, k: string) {
    exists i :: 0 <= i < |gs| && gs[i].node == node && k in gs[i].names
  }

  predicate IsCalled(gs: seq<Giving>, node: string) {
    exists i :: 0 <= i < |gs| && gs[i].node == node
  }

  function Told(gs: seq<Giving>): Glossary {
    if gs == [] then NAMELESS else Tell(Told(gs[..|gs| - 1]), gs[|gs| - 1].names, gs[|gs| - 1].node)
  }

  ghost predicate ToldOk(gs: seq<Giving>, n: Glossary) {
    && (forall k, node :: k in n.targets && n.targets[k] == node <==> StandsPlain(gs, k, node))
    && (forall k, node :: k in NamesAt(n, node) <==> CalledPlain(gs, node, k))
    && forall node :: node in n.names <==> IsCalled(gs, node)
  }

  lemma GivesPrefix(gs: seq<Giving>, n: nat, j: nat, k: string)
    requires j < n <= |gs|
    ensures Gives(gs[..n], j, k) <==> Gives(gs, j, k)
  {
    assert forall i | 0 <= i <= j :: gs[..n][i] == gs[i];
  }

  lemma CalledMore(gs: seq<Giving>, node: string, k: string)
    requires gs != []
    ensures var n := |gs| - 1; CalledPlain(gs, node, k) <==> CalledPlain(gs[..n], node, k) || (gs[n].node == node && k in gs[n].names)
    ensures var n := |gs| - 1; IsCalled(gs, node) <==> IsCalled(gs[..n], node) || gs[n].node == node
    ensures Gives(gs, |gs| - 1, k) <==> CalledPlain(gs, gs[|gs| - 1].node, k)
  {
    assert forall i | 0 <= i < |gs| - 1 :: gs[..|gs| - 1][i] == gs[i];
  }

  lemma StandsMore(gs: seq<Giving>, k: string, node: string)
    requires gs != []
    ensures var n := |gs| - 1; StandsPlain(gs, k, node) <==> if Gives(gs, n, k) then gs[n].node == node else StandsPlain(gs[..n], k, node)
  {
    hide Gives;
    var n := |gs| - 1;
    forall j: nat | j < n ensures Gives(gs[..n], j, k) <==> Gives(gs, j, k) { GivesPrefix(gs, n, j, k); }
    if Gives(gs, n, k) {
      assert LastGives(gs, k, n);
      assert forall j | LastGives(gs, k, j) :: j == n;
    } else {
      forall j ensures LastGives(gs, k, j) <==> LastGives(gs[..n], k, j) {
      }
      assert forall j | LastGives(gs[..n], k, j) :: gs[..n][j] == gs[j];
    }
  }

  lemma {:induction false} ToldIs(gs: seq<Giving>)
    ensures ToldOk(gs, Told(gs))
  {
    hide Gives, StandsPlain, CalledPlain, IsCalled, Tell;
    if gs == [] {
      NothingTold();
    } else {
      var n := |gs| - 1;
      ToldIs(gs[..n]);
      forall k, node
        ensures k in Told(gs).targets && Told(gs).targets[k] == node <==> StandsPlain(gs, k, node)
        ensures k in NamesAt(Told(gs), node) <==> CalledPlain(gs, node, k)
      {
        ToldMore(gs, Told(gs[..n]), k, node);
      }
      forall node ensures node in Told(gs).names <==> IsCalled(gs, node) {
        ToldMore(gs, Told(gs[..n]), "", node);
      }
    }
  }

  lemma ToldMore(gs: seq<Giving>, before: Glossary, k: string, node: string)
    requires gs != [] && ToldOk(gs[..|gs| - 1], before)
    ensures var n := Tell(before, gs[|gs| - 1].names, gs[|gs| - 1].node);
            && (k in n.targets && n.targets[k] == node <==> StandsPlain(gs, k, node))
            && (k in NamesAt(n, node) <==> CalledPlain(gs, node, k))
            && (node in n.names <==> IsCalled(gs, node))
  {
    hide Gives, StandsPlain, CalledPlain, IsCalled;
    StandsMore(gs, k, node);
    CalledMore(gs, node, k);
    CalledMore(gs, gs[|gs| - 1].node, k);
  }

  lemma NothingTold()
    ensures ToldOk([], NAMELESS)
  {
  }

  lemma {:induction false} ColumnsTell(ids: map<string, string>, columns: seq<Column>)
    requires forall c | c in columns :: Reference(c) in ids
    ensures ColumnNaming(ids, columns) == Told(ByColumns(ids, columns))
  {
    hide Tell;
    if columns != [] {
      var c := columns[|columns| - 1];
      ColumnsTell(ids, columns[..|columns| - 1]);
      var before := ByColumns(ids, columns[..|columns| - 1]);
      assert c in columns && Reference(c) == c.cube + "." + c.field;
      if c.isMeasure {
        var all := before + [Giving({Reference(c), c.field, c.alias}, ids[Reference(c)])];
        assert all[..|all| - 1] == before && ByColumns(ids, columns) == all;
      } else {
        assert before + [] == before;
      }
    }
  }

  lemma {:induction false} MeasuresTell(ids: map<string, string>, gs: seq<Giving>, refs: seq<string>, fs: seq<Field>)
    requires |refs| == |fs| && AllUsed(ids, refs)
    ensures MeasureNaming(Told(gs), ids, refs, fs) == Told(gs + ByMeasures(ids, refs, fs))
  {
    hide Tell;
    if refs == [] {
      assert gs + ByMeasures(ids, refs, fs) == gs;
    } else {
      var k := |refs| - 1;
      MeasuresTell(ids, gs, refs[..k], fs[..k]);
      var all := gs + ByMeasures(ids, refs, fs);
      assert all[..|all| - 1] == gs + ByMeasures(ids, refs[..k], fs[..k]);
    }
  }

  // ------------------------------------------------------------------- aliases

  /** Alias by alias: one of a name that stands for something stands for the same from then on. */
  ghost predicate Stands(gs: seq<Giving>, aliases: seq<(string, string)>, k: string, node: string)
    decreases |aliases|, 0
  {
    if aliases == [] then StandsPlain(gs, k, node) else
      var (alias, name) := aliases[|aliases| - 1];
      if k == alias && IsName(gs, aliases[..|aliases| - 1], name)
      then Stands(gs, aliases[..|aliases| - 1], name, node)
      else Stands(gs, aliases[..|aliases| - 1], k, node)
  }

  ghost predicate IsName(gs: seq<Giving>, aliases: seq<(string, string)>, k: string)
    decreases |aliases|, 1
  {
    exists node :: Stands(gs, aliases, k, node)
  }

  /** Given to the node, or an alias of a name that stood for it. */
  ghost predicate Called(gs: seq<Giving>, aliases: seq<(string, string)>, node: string, k: string) {
    CalledPlain(gs, node, k) || exists i :: AliasCalls(gs, aliases, node, k, i)
  }

  ghost predicate AliasCalls(gs: seq<Giving>, aliases: seq<(string, string)>, node: string, k: string, i: int) {
    0 <= i < |aliases| && aliases[i].0 == k && Stands(gs, aliases[..i], aliases[i].1, node)
  }

  ghost predicate NamingOk(gs: seq<Giving>, aliases: seq<(string, string)>, n: Glossary) {
    && (forall k, node :: k in n.targets && n.targets[k] == node <==> Stands(gs, aliases, k, node))
    && (forall k, node :: k in NamesAt(n, node) <==> Called(gs, aliases, node, k))
    && forall node :: node in n.names <==> IsCalled(gs, node)
  }

  lemma {:induction false} StandsCalled(gs: seq<Giving>, aliases: seq<(string, string)>, k: string, node: string)
    requires Stands(gs, aliases, k, node)
    ensures IsCalled(gs, node)
    decreases |aliases|
  {
    if aliases == [] {
      var j :| LastGives(gs, k, j) && gs[j].node == node;
    } else {
      var (alias, name) := aliases[|aliases| - 1];
      if k == alias && IsName(gs, aliases[..|aliases| - 1], name) {
        StandsCalled(gs, aliases[..|aliases| - 1], name, node);
      } else {
        StandsCalled(gs, aliases[..|aliases| - 1], k, node);
      }
    }
  }

  lemma CalledBySnoc(gs: seq<Giving>, aliases: seq<(string, string)>, node: string, k: string)
    requires aliases != []
    ensures var n := |aliases| - 1;
            Called(gs, aliases, node, k) <==>
            Called(gs, aliases[..n], node, k) || (aliases[n].0 == k && Stands(gs, aliases[..n], aliases[n].1, node))
  {
    hide Stands, CalledPlain;
    var n := |aliases| - 1;
    forall i | 0 <= i < n ensures AliasCalls(gs, aliases[..n], node, k, i) <==> AliasCalls(gs, aliases, node, k, i) {
      assert aliases[..n][..i] == aliases[..i];
    }
    if aliases[n].0 == k && Stands(gs, aliases[..n], aliases[n].1, node) {
      assert AliasCalls(gs, aliases, node, k, n);
    }
    if i :| AliasCalls(gs, aliases, node, k, i) && i < n {
      assert AliasCalls(gs, aliases[..n], node, k, i);
    }
  }

  lemma {:induction false} AliasesTell(gs: seq<Giving>, aliases: seq<(string, string)>)
    ensures NamingOk(gs, aliases, AliasNaming(Told(gs), aliases))
  {
    hide StandsPlain, CalledPlain, IsCalled, LastGives, Told;
    if aliases == [] {
      ToldIs(gs);
      forall k, node ensures Called(gs, aliases, node, k) <==> CalledPlain(gs, node, k) {
      }
    } else {
      AliasesTell(gs, aliases[..|aliases| - 1]);
      AliasTells(gs, aliases, AliasNaming(Told(gs), aliases[..|aliases| - 1]));
    }
  }

  lemma AliasTells(gs: seq<Giving>, aliases: seq<(string, string)>, n: Glossary)
    requires aliases != [] && NamingOk(gs, aliases[..|aliases| - 1], n)
    ensures NamingOk(gs, aliases, ToldAlias(n, aliases[|aliases| - 1]))
  {
    hide Stands, IsCalled, Called;
    var more := ToldAlias(n, aliases[|aliases| - 1]);
    forall k, node
      ensures k in more.targets && more.targets[k] == node <==> Stands(gs, aliases, k, node)
      ensures k in NamesAt(more, node) <==> Called(gs, aliases, node, k)
    {
      AliasTellsAt(gs, aliases, n, k, node);
    }
    forall node ensures node in more.names <==> IsCalled(gs, node) {
      AliasTellsAt(gs, aliases, n, "", node);
    }
  }

  lemma NameIff(gs: seq<Giving>, aliases: seq<(string, string)>, n: Glossary, name: string)
    requires NamingOk(gs, aliases, n)
    ensures name in n.targets <==> IsName(gs, aliases, name)
    ensures name in n.targets ==> forall x :: Stands(gs, aliases, name, x) <==> x == n.targets[name]
    ensures name in n.targets ==> n.targets[name] in n.names
  {
    hide Called;
    if name in n.targets {
      assert Stands(gs, aliases, name, n.targets[name]);
      StandsCalled(gs, aliases, name, n.targets[name]);
    }
  }

  lemma AliasTellsAt(gs: seq<Giving>, aliases: seq<(string, string)>, n: Glossary, k: string, node: string)
    requires aliases != [] && NamingOk(gs, aliases[..|aliases| - 1], n)
    ensures var more := ToldAlias(n, aliases[|aliases| - 1]);
            && (k in more.targets && more.targets[k] == node <==> Stands(gs, aliases, k, node))
            && (k in NamesAt(more, node) <==> Called(gs, aliases, node, k))
            && (node in more.names <==> IsCalled(gs, node))
  {
    hide StandsPlain, IsCalled, Called, IsName;
    NameIff(gs, aliases[..|aliases| - 1], n, aliases[|aliases| - 1].1);
    CalledBySnoc(gs, aliases, node, k);
  }

  function Givings(ids: map<string, string>, columns: seq<Column>, refs: seq<string>, fs: seq<Field>): seq<Giving>
    requires |refs| == |fs| && AllUsed(ids, refs) && forall c | c in columns :: Reference(c) in ids
  {
    ByColumns(ids, columns) + ByMeasures(ids, refs, fs)
  }

  lemma NamingIs(ids: map<string, string>, aliases: seq<(string, string)>, columns: seq<Column>, refs: seq<string>, fs: seq<Field>)
    requires |refs| == |fs| && AllUsed(ids, refs) && forall c | c in columns :: Reference(c) in ids
    ensures NamingOk(Givings(ids, columns, refs, fs), aliases, NamingOf(ids, aliases, columns, refs, fs))
  {
    hide NamingOk;
    ColumnsTell(ids, columns);
    MeasuresTell(ids, ByColumns(ids, columns), refs, fs);
    AliasesTell(Givings(ids, columns, refs, fs), aliases);
  }

  // -------------------------------------------------------------------- facets

  /** The facets in the order they are computed. */
  const FACETS := ["current", "prior", "delta", "pct_change"]

  /** A base name of a compared output: any name of its node, or its alias when the node has none. */
  ghost predicate IsBase(book: Book, gs: seq<Giving>, aliases: seq<(string, string)>, s: Shown, base: string)
    requires s.meaning.OfField?
  {
    var node := if s.meaning.ref in book.target then book.target[s.meaning.ref] else s.meaning.ref;
    if IsCalled(gs, node) then Called(gs, aliases, node, base) else base == s.alias
  }

  /** A name made of a base name and a facet, with an underscore or dotted. */
  ghost predicate FacetAt(book: Book, gs: seq<Giving>, aliases: seq<(string, string)>, shown: seq<Shown>, k: string, i: int, f: int) {
    && 0 <= i < |shown| && 0 <= f < 4 && shown[i].meaning.OfField? && IsMeasureRef(book, shown[i].meaning.ref)
    && exists base :: IsBase(book, gs, aliases, shown[i], base) && (k == base + "_" + FACETS[f] || k == "compare." + base + "." + FACETS[f])
  }

  ghost predicate LastFacet(book: Book, gs: seq<Giving>, aliases: seq<(string, string)>, shown: seq<Shown>, k: string, i: int, f: int) {
    && FacetAt(book, gs, aliases, shown, k, i, f)
    && forall j, g | FacetAt(book, gs, aliases, shown, k, j, g) :: j < i || (j == i && g <= f)
  }

  /** Some output makes the name a facet's. */
  ghost predicate IsFacet(book: Book, gs: seq<Giving>, aliases: seq<(string, string)>, shown: seq<Shown>, k: string) {
    exists i, f :: FacetAt(book, gs, aliases, shown, k, i, f)
  }

  /** The facet a name stands for: that of the last output that makes it, and its last facet. */
  ghost predicate FacetStands(book: Book, gs: seq<Giving>, aliases: seq<(string, string)>, shown: seq<Shown>, k: string, m: Meaning) {
    exists i, f :: LastFacet(book, gs, aliases, shown, k, i, f) && m == OfFacet(shown[i].meaning.ref, FACETS[f])
  }

  lemma FacetStep(m: map<string, Meaning>, bases: set<string>, role: string, v: Meaning, k: string)
    ensures var all := WithFacets(m, bases, role, v);
            (k in all <==> k in m || k in Forms(bases, role)) && (k in all ==> all[k] == if k in Forms(bases, role) then v else m[k])
  {
    hide Forms, WithFacets;
    FacetForms(m, bases, role, v);
  }

  lemma FacetMeansIs(m: map<string, Meaning>, bases: set<string>, ref: string, k: string)
    ensures var all := FacetMeans(m, bases, ref);
            && (k in all <==> k in m || k in Forms(bases, FACETS[0]) || k in Forms(bases, FACETS[1]) || k in Forms(bases, FACETS[2]) || k in Forms(bases, FACETS[3]))
            && (k in all ==> all[k] == if k in Forms(bases, FACETS[3]) then OfFacet(ref, FACETS[3])
                                       else if k in Forms(bases, FACETS[2]) then OfFacet(ref, FACETS[2])
                                       else if k in Forms(bases, FACETS[1]) then OfFacet(ref, FACETS[1])
                                       else if k in Forms(bases, FACETS[0]) then OfFacet(ref, FACETS[0]) else m[k])
  {
    hide Forms, WithFacets;
    var one := WithFacets(m, bases, ROLES[0], OfFacet(ref, ROLES[0]));
    var two := WithFacets(one, bases, ROLES[1], OfFacet(ref, ROLES[1]));
    var three := WithFacets(two, bases, ROLES[2], OfFacet(ref, ROLES[2]));
    assert ROLES[0] == FACETS[0] && ROLES[1] == FACETS[1] && ROLES[2] == FACETS[2] && ROLES[3] == FACETS[3];
    hide ROLES, FACETS;
    FacetStep(m, bases, ROLES[0], OfFacet(ref, ROLES[0]), k);
    FacetStep(one, bases, ROLES[1], OfFacet(ref, ROLES[1]), k);
    FacetStep(two, bases, ROLES[2], OfFacet(ref, ROLES[2]), k);
    FacetStep(three, bases, ROLES[3], OfFacet(ref, ROLES[3]), k);
  }

  lemma FormsIff(book: Book, gs: seq<Giving>, aliases: seq<(string, string)>, n: Glossary, s: Shown, k: string, f: int)
    requires NamingOk(gs, aliases, n) && Aggregated(book, s.meaning) && 0 <= f < 4
    ensures k in Forms(BasesOf(book, n.names, s), FACETS[f]) <==>
            exists base :: IsBase(book, gs, aliases, s, base) && (k == base + "_" + FACETS[f] || k == "compare." + base + "." + FACETS[f])
  {
    hide Called, IsCalled, Stands, FACETS;
    var node := book.target[s.meaning.ref];
    forall base ensures base in BasesOf(book, n.names, s) <==> IsBase(book, gs, aliases, s, base) {
      if node in n.names {
        assert base in NamesAt(n, node) <==> Called(gs, aliases, node, base);
      }
    }
  }

  lemma FacetAtLast(book: Book, gs: seq<Giving>, aliases: seq<(string, string)>, n: Glossary, shown: seq<Shown>, k: string, f: int)
    requires NamingOk(gs, aliases, n) && shown != [] && 0 <= f < 4
    ensures var s := shown[|shown| - 1];
            FacetAt(book, gs, aliases, shown, k, |shown| - 1, f) <==> Aggregated(book, s.meaning) && k in Forms(BasesOf(book, n.names, s), FACETS[f])
  {
    hide NamingOk, IsBase, Forms, BasesOf, FACETS;
    if Aggregated(book, shown[|shown| - 1].meaning) {
      FormsIff(book, gs, aliases, n, shown[|shown| - 1], k, f);
    }
  }

  lemma FacetAtFront(book: Book, gs: seq<Giving>, aliases: seq<(string, string)>, shown: seq<Shown>, k: string, i: int, f: int)
    requires shown != [] && i != |shown| - 1
    ensures FacetAt(book, gs, aliases, shown, k, i, f) <==> FacetAt(book, gs, aliases, shown[..|shown| - 1], k, i, f)
  {
    hide IsBase;
  }

  lemma FacetAtIn(book: Book, gs: seq<Giving>, aliases: seq<(string, string)>, shown: seq<Shown>, k: string, i: int, f: int)
    requires FacetAt(book, gs, aliases, shown, k, i, f)
    ensures 0 <= i < |shown| && 0 <= f < 4
  {
  }

  /** The last output makes the name by a facet. */
  ghost predicate LastMakes(book: Book, gs: seq<Giving>, aliases: seq<(string, string)>, shown: seq<Shown>, k: string, f: int) {
    FacetAt(book, gs, aliases, shown, k, |shown| - 1, f)
  }

  /** The last output does not make the name: whether and which facet it is, the others decide. */
  lemma NotTheLast(book: Book, gs: seq<Giving>, aliases: seq<(string, string)>, shown: seq<Shown>, k: string)
    requires shown != [] && forall f | 0 <= f < 4 :: !LastMakes(book, gs, aliases, shown, k, f)
    ensures IsFacet(book, gs, aliases, shown, k) <==> IsFacet(book, gs, aliases, shown[..|shown| - 1], k)
    ensures forall m :: FacetStands(book, gs, aliases, shown, k, m) <==> FacetStands(book, gs, aliases, shown[..|shown| - 1], k, m)
  {
    hide FACETS;
    var front := shown[..|shown| - 1];
    forall i, f ensures FacetAt(book, gs, aliases, shown, k, i, f) <==> FacetAt(book, gs, aliases, front, k, i, f) {
      hide IsBase;
      if i != |shown| - 1 {
        FacetAtFront(book, gs, aliases, shown, k, i, f);
      } else {
        assert 0 <= f < 4 ==> !LastMakes(book, gs, aliases, shown, k, f);
      }
    }
    hide FacetAt;
    forall i, f ensures LastFacet(book, gs, aliases, shown, k, i, f) <==> LastFacet(book, gs, aliases, front, k, i, f) {
    }
    forall i, f | LastFacet(book, gs, aliases, shown, k, i, f) ensures 0 <= i < |front| && front[i] == shown[i] {
      FacetAtIn(book, gs, aliases, front, k, i, f);
    }
  }

  lemma TheLast(book: Book, gs: seq<Giving>, aliases: seq<(string, string)>, shown: seq<Shown>, k: string, f: int)
    requires shown != [] && LastMakes(book, gs, aliases, shown, k, f) && forall g | f < g < 4 :: !LastMakes(book, gs, aliases, shown, k, g)
    ensures 0 <= f < 4 && IsFacet(book, gs, aliases, shown, k) && FacetStands(book, gs, aliases, shown, k, OfFacet(shown[|shown| - 1].meaning.ref, FACETS[f]))
  {
    hide IsBase;
    forall j, g | FacetAt(book, gs, aliases, shown, k, j, g) ensures j < |shown| - 1 || (j == |shown| - 1 && g <= f) {
      FacetAtIn(book, gs, aliases, shown, k, j, g);
      assert j == |shown| - 1 ==> LastMakes(book, gs, aliases, shown, k, g);
    }
    assert LastFacet(book, gs, aliases, shown, k, |shown| - 1, f);
  }

  lemma {:induction false} ComparedIs(
    book: Book, gs: seq<Giving>, aliases: seq<(string, string)>, n: Glossary, shown: seq<Shown>, m: map<string, Meaning>, k: string)
    requires NamingOk(gs, aliases, n)
    ensures var all := ComparedNames(book, n.names, shown, m);
            if IsFacet(book, gs, aliases, shown, k) then k in all && FacetStands(book, gs, aliases, shown, k, all[k])
            else (k in all <==> k in m) && (k in all ==> all[k] == m[k])
  {
    hide NamingOk, FacetAt, FacetStands, Forms, BasesOf, FacetMeans, IsMeasureRef, IsFacet;
    if shown == [] {
      NoFacets(book, gs, aliases, k);
    } else {
      var s, front := shown[|shown| - 1], shown[..|shown| - 1];
      ComparedIs(book, gs, aliases, n, front, m, k);
      forall f | 0 <= f < 4
        ensures LastMakes(book, gs, aliases, shown, k, f) <==> Aggregated(book, s.meaning) && k in Forms(BasesOf(book, n.names, s), FACETS[f])
      {
        FacetAtLast(book, gs, aliases, n, shown, k, f);
      }
      hide LastMakes;
      if Aggregated(book, s.meaning) {
        FacetMeansIs(ComparedNames(book, n.names, front, m), BasesOf(book, n.names, s), s.meaning.ref, k);
      }
      if LastMakes(book, gs, aliases, shown, k, 3) {
        TheLast(book, gs, aliases, shown, k, 3);
      } else if LastMakes(book, gs, aliases, shown, k, 2) {
        TheLast(book, gs, aliases, shown, k, 2);
      } else if LastMakes(book, gs, aliases, shown, k, 1) {
        TheLast(book, gs, aliases, shown, k, 1);
      } else if LastMakes(book, gs, aliases, shown, k, 0) {
        TheLast(book, gs, aliases, shown, k, 0);
      } else {
        NotTheLast(book, gs, aliases, shown, k);
      }
    }
  }

  lemma NoFacets(book: Book, gs: seq<Giving>, aliases: seq<(string, string)>, k: string)
    ensures !IsFacet(book, gs, aliases, [], k)
  {
  }

  // ------------------------------------------------------------------ all names

  predicate IsInlineName(derived: seq<Inline>, k: string) {
    exists i :: 0 <= i < |derived| && derived[i].name == k
  }

  /** The last inline measure of a name. */
  ghost predicate InlineStands(derived: seq<Inline>, k: string, m: Meaning) {
    exists i :: 0 <= i < |derived| && derived[i].name == k && m == OfInline(derived[i].op, derived[i].operands) && forall j | i < j < |derived| :: derived[j].name != k
  }

  lemma {:induction false} InlineIs(m: map<string, Meaning>, derived: seq<Inline>, k: string)
    ensures var all := InlineMeans(m, derived);
            if IsInlineName(derived, k) then k in all && InlineStands(derived, k, all[k]) else (k in all <==> k in m) && (k in all ==> all[k] == m[k])
  {
    if derived != [] {
      var n := |derived| - 1;
      InlineIs(m, derived[..n], k);
      assert forall i | 0 <= i < n :: derived[..n][i] == derived[i];
      if derived[n].name == k {
        assert InlineStands(derived, k, OfInline(derived[n].op, derived[n].operands));
      } else if i :| 0 <= i < |derived| && derived[i].name == k {
        assert derived[..n][i].name == k;
      }
    }
  }

  lemma InlineStandsOne(derived: seq<Inline>, k: string, m: Meaning, o: Meaning)
    requires InlineStands(derived, k, m) && InlineStands(derived, k, o)
    ensures m == o
  {
    var i :| 0 <= i < |derived| && derived[i].name == k && m == OfInline(derived[i].op, derived[i].operands) && forall j | i < j < |derived| :: derived[j].name != k;
    var l :| 0 <= l < |derived| && derived[l].name == k && o == OfInline(derived[l].op, derived[l].operands) && forall j | l < j < |derived| :: derived[j].name != k;
    assert i == l;
  }

  lemma FacetStandsOne(book: Book, gs: seq<Giving>, aliases: seq<(string, string)>, shown: seq<Shown>, k: string, m: Meaning, o: Meaning)
    requires FacetStands(book, gs, aliases, shown, k, m) && FacetStands(book, gs, aliases, shown, k, o)
    ensures m == o
  {
    hide IsBase;
    var i, f :| LastFacet(book, gs, aliases, shown, k, i, f) && m == OfFacet(shown[i].meaning.ref, FACETS[f]);
    var j, g :| LastFacet(book, gs, aliases, shown, k, j, g) && o == OfFacet(shown[j].meaning.ref, FACETS[g]);
    assert i == j && f == g;
  }

  /**
    A name stands for a facet of the last compared output that makes it, else for the last inline
    measure of that name, else for the field its givings and aliases lead to.
  */
  ghost predicate NameStands(book: Book, q: Query, r: Resolved, plan: Plan, k: string, m: Meaning)
    requires LinedUp(q, r) && RefsIn(book.target, q, plan)
  {
    var gs, shown := Givings(book.target, plan.columns, q.measures, r.measures), BaseShown(q.aliases, plan.columns, q.derived);
    if plan.comparing && IsFacet(book, gs, q.aliases, shown, k) then FacetStands(book, gs, q.aliases, shown, k, m)
    else if IsInlineName(q.derived, k) then InlineStands(q.derived, k, m)
    else m.OfField? && Stands(gs, q.aliases, k, m.ref)
  }

  lemma HavingIs(book: Book, q: Query, r: Resolved, plan: Plan, k: string, m: Meaning)
    requires LinedUp(q, r) && RefsIn(book.target, q, plan)
    ensures k in HavingMeans(book, q, r, plan) && HavingMeans(book, q, r, plan)[k] == m <==> NameStands(book, q, r, plan, k, m)
  {
    hide Stands, FacetStands, IsFacet, InlineStands, IsInlineName, ComparedNames, InlineMeans, BaseShown, NamingOf, Givings, Called, IsCalled;
    var gs, shown := Givings(book.target, plan.columns, q.measures, r.measures), BaseShown(q.aliases, plan.columns, q.derived);
    var known := NamingOf(book.target, q.aliases, plan.columns, q.measures, r.measures);
    NamingIs(book.target, q.aliases, plan.columns, q.measures, r.measures);
    var base := InlineMeans(FieldMeans(known.targets), q.derived);
    InlineIs(FieldMeans(known.targets), q.derived, k);
    ComparedIs(book, gs, q.aliases, known, shown, base, k);
    if IsInlineName(q.derived, k) && InlineStands(q.derived, k, m) {
      InlineStandsOne(q.derived, k, m, base[k]);
    }
    if IsFacet(book, gs, q.aliases, shown, k) && FacetStands(book, gs, q.aliases, shown, k, m) {
      FacetStandsOne(book, gs, q.aliases, shown, k, m, ComparedNames(book, known.names, shown, base)[k]);
    }
  }
}
