/**
  The names that HAVING clauses may use for a projection's outputs: which names
  there are, and that this does not depend on how nodes are numbered.
*/
module AnalysisNames {
  import opened AnalysisDraft
  import opened AnalysisAssembly

  /** The node each name stands for, and all names given to a node. */
  datatype Glossary = Glossary(targets: map<string, string>, names: map<string, set<string>>)

  const NAMELESS := Glossary(map[], map[])

  function NamesAt(n: Glossary, node: string): set<string> {
    if node in n.names then n.names[node] else {}
  }

  /** Give a node more names; all its names stand for it again. */
  function Tell(n: Glossary, more: set<string>, node: string): Glossary {
    var all := NamesAt(n, node) + more;
    Glossary(n.targets + map k | k in all :: node, n.names[node := all])
  }

  function Reference(c: Column): string {
    c.cube + "." + c.field
  }

  function ColumnRefs(columns: seq<Column>): (refs: seq<string>)
    ensures |refs| == |columns| && forall i | 0 <= i < |refs| :: refs[i] == Reference(columns[i])
  {
    seq(|columns|, i requires 0 <= i < |columns| => Reference(columns[i]))
  }

  predicate AllUsed(ids: map<string, string>, refs: seq<string>) {
    forall ref | ref in refs :: ref in ids
  }

  function ToldColumn(n: Glossary, ids: map<string, string>, c: Column): Glossary
    requires Reference(c) in ids
  {
    if c.isMeasure then Tell(n, {Reference(c), c.field, c.alias}, ids[Reference(c)]) else n
  }

  /** Measure columns may be named by reference, field or column alias. */
  function ColumnNaming(ids: map<string, string>, columns: seq<Column>): Glossary
    requires forall c | c in columns :: Reference(c) in ids
  {
    if columns == [] then NAMELESS else
      ToldColumn(ColumnNaming(ids, columns[..|columns| - 1]), ids, columns[|columns| - 1])
  }

  /** Requested measures may be named by reference, field or own name. */
  function MeasureNaming(n: Glossary, ids: map<string, string>, refs: seq<string>, fs: seq<Field>): Glossary
    requires |refs| == |fs| && AllUsed(ids, refs)
  {
    if refs == [] then n else
      var k := |refs| - 1;
      Tell(MeasureNaming(n, ids, refs[..k], fs[..k]), {refs[k], fs[k].name, Canonical(fs[k])}, ids[refs[k]])
  }

  function ToldAlias(n: Glossary, alias: (string, string)): Glossary {
    if alias.1 in n.targets then
      var node := n.targets[alias.1];
      Glossary(n.targets[alias.0 := node], n.names[node := NamesAt(n, node) + {alias.0}])
    else n
  }

  /** An alias of something named is a name too. */
  function AliasNaming(n: Glossary, aliases: seq<(string, string)>): Glossary {
    if aliases == [] then n else ToldAlias(AliasNaming(n, aliases[..|aliases| - 1]), aliases[|aliases| - 1])
  }

  /** The names of columns and measures, by reference. */
  function NamingOf(ids: map<string, string>, aliases: seq<(string, string)>, columns: seq<Column>, refs: seq<string>, fs: seq<Field>): Glossary
    requires |refs| == |fs| && AllUsed(ids, refs) && forall c | c in columns :: Reference(c) in ids
  {
    AliasNaming(MeasureNaming(ColumnNaming(ids, columns), ids, refs, fs), aliases)
  }

  /** The facets of a compared measure. */
  const ROLES := ["current", "prior", "delta", "pct_change"]

  // ------------------------------------------------- names under renumbering

  /** Two namings by different identifiers of the same nodes. */
  ghost predicate SameNames(a: Glossary, b: Glossary, f: map<string, string>) {
    && a.targets.Keys == b.targets.Keys && (forall k | k in b.targets :: b.targets[k] in f && a.targets[k] == f[b.targets[k]])
    && (forall c | c in b.names :: c in f && f[c] in a.names && a.names[f[c]] == b.names[c])
    && (forall id | id in a.names :: exists c | c in b.names :: c in f && f[c] == id)
  }

  predicate Injective(f: map<string, string>) {
    forall x, y | x in f && y in f && f[x] == f[y] :: x == y
  }

  lemma NamesAtSame(a: Glossary, b: Glossary, f: map<string, string>, node: string)
    requires SameNames(a, b, f) && Injective(f) && node in f
    ensures NamesAt(a, f[node]) == NamesAt(b, node) && (f[node] in a.names <==> node in b.names)
  {
    if f[node] in a.names {
      var c :| c in b.names && c in f && f[c] == f[node];
    }
  }

  lemma NamedSame(a: Glossary, b: Glossary, f: map<string, string>, node: string, all: set<string>, at: map<string, string>, bt: map<string, string>)
    requires SameNames(a, b, f) && Injective(f) && node in f
    requires at.Keys == bt.Keys && forall k | k in bt :: bt[k] in f && at[k] == f[bt[k]]
    ensures SameNames(Glossary(at, a.names[f[node] := all]), Glossary(bt, b.names[node := all]), f)
  {
    var more, bmore := a.names[f[node] := all], b.names[node := all];
    forall id | id in more ensures exists c | c in bmore :: c in f && f[c] == id {
      if id == f[node] {
        assert node in bmore;
      } else {
        var c :| c in b.names && c in f && f[c] == id;
        assert c in bmore;
      }
    }
    forall c | c in bmore ensures c in f && f[c] in more && more[f[c]] == bmore[c] {
    }
  }

  lemma TellSame(a: Glossary, b: Glossary, f: map<string, string>, more: set<string>, node: string)
    requires SameNames(a, b, f) && Injective(f) && node in f
    ensures SameNames(Tell(a, more, f[node]), Tell(b, more, node), f)
  {
    hide Injective;
    NamesAtSame(a, b, f, node);
    var all := NamesAt(b, node) + more;
    NamedSame(a, b, f, node, all, a.targets + map k | k in all :: f[node], b.targets + map k | k in all :: node);
  }

  lemma ToldAliasSame(a: Glossary, b: Glossary, f: map<string, string>, alias: (string, string))
    requires SameNames(a, b, f) && Injective(f)
    ensures SameNames(ToldAlias(a, alias), ToldAlias(b, alias), f)
  {
    hide Injective;
    if alias.1 in b.targets {
      var node := b.targets[alias.1];
      NamesAtSame(a, b, f, node);
      NamedSame(a, b, f, node, NamesAt(b, node) + {alias.0}, a.targets[alias.0 := f[node]], b.targets[alias.0 := node]);
    }
  }

  /** Node identifiers are one per name: `f` gives a name's. */
  ghost predicate Through(ids: map<string, string>, target: map<string, string>, f: map<string, string>) {
    forall ref | ref in target :: ref in ids && target[ref] in f && ids[ref] == f[target[ref]]
  }

  lemma {:induction false} ColumnsSame(ids: map<string, string>, target: map<string, string>, f: map<string, string>, columns: seq<Column>)
    requires Through(ids, target, f) && Injective(f) && forall c | c in columns :: Reference(c) in target
    ensures SameNames(ColumnNaming(ids, columns), ColumnNaming(target, columns), f)
  {
    hide SameNames, Tell, Injective, Reference;
    if columns == [] {
      assert SameNames(NAMELESS, NAMELESS, f) by { NamelessSame(f); }
    } else {
      var n := |columns| - 1;
      ColumnsSame(ids, target, f, columns[..n]);
      if columns[n].isMeasure {
        var ref := Reference(columns[n]);
        TellSame(ColumnNaming(ids, columns[..n]), ColumnNaming(target, columns[..n]), f, {ref, columns[n].field, columns[n].alias}, target[ref]);
      }
    }
  }

  lemma NamelessSame(f: map<string, string>)
    ensures SameNames(NAMELESS, NAMELESS, f)
  {
  }

  lemma {:induction false} MeasuresSame(a: Glossary, b: Glossary, ids: map<string, string>, target: map<string, string>, f: map<string, string>,
                                       refs: seq<string>, fs: seq<Field>)
    requires SameNames(a, b, f) && Through(ids, target, f) && Injective(f) && |refs| == |fs| && AllUsed(target, refs) && AllUsed(ids, refs)
    ensures SameNames(MeasureNaming(a, ids, refs, fs), MeasureNaming(b, target, refs, fs), f)
  {
    hide SameNames, Tell, Injective;
    if refs != [] {
      var k := |refs| - 1;
      MeasuresSame(a, b, ids, target, f, refs[..k], fs[..k]);
      TellSame(MeasureNaming(a, ids, refs[..k], fs[..k]), MeasureNaming(b, target, refs[..k], fs[..k]), f,
               {refs[k], fs[k].name, Canonical(fs[k])}, target[refs[k]]);
    }
  }

  lemma {:induction false} AliasesSame(a: Glossary, b: Glossary, f: map<string, string>, aliases: seq<(string, string)>)
    requires SameNames(a, b, f) && Injective(f)
    ensures SameNames(AliasNaming(a, aliases), AliasNaming(b, aliases), f)
  {
    hide SameNames, ToldAlias, Injective;
    if aliases != [] {
      AliasesSame(a, b, f, aliases[..|aliases| - 1]);
      ToldAliasSame(AliasNaming(a, aliases[..|aliases| - 1]), AliasNaming(b, aliases[..|aliases| - 1]), f, aliases[|aliases| - 1]);
    }
  }

  /** Which names there are depends on the references in use, not on their nodes' numbers. */
  lemma NamingSame(ids: map<string, string>, target: map<string, string>, f: map<string, string>,
                   aliases: seq<(string, string)>, columns: seq<Column>, refs: seq<string>, fs: seq<Field>)
    requires Through(ids, target, f) && Injective(f) && |refs| == |fs|
    requires AllUsed(target, refs) && AllUsed(ids, refs) && forall c | c in columns :: Reference(c) in target
    ensures SameNames(NamingOf(ids, aliases, columns, refs, fs), NamingOf(target, aliases, columns, refs, fs), f)
  {
    hide SameNames, Injective, Reference;
    ColumnsSame(ids, target, f, columns);
    MeasuresSame(ColumnNaming(ids, columns), ColumnNaming(target, columns), ids, target, f, refs, fs);
    AliasesSame(MeasureNaming(ColumnNaming(ids, columns), ids, refs, fs), MeasureNaming(ColumnNaming(target, columns), target, refs, fs), f, aliases);
  }

  // ------------------------------------------------- names are settled early

  predicate Agree(ids: map<string, string>, more: map<string, string>) {
    forall ref | ref in ids :: ref in more && more[ref] == ids[ref]
  }

  lemma {:induction false} ColumnNamingKept(ids: map<string, string>, more: map<string, string>, columns: seq<Column>)
    requires Agree(ids, more) && forall c | c in columns :: Reference(c) in ids
    ensures ColumnNaming(more, columns) == ColumnNaming(ids, columns)
  {
    hide Tell, Reference;
    if columns != [] {
      ColumnNamingKept(ids, more, columns[..|columns| - 1]);
    }
  }

  lemma {:induction false} MeasureNamingKept(n: Glossary, ids: map<string, string>, more: map<string, string>, refs: seq<string>, fs: seq<Field>)
    requires Agree(ids, more) && |refs| == |fs| && AllUsed(ids, refs)
    ensures AllUsed(more, refs) && MeasureNaming(n, more, refs, fs) == MeasureNaming(n, ids, refs, fs)
  {
    hide Tell;
    if refs != [] {
      MeasureNamingKept(n, ids, more, refs[..|refs| - 1], fs[..|refs| - 1]);
    }
  }
}
