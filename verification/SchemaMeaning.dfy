/** What the projection of a schema deletes and what it keeps. */
module SchemaMeaning {

  import opened Schema
  import opened Wrappers

  // ------------------------------------------------------------- ways down

  /** A way from a schema object down through its subschemas. */
  predicate WayDown(n: Node, way: seq<Node>) {
    way != [] && way[0] == n && forall i | 0 <= i < |way| - 1 :: way[i + 1] in way[i].children
  }

  /** No step of the way enters a property. */
  predicate WithinValue(way: seq<Node>) {
    forall i | 0 < i < |way| :: way[i].place == Items || way[i].place == AnyOf || way[i].place == OneOf || way[i].place == AllOf
  }

  predicate EndsAt(way: seq<Node>, name: string)
    requires way != []
  {
    way[|way| - 1].ref == Some(name)
  }

  /** Directly, or through items / anyOf / oneOf / allOf, the value refers to one of the names. */
  ghost predicate Touches(n: Node, names: set<string>) {
    exists way, name :: WayDown(n, way) && WithinValue(way) && name in names && EndsAt(way, name)
  }

  lemma StepDown(n: Node, c: Node, way: seq<Node>)
    requires c in n.children && WayDown(c, way)
    ensures WayDown(n, [n] + way) && ([n] + way)[|way|] == way[|way| - 1]
  {
    var long := [n] + way;
    forall i | 0 <= i < |long| - 1 ensures long[i + 1] in long[i].children {
      if i > 0 {
        assert long[i] == way[i - 1] && way[i - 1 + 1] in way[i - 1].children;
      }
    }
  }

  lemma RestOfWay(n: Node, way: seq<Node>)
    requires WayDown(n, way) && |way| > 1
    ensures way[1] in n.children && WayDown(way[1], way[1..])
  {
    assert way[0 + 1] in way[0].children;
    forall i | 0 <= i < |way[1..]| - 1 ensures way[1..][i + 1] in way[1..][i].children {
      assert way[i + 1 + 1] in way[i + 1].children;
    }
  }

  /** The recursive test finds exactly the values with a way to a banned reference that enters no property. */
  lemma {:induction false} ReferencesAnyIff(n: Node, banned: set<string>)
    ensures ReferencesAny(n, banned) <==> Touches(n, banned)
    decreases n
  {
    if ReferencesAny(n, banned) {
      if n.ref.Some? && n.ref.value in banned {
        assert WayDown(n, [n]) && WithinValue([n]) && EndsAt([n], n.ref.value);
      } else {
        var c :| c in n.children && IsThrough(c.place) && ReferencesAny(c, banned);
        ReferencesAnyIff(c, banned);
        var way, name :| WayDown(c, way) && WithinValue(way) && name in banned && EndsAt(way, name);
        StepDown(n, c, way);
        assert WithinValue([n] + way) && EndsAt([n] + way, name);
      }
    }
    if Touches(n, banned) {
      var way: seq<Node>, name :| WayDown(n, way) && WithinValue(way) && name in banned && EndsAt(way, name);
      if |way| > 1 {
        RestOfWay(n, way);
        assert IsThrough(way[1].place) && WithinValue(way[1..]) && EndsAt(way[1..], name);
        ReferencesAnyIff(way[1], banned);
      } else {
        assert name in OwnRef(n) * banned;
      }
    }
  }

  /** The names a schema refers to are those at the end of any way down. */
  lemma {:induction false} RefsAre(n: Node, name: string)
    ensures name in Refs(n) <==> exists way :: WayDown(n, way) && EndsAt(way, name)
    decreases n
  {
    RefsOfMember(n.children);
    if name in Refs(n) {
      if n.ref == Some(name) {
        assert WayDown(n, [n]) && EndsAt([n], name);
      } else {
        var c :| c in n.children && name in Refs(c);
        RefsAre(c, name);
        var way :| WayDown(c, way) && EndsAt(way, name);
        StepDown(n, c, way);
        assert EndsAt([n] + way, name);
      }
    }
    if way :| WayDown(n, way) && EndsAt(way, name) {
      if |way| > 1 {
        RestOfWay(n, way);
        assert EndsAt(way[1..], name);
        RefsAre(way[1], name);
      }
    }
  }

  // ---------------------------------------------------------- what is kept

  /** Positions in order, each below a length. */
  predicate Ascending(at: seq<nat>, n: nat) {
    (forall k | 0 <= k < |at| :: at[k] < n) && forall j, k | 0 <= j < k < |at| :: at[j] < at[k]
  }

  /** A property whose value touches a banned name goes. */
  ghost predicate Goes(c: Node, banned: set<string>) {
    c.place.Property? && Touches(c, banned)
  }

  ghost predicate NameGoes(ns: seq<Node>, banned: set<string>, name: string) {
    exists c | c in ns :: c.place == Property(name) && Touches(c, banned)
  }

  ghost predicate KeepsChildren(ns: seq<Node>, banned: set<string>, at: seq<nat>) {
    Ascending(at, |ns|) && forall i: nat | i < |ns| :: i in at <==> !Goes(ns[i], banned)
  }

  ghost predicate KeepsNames(n: Node, banned: set<string>, at: seq<nat>) {
    Ascending(at, |n.required|) && forall i: nat | i < |n.required| :: i in at <==> !NameGoes(n.children, banned, n.required[i])
  }

  /** Place and reference stay, and exactly the doomed properties and their `required` entries are missing, at every depth. */
  ghost predicate StripsTo(n: Node, banned: set<string>, out: Node)
    decreases n
  {
    && out.place == n.place && out.ref == n.ref
    && (exists at :: KeepsNames(n, banned, at) && |out.required| == |at| && forall k | 0 <= k < |at| :: out.required[k] == n.required[at[k]])
    && exists at ::
         && KeepsChildren(n.children, banned, at) && |out.children| == |at|
         && forall k | 0 <= k < |at| :: StripsTo(n.children[at[k]], banned, out.children[k])
  }

  /** Positions one further along, with the first position before them when it is picked. */
  function Prepended(first: bool, at: seq<nat>): seq<nat> {
    var later := seq(|at|, k requires 0 <= k < |at| => at[k] + 1);
    if first then [0] + later else later
  }

  /** The positions of the true flags. */
  predicate Picks(at: seq<nat>, flags: seq<bool>) {
    Ascending(at, |flags|) && forall i: nat | i < |flags| :: i in at <==> flags[i]
  }

  lemma PicksCons(flags: seq<bool>, at: seq<nat>)
    requires flags != [] && Picks(at, flags[1..])
    ensures Picks(Prepended(flags[0], at), flags)
  {
    var all := Prepended(flags[0], at);
    forall i: nat | i < |flags| ensures i in all <==> flags[i] {
      if i > 0 {
        PrependedHas(flags[0], at, i - 1);
        assert flags[i] == flags[1..][i - 1];
      }
    }
  }

  lemma PrependedHas(first: bool, at: seq<nat>, i: nat)
    ensures i + 1 in Prepended(first, at) <==> i in at
  {
    var later := seq(|at|, k requires 0 <= k < |at| => at[k] + 1);
    if k :| 0 <= k < |at| && at[k] == i {
      assert later[k] == i + 1;
    }
  }

  /** The elements at positions, in that order. */
  predicate TakenFrom<T(==)>(out: seq<T>, all: seq<T>, at: seq<nat>) {
    |out| == |at| && forall k | 0 <= k < |at| :: at[k] < |all| && out[k] == all[at[k]]
  }

  lemma TakenCons<T>(out: seq<T>, all: seq<T>, at: seq<nat>, first: bool)
    requires all != [] && TakenFrom(out, all[1..], at)
    ensures TakenFrom(if first then [all[0]] + out else out, all, Prepended(first, at))
  {
    var out' := if first then [all[0]] + out else out;
    var at' := Prepended(first, at);
    forall k | 0 <= k < |at'| ensures at'[k] < |all| && out'[k] == all[at'[k]] {
      var j := if first then k - 1 else k;
      if j >= 0 {
        assert out[j] == all[1..][at[j]];
      }
    }
  }

  function Flags(required: seq<string>, dropped: set<string>): seq<bool> {
    seq(|required|, i requires 0 <= i < |required| => required[i] !in dropped)
  }

  lemma {:induction false} UndroppedAt(required: seq<string>, dropped: set<string>) returns (at: seq<nat>)
    ensures Picks(at, Flags(required, dropped)) && TakenFrom(Undropped(required, dropped), required, at)
  {
    hide Picks, Prepended;
    at := [];
    if required == [] {
      assert Picks([], []) by { NothingPicked(); }
    } else {
      var rest := UndroppedAt(required[1..], dropped);
      assert Flags(required, dropped)[1..] == Flags(required[1..], dropped);
      at := Prepended(required[0] !in dropped, rest);
      PicksCons(Flags(required, dropped), rest);
      TakenCons(Undropped(required[1..], dropped), required, rest, required[0] !in dropped);
    }
  }

  lemma NothingPicked()
    ensures Picks([], [])
  {
  }

  /** Each child stripped, and whether it stays. */
  function EachStripped(ns: seq<Node>, banned: set<string>): seq<Node> {
    seq(|ns|, i requires 0 <= i < |ns| => Strip(ns[i], banned))
  }

  function Stays(ns: seq<Node>, banned: set<string>): seq<bool> {
    seq(|ns|, i requires 0 <= i < |ns| => !Dropped(ns[i], banned))
  }

  lemma {:induction false} StripAllAt(ns: seq<Node>, banned: set<string>) returns (at: seq<nat>)
    ensures Picks(at, Stays(ns, banned)) && TakenFrom(StripAll(ns, banned), EachStripped(ns, banned), at)
  {
    hide Dropped, Strip, Picks, Prepended;
    at := [];
    if ns == [] {
      assert Picks([], []) by { NothingPicked(); }
    } else {
      var rest := StripAllAt(ns[1..], banned);
      assert Stays(ns, banned)[1..] == Stays(ns[1..], banned);
      assert EachStripped(ns, banned)[1..] == EachStripped(ns[1..], banned);
      at := Prepended(!Dropped(ns[0], banned), rest);
      PicksCons(Stays(ns, banned), rest);
      TakenCons(StripAll(ns[1..], banned), EachStripped(ns, banned), rest, !Dropped(ns[0], banned));
    }
  }

  /** Stripping deletes exactly the properties with a way to a banned reference, and nothing else. */
  lemma {:induction false} StripExactly(n: Node, banned: set<string>)
    ensures StripsTo(n, banned, Strip(n, banned))
    decreases n
  {
    hide ReferencesAny, Touches, Undropped, StripAll;
    var out := Strip(n, banned);
    forall c | c in n.children ensures Dropped(c, banned) <==> Goes(c, banned) {
      ReferencesAnyIff(c, banned);
    }
    var names := UndroppedAt(n.required, DroppedNames(n.children, banned));
    forall i: nat | i < |n.required| ensures i in names <==> !NameGoes(n.children, banned, n.required[i]) {
      NameGoesIff(n.children, banned, n.required[i]);
    }
    assert KeepsNames(n, banned, names);
    var at := StripAllAt(n.children, banned);
    assert KeepsChildren(n.children, banned, at);
    forall k | 0 <= k < |at| ensures StripsTo(n.children[at[k]], banned, out.children[k]) {
      StripExactly(n.children[at[k]], banned);
    }
  }

  lemma NameGoesIff(ns: seq<Node>, banned: set<string>, name: string)
    ensures name in DroppedNames(ns, banned) <==> NameGoes(ns, banned, name)
  {
    hide ReferencesAny, Touches;
    forall c | c in ns ensures ReferencesAny(c, banned) <==> Touches(c, banned) {
      ReferencesAnyIff(c, banned);
    }
    if c :| c in ns && c.place == Property(name) && Touches(c, banned) {
      assert Dropped(c, banned) && c.place.name == name;
    }
  }

  // ------------------------------------------------------ tuples to arrays

  predicate IsTuple(n: Node) {
    exists c :: c in n.children && c.place == PrefixItem
  }

  /** A subschema that stays where it is beside a tuple. */
  predicate Beside(c: Node) {
    c.place != PrefixItem && c.place != Items
  }

  ghost predicate KeepsBeside(ns: seq<Node>, at: seq<nat>) {
    Ascending(at, |ns|) && forall i: nat | i < |ns| :: i in at <==> Beside(ns[i])
  }

  /** The tuple positions whose schema did not occur before. */
  ghost predicate KeepsFirsts(ns: seq<Node>, at: seq<nat>) {
    Ascending(at, |ns|) && forall i: nat | i < |ns| :: i in at <==> FirstPosition(ns, i)
  }

  /** A subschema rewritten under a new keyword. */
  ghost predicate MovesTo(c: Node, place: Keyword, out: Node)
    decreases c, 3
  {
    out.place == place && InlinesTo(c, out.(place := c.place))
  }

  /** One schema for all elements: the only distinct position, or a choice between the distinct positions in order. */
  ghost predicate ItemOf(n: Node, item: Node)
    decreases n, 0
  {
    exists at :: KeepsFirsts(n.children, at) && if |at| == 1 then MovesTo(n.children[at[0]], Items, item) else
      && item.place == Items && item.ref == None && item.required == [] && |item.children| == |at|
      && forall k | 0 <= k < |at| :: MovesTo(n.children[at[k]], AnyOf, item.children[k])
  }

  /** Only tuple positions and an `items` beside them are replaced, by one `items` after the other subschemas, at every depth. */
  ghost predicate InlinesTo(n: Node, out: Node)
    decreases n, 2
  {
    && out.place == n.place && out.ref == n.ref && out.required == n.required
    && if !IsTuple(n) then |out.children| == |n.children| && forall i | 0 <= i < |n.children| :: InlinesTo(n.children[i], out.children[i])
       else |out.children| >= 1 && ItemOf(n, out.children[|out.children| - 1])
            && exists at ::
                 && KeepsBeside(n.children, at) && |out.children| == |at| + 1
                 && forall k | 0 <= k < |at| :: InlinesTo(n.children[at[k]], out.children[k])
  }

  function EachInlined(ns: seq<Node>): seq<Node> {
    seq(|ns|, i requires 0 <= i < |ns| => Inline(ns[i]))
  }

  function BesideFlags(ns: seq<Node>): seq<bool> {
    seq(|ns|, i requires 0 <= i < |ns| => Beside(ns[i]))
  }

  lemma {:induction false} InlineAllIs(ns: seq<Node>)
    ensures InlineAll(ns) == EachInlined(ns)
  {
    hide Inline;
    if ns != [] {
      InlineAllIs(ns[1..]);
      assert EachInlined(ns)[1..] == EachInlined(ns[1..]);
    }
  }

  lemma {:induction false} InlineBesideAt(ns: seq<Node>) returns (at: seq<nat>)
    ensures Picks(at, BesideFlags(ns)) && TakenFrom(InlineBeside(ns), EachInlined(ns), at)
  {
    hide Inline, Picks, Prepended;
    at := [];
    if ns == [] {
      assert Picks([], []) by { NothingPicked(); }
    } else {
      var rest := InlineBesideAt(ns[1..]);
      assert BesideFlags(ns)[1..] == BesideFlags(ns[1..]);
      assert EachInlined(ns)[1..] == EachInlined(ns[1..]);
      at := Prepended(Beside(ns[0]), rest);
      PicksCons(BesideFlags(ns), rest);
      TakenCons(InlineBeside(ns[1..]), EachInlined(ns), rest, Beside(ns[0]));
    }
  }

  function FirstFlags(ns: seq<Node>): seq<bool> {
    seq(|ns|, i requires 0 <= i < |ns| => FirstPosition(ns, i))
  }

  lemma {:induction false} InlinePositionsAt(ns: seq<Node>, i: nat) returns (at: seq<nat>)
    requires i <= |ns|
    ensures Picks(at, FirstFlags(ns)[i..]) && TakenFrom(InlinePositions(ns, i), EachInlined(ns)[i..], at)
    decreases |ns| - i
  {
    hide Inline, Picks, Prepended, FirstPosition;
    at := [];
    if i == |ns| {
      assert Picks([], []) by { NothingPicked(); }
      assert FirstFlags(ns)[i..] == [];
    } else {
      var rest := InlinePositionsAt(ns, i + 1);
      assert FirstFlags(ns)[i..][1..] == FirstFlags(ns)[i + 1..];
      assert EachInlined(ns)[i..][1..] == EachInlined(ns)[i + 1..];
      at := Prepended(FirstPosition(ns, i), rest);
      PicksCons(FirstFlags(ns)[i..], rest);
      TakenCons(InlinePositions(ns, i + 1), EachInlined(ns)[i..], rest, FirstPosition(ns, i));
    }
  }

  ghost predicate ChildrenInlined(n: Node) {
    forall i: nat | i < |n.children| :: InlinesTo(n.children[i], Inline(n.children[i]))
  }

  /** The rewrite replaces the tuple positions by one schema for all elements, and nothing else. */
  lemma {:induction false} InlineExactly(n: Node)
    ensures InlinesTo(n, Inline(n))
    decreases n
  {
    forall i: nat | i < |n.children| ensures InlinesTo(n.children[i], Inline(n.children[i])) {
      InlineExactly(n.children[i]);
    }
    if IsTuple(n) {
      InlineTuple(n);
    } else {
      InlinePlain(n);
    }
  }

  lemma InlinePlain(n: Node)
    requires !IsTuple(n) && ChildrenInlined(n)
    ensures InlinesTo(n, Inline(n))
  {
    hide InlineAll, InlineBeside, InlinePositions;
    InlineAllIs(n.children);
    assert Inline(n) == n.(children := EachInlined(n.children));
  }

  lemma InlineTuple(n: Node)
    requires IsTuple(n) && ChildrenInlined(n)
    ensures InlinesTo(n, Inline(n))
  {
    hide InlineAll, InlineBeside, InlinePositions, ItemSchema, ItemOf;
    var at := InlineBesideAt(n.children);
    assert KeepsBeside(n.children, at);
    ItemIs(n);
    var item, out := ItemSchema(InlinePositions(n.children, 0)), Inline(n);
    assert out == n.(children := InlineBeside(n.children) + [item]);
    hide Inline;
    forall k | 0 <= k < |at| ensures InlinesTo(n.children[at[k]], out.children[k]) {
      assert out.children[k] == Inline(n.children[at[k]]);
    }
  }

  lemma InlineKeepsPlace(n: Node)
    ensures Inline(n).place == n.place
  {
  }

  lemma ItemIs(n: Node)
    requires IsTuple(n) && ChildrenInlined(n)
    ensures ItemOf(n, ItemSchema(InlinePositions(n.children, 0)))
  {
    hide InlinePositions, InlinesTo, FirstPosition, Inline;
    var at := InlinePositionsAt(n.children, 0);
    assert FirstFlags(n.children)[0..] == FirstFlags(n.children) && EachInlined(n.children)[0..] == EachInlined(n.children);
    assert KeepsFirsts(n.children, at);
    var distinct := InlinePositions(n.children, 0);
    forall k, place | 0 <= k < |at| ensures MovesTo(n.children[at[k]], place, distinct[k].(place := place)) {
      InlineKeepsPlace(n.children[at[k]]);
      assert distinct[k].(place := place).(place := n.children[at[k]].place) == distinct[k];
    }
  }

  // -------------------------------------------------------- the projection

  ghost predicate InlinedTo(doc: Document, mid: Document) {
    && InlinesTo(doc.root, mid.root) && mid.defs.Keys == doc.defs.Keys
    && forall name | name in doc.defs :: InlinesTo(doc.defs[name], mid.defs[name])
  }

  /** The definitions on a reference cycle go, with the properties that touch them. */
  ghost predicate CutTo(mid: Document, cyclic: set<string>, cut: Document) {
    && StripsTo(mid.root, cyclic, cut.root) && cut.defs.Keys == mid.defs.Keys - cyclic
    && forall name | name in cut.defs :: StripsTo(mid.defs[name], cyclic, cut.defs[name])
  }

  ghost predicate PrunedTo(cut: Document, out: Document) {
    && out.root == cut.root
    && (forall name :: name in out.defs <==> name in cut.defs && Reachable(cut.root, cut.defs, name))
    && forall name | name in out.defs :: out.defs[name] == cut.defs[name]
  }

  ghost predicate AreCyclic(defs: map<string, Node>, cyclic: set<string>) {
    forall name :: name in cyclic <==> name in defs && OnCycle(Edges(defs), name)
  }

  lemma EdgesKeys(defs: map<string, Node>)
    ensures Edges(defs).Keys == defs.Keys
  {
  }

  /** The projection in terms of its parts' meanings: tuples, then cycles, then what is out of reach. */
  lemma ProjectionIs(doc: Document, out: Document)
    requires IsLlmSafe(doc, out)
    ensures exists mid, cyclic, cut ::
              && InlinedTo(doc, mid) && AreCyclic(mid.defs, cyclic)
              && if cyclic == {} then out == mid else CutTo(mid, cyclic, cut) && PrunedTo(cut, out)
  {
    hide Inline, Strip, CyclicDefNames, Reachable, OnCycle, InlinesTo, StripsTo, Edges;
    var mid := Inlined(doc);
    var cyclic, cut := CyclicDefNames(Edges(mid.defs)), Stripped(mid);
    assert Edges(mid.defs).Keys == mid.defs.Keys by { EdgesKeys(mid.defs); }
    InlineExactly(doc.root);
    forall name | name in doc.defs { InlineExactly(doc.defs[name]); }
    forall name ensures name in cyclic <==> name in mid.defs && OnCycle(Edges(mid.defs), name) {
      CyclicDefNamesExact(Edges(mid.defs), name);
    }
    StripExactly(mid.root, cyclic);
    forall name | name in cut.defs ensures StripsTo(mid.defs[name], cyclic, cut.defs[name]) {
      StripExactly(mid.defs[name], cyclic);
    }
    assert InlinedTo(doc, mid) && AreCyclic(mid.defs, cyclic);
    assert CutTo(mid, cyclic, cut) && (cyclic == {} || PrunedTo(cut, out));
  }
}
