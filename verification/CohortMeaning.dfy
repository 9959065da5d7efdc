/**
  A cohort run as relational algebra: nested-loop left joins on typed
  keys, insensitive to the order of the measurements' rows.
*/
module CohortMeaning {
  import opened Wrappers
  import opened Sequences
  import opened Cohort
  import opened CohortComparison

  // ------------------------------------------------------ nested-loop left join

  /** The payloads of all rows with a key. */
  function Matching(p: Parsers, s: Stage, key: Key, rows: seq<seq<Cell>>): seq<seq<Cell>>
    requires WellShaped(s) && Wide(rows, |s.columns|)
  {
    if rows == [] then [] else
      var n := |rows| - 1;
      Matching(p, s, key, rows[..n]) +
      if KeyOf(p, s, rows[n], NULL_MEASURE) == Ok(key) then [Payload(s, rows[n])] else []
  }

  /** A member's row so far. */
  datatype Joined = Joined(key: Key, cells: seq<Cell>)

  /** One joined row per match, or one padded with NULL. */
  function JoinRow(s: Stage, j: Joined, matches: seq<seq<Cell>>): seq<Joined> {
    if matches == [] then [Joined(j.key, j.cells + Nulls(Width(s)))]
    else seq(|matches|, i requires 0 <= i < |matches| => Joined(j.key, j.cells + matches[i]))
  }

  function LeftJoin(p: Parsers, s: Stage, js: seq<Joined>, rows: seq<seq<Cell>>): seq<Joined>
    requires WellShaped(s) && Wide(rows, |s.columns|)
  {
    if js == [] then [] else
      var n := |js| - 1;
      LeftJoin(p, s, js[..n], rows) + JoinRow(s, js[n], Matching(p, s, js[n].key, rows))
  }

  function Start(members: seq<Member>): (js: seq<Joined>)
    ensures |js| == |members|
  {
    seq(|members|, i requires 0 <= i < |members| => Joined(members[i].key, members[i].values + members[i].attributes))
  }

  predicate ResultsFit(stages: seq<Stage>, results: seq<Table>) {
    |stages| == |results| && forall k | 0 <= k < |stages| :: WellShaped(stages[k]) && Wide(results[k].rows, |stages[k].columns|)
  }

  /** The selection joined with each measurement in turn. */
  function JoinAll(p: Parsers, stages: seq<Stage>, members: seq<Member>, results: seq<Table>): seq<Joined>
    requires ResultsFit(stages, results)
  {
    if stages == [] then Start(members) else
      var n := |stages| - 1;
      LeftJoin(p, stages[n], JoinAll(p, stages[..n], members, results[..n]), results[n].rows)
  }

  // ----------------------------------------------- the dictionary is the matching

  lemma {:induction false} AlignedMatches(p: Parsers, s: Stage, keys: set<Key>, rows: seq<seq<Cell>>, key: Key)
    requires WellShaped(s) && Wide(rows, |s.columns|) && AlignedOf(p, s, keys, rows).Ok?
    ensures var a := AlignedOf(p, s, keys, rows).value;
            Matching(p, s, key, rows) == if key in a then [a[key]] else []
  {
    hide KeyOf, WellShaped, Payload;
    if rows != [] {
      AlignedMatches(p, s, keys, rows[..|rows| - 1], key);
    }
  }

  lemma {:induction false} AlignedShape(p: Parsers, s: Stage, keys: set<Key>, rows: seq<seq<Cell>>)
    requires WellShaped(s) && Wide(rows, |s.columns|) && AlignedOf(p, s, keys, rows).Ok?
    ensures var a := AlignedOf(p, s, keys, rows).value;
            a.Keys <= keys && |a| == |rows| && forall key | key in a :: |a[key]| == Width(s)
  {
    hide KeyOf;
    if rows != [] {
      AlignedShape(p, s, keys, rows[..|rows| - 1]);
    }
  }

  // ------------------------------------------------------------ a run is the join

  /** What the joined rows are while at most one row matches each member. */
  predicate JoinedSoFar(js: seq<Joined>, stages: seq<Stage>, aligned: seq<Aligned>, members: seq<Member>)
    requires |aligned| == |stages|
  {
    |js| == |members| && forall i | 0 <= i < |members| ::
      js[i] == Joined(members[i].key, members[i].values + members[i].attributes + Payloads(stages, aligned, members[i].key))
  }

  lemma {:induction false} LeftJoinOnce(p: Parsers, s: Stage, keys: set<Key>, js: seq<Joined>, rows: seq<seq<Cell>>)
    requires WellShaped(s) && Wide(rows, |s.columns|) && AlignedOf(p, s, keys, rows).Ok?
    ensures var a := AlignedOf(p, s, keys, rows).value;
            |LeftJoin(p, s, js, rows)| == |js| &&
            forall i | 0 <= i < |js| :: LeftJoin(p, s, js, rows)[i] ==
              Joined(js[i].key, js[i].cells + if js[i].key in a then a[js[i].key] else Nulls(Width(s)))
  {
    hide AlignedOf, WellShaped, Matching, Nulls;
    if js != [] {
      var n := |js| - 1;
      LeftJoinOnce(p, s, keys, js[..n], rows);
      AlignedMatches(p, s, keys, rows, js[n].key);
    }
  }

  lemma StartJoined(members: seq<Member>)
    ensures JoinedSoFar(Start(members), [], [], members)
  {
    forall i | 0 <= i < |members|
      ensures Start(members)[i] == Joined(members[i].key, members[i].values + members[i].attributes + Payloads([], [], members[i].key))
    {
      assert members[i].values + members[i].attributes + [] == members[i].values + members[i].attributes;
    }
  }

  lemma JoinedMore(
    p: Parsers, stages: seq<Stage>, aligned: seq<Aligned>, members: seq<Member>, js: seq<Joined>, rows: seq<seq<Cell>>)
    requires |stages| == |aligned| > 0
    requires var n := |stages| - 1;
             WellShaped(stages[n]) && Wide(rows, |stages[n].columns|) &&
             AlignedOf(p, stages[n], Keys(members), rows) == Ok(aligned[n]) &&
             JoinedSoFar(js, stages[..n], aligned[..n], members)
    ensures JoinedSoFar(LeftJoin(p, stages[|stages| - 1], js, rows), stages, aligned, members)
  {
    hide AlignedOf, WellShaped, LeftJoin, Nulls;
    var n := |stages| - 1;
    LeftJoinOnce(p, stages[n], Keys(members), js, rows);
  }

  lemma {:induction false} MeasuredJoins(p: Parsers, stages: seq<Stage>, members: seq<Member>, results: seq<Table>)
    requires |stages| == |results| && (forall s | s in stages :: WellShaped(s)) && MeasureAll(p, stages, members, results).Ok?
    ensures ResultsFit(stages, results)
    ensures JoinedSoFar(JoinAll(p, stages, members, results), stages, MeasureAll(p, stages, members, results).value, members)
    ensures forall k | 0 <= k < |stages| ::
              AlignedOf(p, stages[k], Keys(members), results[k].rows) == Ok(MeasureAll(p, stages, members, results).value[k])
  {
    hide AlignedOf, WellShaped, LeftJoin, JoinedSoFar;
    if stages == [] {
      StartJoined(members);
    } else {
      var n := |stages| - 1;
      MeasuredJoins(p, stages[..n], members, results[..n]);
      var aligned := MeasureAll(p, stages, members, results).value;
      assert aligned[..n] == MeasureAll(p, stages[..n], members, results[..n]).value;
      JoinedMore(p, stages, aligned, members, JoinAll(p, stages[..n], members, results[..n]), results[n].rows);
    }
  }

  // -------------------------------------------------------------- the selection

  predicate KeysDiffer(ms: seq<Member>) {
    forall i, j | 0 <= i < j < |ms| :: ms[i].key != ms[j].key
  }

  /** One member per selected row, in order, under different typed keys. */
  lemma {:induction false} MembersAreRows(p: Parsers, s: Stage, rows: seq<seq<Cell>>)
    requires WellShaped(s) && Wide(rows, |s.columns|) && MembersOf(p, s, rows).Ok?
    ensures var ms := MembersOf(p, s, rows).value;
            |ms| == |rows| && KeysDiffer(ms) &&
            forall i | 0 <= i < |rows| :: KeyOf(p, s, rows[i], NULL_MEMBER) == Ok(ms[i].key) && ms[i] == MemberOf(s, rows[i], ms[i].key)
  {
    hide KeyOf, WellShaped, Pick;
    if rows != [] {
      var n := |rows| - 1;
      MembersAreRows(p, s, rows[..n]);
      var before := MembersOf(p, s, rows[..n]).value;
      assert forall i | 0 <= i < n :: rows[..n][i] == rows[i] && before[i].key in Keys(before);
    }
  }

  lemma {:induction false} KeysCounted(ms: seq<Member>)
    ensures |Keys(ms)| <= |ms|
    ensures KeysDiffer(ms) ==> |Keys(ms)| == |ms|
  {
    if ms != [] {
      var n := |ms| - 1;
      KeysCounted(ms[..n]);
      assert Keys(ms) == Keys(ms[..n]) + {ms[n].key};
    }
  }

  // ---------------------------------------------------------------- coverage

  function CountTrue(flags: seq<bool>): nat {
    if flags == [] then 0 else CountTrue(flags[..|flags| - 1]) + if flags[|flags| - 1] then 1 else 0
  }

  lemma KeysMore(ms: seq<Member>)
    requires ms != []
    ensures var n := |ms| - 1; Keys(ms) == Keys(ms[..n]) + {ms[n].key}
    ensures KeysDiffer(ms) ==> ms[|ms| - 1].key !in Keys(ms[..|ms| - 1])
  {
  }

  lemma PresentMore(a: Aligned, ms: seq<Member>)
    requires ms != []
    ensures var n := |ms| - 1; Present(a, ms) == Present(a, ms[..n]) + [ms[n].key in a]
  {
  }

  lemma OneMore(x: set<Key>, y: set<Key>, key: Key)
    requires key !in y
    ensures |x * (y + {key})| == |x * y| + if key in x then 1 else 0
  {
    assert x * (y + {key}) == if key in x then x * y + {key} else x * y;
  }

  lemma {:induction false} PresentCounted(a: Aligned, ms: seq<Member>)
    requires KeysDiffer(ms)
    ensures CountTrue(Present(a, ms)) == |a.Keys * Keys(ms)|
  {
    hide Present, Keys;
    if ms == [] {
      assert Keys(ms) == {} by { NoKeys(); }
    } else {
      var n := |ms| - 1;
      PresentCounted(a, ms[..n]);
      KeysMore(ms);
      PresentMore(a, ms);
      OneMore(a.Keys, Keys(ms[..n]), ms[n].key);
    }
  }

  lemma NoKeys()
    ensures Keys([]) == {}
  {
  }

  /** Aligned rows, distinct keys and present members are equally many. */
  lemma CoverageBalances(p: Parsers, s: Stage, ms: seq<Member>, rows: seq<seq<Cell>>)
    requires WellShaped(s) && Wide(rows, |s.columns|) && KeysDiffer(ms) && AlignedOf(p, s, Keys(ms), rows).Ok?
    ensures var a := AlignedOf(p, s, Keys(ms), rows).value;
            |a| == |rows| && CountTrue(Present(a, ms)) == |rows|
  {
    hide AlignedOf, WellShaped, Present;
    var a := AlignedOf(p, s, Keys(ms), rows).value;
    AlignedShape(p, s, Keys(ms), rows);
    PresentCounted(a, ms);
    assert a.Keys * Keys(ms) == a.Keys;
  }

  /** The size check rejects nothing that alignment would accept. */
  lemma OverflowIsRedundant(p: Parsers, s: Stage, ms: seq<Member>, t: Table)
    requires WellShaped(s)
    ensures MeasuredOf(p, s, ms, t).Ok? <==>
            t.columns == s.columns && Wide(t.rows, |s.columns|) && AlignedOf(p, s, Keys(ms), t.rows).Ok?
  {
    hide AlignedOf, WellShaped;
    if t.columns == s.columns && Wide(t.rows, |s.columns|) && AlignedOf(p, s, Keys(ms), t.rows).Ok? {
      var a := AlignedOf(p, s, Keys(ms), t.rows).value;
      AlignedShape(p, s, Keys(ms), t.rows);
      KeysCounted(ms);
      Subset(a.Keys, Keys(ms));
    }
  }

  lemma {:induction false} Subset<T>(x: set<T>, y: set<T>)
    requires x <= y
    ensures |x| <= |y|
  {
    if x != {} {
      var e :| e in x;
      Subset(x - {e}, y - {e});
    }
  }

  // -------------------------------------------------------- positions in a row

  /** The columns of all measurements before the k-th. */
  function Before(stages: seq<Stage>, k: nat): nat
    requires k <= |stages|
  {
    if k == 0 then 0 else Before(stages, k - 1) + Width(stages[k - 1])
  }

  lemma {:induction false} BeforePrefix(stages: seq<Stage>, n: nat, k: nat)
    requires k <= n <= |stages|
    ensures Before(stages[..n], k) == Before(stages, k)
  {
    if k > 0 {
      BeforePrefix(stages, n, k - 1);
    }
  }

  predicate Uniform(stages: seq<Stage>, aligned: seq<Aligned>) {
    |aligned| == |stages| && forall k, key | 0 <= k < |aligned| && key in aligned[k] :: |aligned[k][key]| == Width(stages[k])
  }

  lemma {:induction false} PayloadsWidth(stages: seq<Stage>, aligned: seq<Aligned>, key: Key)
    requires Uniform(stages, aligned)
    ensures |Payloads(stages, aligned, key)| == Before(stages, |stages|)
  {
    hide Width;
    if stages != [] {
      var n := |stages| - 1;
      PayloadsWidth(stages[..n], aligned[..n], key);
      BeforePrefix(stages, n, n);
    }
  }

  lemma {:induction false} BeforeGrows(stages: seq<Stage>, k: nat, n: nat)
    requires k < n <= |stages|
    ensures Before(stages, k) + Width(stages[k]) <= Before(stages, n)
    decreases n
  {
    hide Width;
    if k < n - 1 {
      BeforeGrows(stages, k, n - 1);
    }
  }

  lemma {:induction false} PayloadsAt(stages: seq<Stage>, aligned: seq<Aligned>, key: Key, k: nat, at: nat)
    requires Uniform(stages, aligned) && k < |stages| && at < Width(stages[k])
    ensures Before(stages, k) + at < |Payloads(stages, aligned, key)|
    ensures Payloads(stages, aligned, key)[Before(stages, k) + at] == if key in aligned[k] then aligned[k][key][at] else Null
    decreases |stages|
  {
    hide Width;
    var n := |stages| - 1;
    PayloadsWidth(stages, aligned, key);
    PayloadsWidth(stages[..n], aligned[..n], key);
    BeforePrefix(stages, n, n);
    BeforeGrows(stages, k, |stages|);
    if k < n {
      BeforePrefix(stages, n, k);
      PayloadsAt(stages[..n], aligned[..n], key, k, at);
    }
  }

  /** Where a metric sits in an output row. */
  function Position(plan: Plan, m: Metric): nat
    requires Refers(plan.measurements, m) && HasMetric(plan.measurements, m)
  {
    var k := StageNamed(plan.measurements, m.measurement);
    |plan.source.keys| + |plan.source.attributes| + Before(plan.measurements, k) + MetricAt(plan.measurements[k], m.column)
  }

  /** Where the comparisons start. */
  function Computing(plan: Plan): nat {
    |plan.source.keys| + |plan.source.attributes| + Before(plan.measurements, |plan.measurements|)
  }

  predicate MemberFits(plan: Plan, m: Member) {
    |m.values| == |plan.source.keys| && |m.attributes| == |plan.source.attributes|
  }

  lemma RowReads(plan: Plan, aligned: seq<Aligned>, member: Member, computed: seq<Cell>, m: Metric)
    requires Uniform(plan.measurements, aligned) && MemberFits(plan, member)
    requires Refers(plan.measurements, m) && HasMetric(plan.measurements, m)
    ensures var row := member.values + member.attributes + Payloads(plan.measurements, aligned, member.key) + computed;
            |row| == Computing(plan) + |computed| && Position(plan, m) < Computing(plan) &&
            row[Position(plan, m)] == CellAt(plan.measurements, aligned, member.key, m)
  {
    hide Refers, Payloads, Width, MetricAt;
    var k := StageNamed(plan.measurements, m.measurement);
    PayloadsWidth(plan.measurements, aligned, member.key);
    PayloadsAt(plan.measurements, aligned, member.key, k, MetricAt(plan.measurements[k], m.column));
  }

  lemma {:induction false} ComparedCells(
    host: (CompareOp, Cell, Cell) -> Cell, stages: seq<Stage>, aligned: seq<Aligned>, c: Comparison, members: seq<Member>)
    requires |aligned| == |stages| && Refers(stages, c.left) && Refers(stages, c.right)
    requires HasMetric(stages, c.left) && HasMetric(stages, c.right)
    requires CompareMembers(host, stages, aligned, c, members).Ok?
    ensures forall i | 0 <= i < |members| ::
              Compare(host, c.op, CellAt(stages, aligned, members[i].key, c.left), CellAt(stages, aligned, members[i].key, c.right)) ==
              Ok(CompareMembers(host, stages, aligned, c, members).value[i])
  {
    hide Compare, CellAt, Refers, HasMetric;
    if members != [] {
      ComparedCells(host, stages, aligned, c, members[..|members| - 1]);
    }
  }

  lemma {:induction false} ComparedColumns(
    host: (CompareOp, Cell, Cell) -> Cell, stages: seq<Stage>, aligned: seq<Aligned>, cs: seq<Comparison>, members: seq<Member>)
    requires |aligned| == |stages| && (forall c | c in cs :: Refers(stages, c.left) && Refers(stages, c.right))
    requires CompareAll(host, stages, aligned, cs, members).Ok?
    ensures forall j | 0 <= j < |cs| :: HasMetric(stages, cs[j].left) && HasMetric(stages, cs[j].right)
    ensures forall j, i | 0 <= j < |cs| && 0 <= i < |members| ::
              Compare(host, cs[j].op, CellAt(stages, aligned, members[i].key, cs[j].left),
                      CellAt(stages, aligned, members[i].key, cs[j].right)) ==
              Ok(CompareAll(host, stages, aligned, cs, members).value[j][i])
  {
    hide Compare, CellAt, Refers, HasMetric, CompareMembers;
    if cs != [] {
      var n := |cs| - 1;
      ComparedColumns(host, stages, aligned, cs[..n], members);
      ComparedCells(host, stages, aligned, cs[n], members);
      forall j | 0 <= j < |cs| ensures HasMetric(stages, cs[j].left) && HasMetric(stages, cs[j].right) {
        if j < n {
          assert cs[..n][j] == cs[j];
        }
      }
      forall j, i | 0 <= j < |cs| && 0 <= i < |members|
        ensures Compare(host, cs[j].op, CellAt(stages, aligned, members[i].key, cs[j].left),
                        CellAt(stages, aligned, members[i].key, cs[j].right)) ==
                Ok(CompareAll(host, stages, aligned, cs, members).value[j][i])
      {
        if j < n {
          assert cs[..n][j] == cs[j];
        }
      }
    }
  }

  // ---------------------------------------------------------- order of the rows

  lemma {:induction false} MatchingAppend(p: Parsers, s: Stage, key: Key, xs: seq<seq<Cell>>, ys: seq<seq<Cell>>)
    requires WellShaped(s) && Wide(xs, |s.columns|) && Wide(ys, |s.columns|)
    ensures Wide(xs + ys, |s.columns|)
    ensures Matching(p, s, key, xs + ys) == Matching(p, s, key, xs) + Matching(p, s, key, ys)
  {
    hide KeyOf, WellShaped, Payload;
    if ys == [] {
      assert xs + ys == xs;
    } else {
      var n := |ys| - 1;
      MatchingAppend(p, s, key, xs, ys[..n]);
      assert (xs + ys)[..|xs| + n] == xs + ys[..n];
    }
  }

  lemma WideMembers(rows: seq<seq<Cell>>, others: seq<seq<Cell>>, width: nat)
    requires multiset(rows) == multiset(others) && Wide(rows, width)
    ensures Wide(others, width)
  {
    forall i | 0 <= i < |others| ensures |others[i]| == width {
      assert others[i] in multiset(rows);
    }
  }

  lemma Cancel<T>(a: multiset<T>, b: multiset<T>, c: multiset<T>, d: multiset<T>)
    requires a + b == c + a + d
    ensures b == c + d
  {
    forall e ensures b[e] == (c + d)[e] {
      assert (a + b)[e] == (c + a + d)[e];
    }
  }

  /** The first element of a sequence, found in a permutation of it. */
  lemma FindFirst<T>(xs: seq<T>, ys: seq<T>) returns (left: seq<T>, right: seq<T>)
    requires multiset(xs) == multiset(ys) && xs != []
    ensures ys == left + [xs[0]] + right && multiset(xs[1..]) == multiset(left + right)
  {
    assert xs[0] in multiset(ys);
    var j :| 0 <= j < |ys| && ys[j] == xs[0];
    left, right := ys[..j], ys[j + 1..];
    assert ys == left + [xs[0]] + right && xs == [xs[0]] + xs[1..];
    Cancel(multiset([xs[0]]), multiset(xs[1..]), multiset(left), multiset(right));
  }

  lemma {:induction false} MatchingPermuted(p: Parsers, s: Stage, key: Key, xs: seq<seq<Cell>>, ys: seq<seq<Cell>>)
    requires WellShaped(s) && Wide(xs, |s.columns|) && Wide(ys, |s.columns|) && multiset(xs) == multiset(ys)
    ensures multiset(Matching(p, s, key, xs)) == multiset(Matching(p, s, key, ys))
    decreases |xs|
  {
    if xs == [] {
      assert |multiset(ys)| == |ys|;
    } else {
      var left, right := FindFirst(xs, ys);
      WidePieces(left, [xs[0]], right, |s.columns|);
      MatchingPermuted(p, s, key, xs[1..], left + right);
      MatchingSplit(p, s, key, left, xs[0], right);
      MatchingAppend(p, s, key, [xs[0]], xs[1..]);
      assert xs == [xs[0]] + xs[1..];
    }
  }

  lemma WidePieces(a: seq<seq<Cell>>, b: seq<seq<Cell>>, c: seq<seq<Cell>>, width: nat)
    requires Wide(a + b + c, width)
    ensures Wide(a, width) && Wide(b, width) && Wide(c, width) && Wide(a + c, width)
  {
    var all := a + b + c;
    assert forall i | 0 <= i < |a| :: a[i] == all[i];
    assert forall i | 0 <= i < |b| :: b[i] == all[|a| + i];
    assert forall i | 0 <= i < |c| :: c[i] == all[|a| + |b| + i];
  }

  lemma MatchingSplit(p: Parsers, s: Stage, key: Key, left: seq<seq<Cell>>, row: seq<Cell>, right: seq<seq<Cell>>)
    requires WellShaped(s) && Wide(left, |s.columns|) && Wide([row], |s.columns|) && Wide(right, |s.columns|)
    ensures Wide(left + right, |s.columns|) && Wide(left + [row] + right, |s.columns|)
    ensures multiset(Matching(p, s, key, left + [row] + right)) ==
            multiset(Matching(p, s, key, [row])) + multiset(Matching(p, s, key, left + right))
  {
    hide Matching, WellShaped;
    MatchingAppend(p, s, key, left, [row]);
    MatchingAppend(p, s, key, left + [row], right);
    MatchingAppend(p, s, key, left, right);
  }

  /** A row's key is valid and a member's. */
  predicate Expected(p: Parsers, s: Stage, keys: set<Key>, row: seq<Cell>)
    requires WellShaped(s) && |row| == |s.columns|
  {
    KeyOf(p, s, row, NULL_MEASURE).Ok? && KeyOf(p, s, row, NULL_MEASURE).value in keys
  }

  predicate AllExpected(p: Parsers, s: Stage, keys: set<Key>, rows: seq<seq<Cell>>)
    requires WellShaped(s) && Wide(rows, |s.columns|)
  {
    forall i | 0 <= i < |rows| :: Expected(p, s, keys, rows[i])
  }

  ghost predicate MatchOnce(p: Parsers, s: Stage, rows: seq<seq<Cell>>)
    requires WellShaped(s) && Wide(rows, |s.columns|)
  {
    forall key :: |Matching(p, s, key, rows)| <= 1
  }

  /** Alignment accepts rows whose keys are members' and match at most once. */
  lemma AlignedIff(p: Parsers, s: Stage, keys: set<Key>, rows: seq<seq<Cell>>)
    requires WellShaped(s) && Wide(rows, |s.columns|)
    ensures AlignedOf(p, s, keys, rows).Ok? <==>
            AllExpected(p, s, keys, rows) && MatchOnce(p, s, rows)
  {
    hide AlignedOf, WellShaped, Matching, AllExpected;
    if AlignedOf(p, s, keys, rows).Ok? {
      AlignedExpected(p, s, keys, rows);
      forall key ensures |Matching(p, s, key, rows)| <= 1 {
        AlignedMatches(p, s, keys, rows, key);
      }
    }
    if AllExpected(p, s, keys, rows) && MatchOnce(p, s, rows) {
      AcceptedAligns(p, s, keys, rows);
    }
  }

  lemma {:induction false} AlignedExpected(p: Parsers, s: Stage, keys: set<Key>, rows: seq<seq<Cell>>)
    requires WellShaped(s) && Wide(rows, |s.columns|) && AlignedOf(p, s, keys, rows).Ok?
    ensures AllExpected(p, s, keys, rows)
  {
    hide KeyOf, WellShaped, Payload, AllExpected;
    if rows == [] {
      assert AllExpected(p, s, keys, rows) by { NoneExpected(p, s, keys); }
    } else {
      AlignedExpected(p, s, keys, rows[..|rows| - 1]);
      AllExpectedMore(p, s, keys, rows);
    }
  }

  lemma NoneExpected(p: Parsers, s: Stage, keys: set<Key>)
    requires WellShaped(s)
    ensures AllExpected(p, s, keys, [])
  {
  }

  lemma {:induction false} AcceptedAligns(p: Parsers, s: Stage, keys: set<Key>, rows: seq<seq<Cell>>)
    requires WellShaped(s) && Wide(rows, |s.columns|)
    requires AllExpected(p, s, keys, rows) && MatchOnce(p, s, rows)
    ensures AlignedOf(p, s, keys, rows).Ok?
  {
    hide KeyOf, WellShaped, Payload, AllExpected, AlignedOf, Expected;
    if rows == [] {
      assert AlignedOf(p, s, keys, rows).Ok? by { NothingAligned(p, s, keys); }
    } else {
      var n := |rows| - 1;
      AllExpectedMore(p, s, keys, rows);
      forall key ensures |Matching(p, s, key, rows[..n])| <= 1 {
        assert |Matching(p, s, key, rows[..n])| <= |Matching(p, s, key, rows)|;
      }
      AcceptedAligns(p, s, keys, rows[..n]);
      MatchedTwice(p, s, keys, rows);
    }
  }

  lemma NothingAligned(p: Parsers, s: Stage, keys: set<Key>)
    requires WellShaped(s)
    ensures AlignedOf(p, s, keys, []).Ok?
  {
  }

  /** A duplicate of an aligned key matches twice. */
  lemma MatchedTwice(p: Parsers, s: Stage, keys: set<Key>, rows: seq<seq<Cell>>)
    requires WellShaped(s) && Wide(rows, |s.columns|) && rows != []
    requires AlignedOf(p, s, keys, rows[..|rows| - 1]).Ok? && Expected(p, s, keys, rows[|rows| - 1])
    ensures AlignedOf(p, s, keys, rows).Err? ==> !MatchOnce(p, s, rows)
  {
    hide KeyOf, WellShaped, Payload;
    var n := |rows| - 1;
    var key := KeyOf(p, s, rows[n], NULL_MEASURE).value;
    AlignedMatches(p, s, keys, rows[..n], key);
    assert |Matching(p, s, key, rows)| == |Matching(p, s, key, rows[..n])| + 1;
  }

  lemma AllExpectedMore(p: Parsers, s: Stage, keys: set<Key>, rows: seq<seq<Cell>>)
    requires WellShaped(s) && Wide(rows, |s.columns|) && rows != []
    ensures var n := |rows| - 1;
            AllExpected(p, s, keys, rows) <==> AllExpected(p, s, keys, rows[..n]) && Expected(p, s, keys, rows[n])
  {
    hide Expected, WellShaped;
    var n := |rows| - 1;
    if AllExpected(p, s, keys, rows[..n]) && Expected(p, s, keys, rows[n]) {
      forall i | 0 <= i < |rows| ensures Expected(p, s, keys, rows[i]) {
        if i < n {
          assert rows[..n][i] == rows[i];
        }
      }
    }
    if AllExpected(p, s, keys, rows) {
      forall i | 0 <= i < n ensures Expected(p, s, keys, rows[..n][i]) {
        assert rows[..n][i] == rows[i];
      }
    }
  }

  /** A measurement's rows align the same in any order. */
  lemma AlignedPermuted(p: Parsers, s: Stage, keys: set<Key>, rows: seq<seq<Cell>>, others: seq<seq<Cell>>)
    requires WellShaped(s) && Wide(rows, |s.columns|) && Wide(others, |s.columns|) && multiset(rows) == multiset(others)
    requires AlignedOf(p, s, keys, rows).Ok?
    ensures AlignedOf(p, s, keys, others) == AlignedOf(p, s, keys, rows)
  {
    hide AlignedOf, WellShaped, Matching, Expected;
    AlignedIff(p, s, keys, rows);
    AlignedIff(p, s, keys, others);
    forall key ensures multiset(Matching(p, s, key, others)) == multiset(Matching(p, s, key, rows)) {
      MatchingPermuted(p, s, key, others, rows);
    }
    forall key ensures |Matching(p, s, key, others)| <= 1 {
      assert |multiset(Matching(p, s, key, others))| == |Matching(p, s, key, others)|;
      assert |multiset(Matching(p, s, key, rows))| == |Matching(p, s, key, rows)|;
    }
    forall i | 0 <= i < |others| ensures Expected(p, s, keys, others[i]) {
      assert others[i] in multiset(rows);
      var k :| 0 <= k < |rows| && rows[k] == others[i];
    }
    var a, b := AlignedOf(p, s, keys, rows).value, AlignedOf(p, s, keys, others).value;
    forall key ensures (key in a <==> key in b) && (key in a ==> a[key] == b[key]) {
      AlignedMatches(p, s, keys, rows, key);
      AlignedMatches(p, s, keys, others, key);
      SameOne(Matching(p, s, key, rows), Matching(p, s, key, others));
    }
    assert a == b;
  }

  lemma SameOne<T>(xs: seq<T>, ys: seq<T>)
    requires multiset(xs) == multiset(ys) && |xs| <= 1
    ensures xs == ys
  {
    assert |multiset(xs)| == |xs| && |multiset(ys)| == |ys|;
    if xs != [] {
      assert xs[0] in multiset(ys);
    }
  }

  /** Each measurement returned the same rows in some order. */
  predicate Shuffled(results: seq<Table>, others: seq<Table>) {
    |results| == |others| && forall k | 0 <= k < |results| ::
      results[k].columns == others[k].columns && multiset(results[k].rows) == multiset(others[k].rows)
  }

  lemma MeasuredShuffled(p: Parsers, s: Stage, members: seq<Member>, t: Table, u: Table)
    requires WellShaped(s) && t.columns == u.columns && multiset(t.rows) == multiset(u.rows) && MeasuredOf(p, s, members, t).Ok?
    ensures MeasuredOf(p, s, members, u) == MeasuredOf(p, s, members, t)
  {
    hide AlignedOf, WellShaped;
    WideMembers(t.rows, u.rows, |s.columns|);
    AlignedPermuted(p, s, Keys(members), t.rows, u.rows);
    assert |multiset(t.rows)| == |t.rows| && |multiset(u.rows)| == |u.rows|;
  }

  lemma {:induction false} AllShuffled(p: Parsers, stages: seq<Stage>, members: seq<Member>, results: seq<Table>, others: seq<Table>)
    requires |stages| == |results| && (forall s | s in stages :: WellShaped(s)) && Shuffled(results, others)
    requires MeasureAll(p, stages, members, results).Ok?
    ensures MeasureAll(p, stages, members, others) == MeasureAll(p, stages, members, results)
  {
    hide MeasuredOf, WellShaped;
    if stages != [] {
      var n := |stages| - 1;
      AllShuffled(p, stages[..n], members, results[..n], others[..n]);
      MeasuredShuffled(p, stages[n], members, results[n], others[n]);
    }
  }

  /** A successful run does not depend on the order of any measurement's rows. */
  lemma ShuffleInvariant(
    p: Parsers, host: (CompareOp, Cell, Cell) -> Cell, plan: Plan, source: Table, results: seq<Table>, others: seq<Table>)
    requires Prepared(plan) && |results| == |plan.measurements| && Shuffled(results, others)
    requires RunOf(p, host, plan, source, results).Ok?
    ensures RunOf(p, host, plan, source, others) == RunOf(p, host, plan, source, results)
  {
    hide MeasureAll, CompareAll, SelectedOf, WellShaped, Shuffled, OutputRows;
    var members := SelectedOf(p, plan, source).value;
    if members != [] {
      AllShuffled(p, plan.measurements, members, results, others);
    }
  }

  // ------------------------------------------------------------- the main result

  /** A member's computed cells compare two cells of the member's own row. */
  ghost predicate Compares(host: (CompareOp, Cell, Cell) -> Cell, plan: Plan, row: seq<Cell>)
    requires Prepared(plan)
  {
    |row| == Computing(plan) + |plan.comparisons| &&
    forall j | 0 <= j < |plan.comparisons| ::
      var c := plan.comparisons[j];
      HasMetric(plan.measurements, c.left) && HasMetric(plan.measurements, c.right) &&
      Position(plan, c.left) < |row| && Position(plan, c.right) < |row| &&
      Computes(host, c.op, row[Position(plan, c.left)], row[Position(plan, c.right)], row[Computing(plan) + j])
  }

  lemma SelectedFits(p: Parsers, plan: Plan, source: Table)
    requires Prepared(plan) && SelectedOf(p, plan, source).Ok?
    ensures var ms := SelectedOf(p, plan, source).value;
            |ms| == |source.rows| && KeysDiffer(ms) && forall i | 0 <= i < |ms| :: MemberFits(plan, ms[i])
  {
    hide KeyOf, WellShaped, Pick, MembersOf;
    MembersAreRows(p, plan.source, source.rows);
  }

  lemma MeasuredUniform(p: Parsers, stages: seq<Stage>, members: seq<Member>, results: seq<Table>)
    requires |stages| == |results| && (forall s | s in stages :: WellShaped(s)) && MeasureAll(p, stages, members, results).Ok?
    ensures Uniform(stages, MeasureAll(p, stages, members, results).value)
  {
    hide AlignedOf, WellShaped, JoinAll, JoinedSoFar, Width, MeasureAll;
    MeasuredJoins(p, stages, members, results);
    var aligned := MeasureAll(p, stages, members, results).value;
    forall k, key | 0 <= k < |aligned| && key in aligned[k] ensures |aligned[k][key]| == Width(stages[k]) {
      AlignedShape(p, stages[k], Keys(members), results[k].rows);
    }
  }

  lemma RowCompares(
    host: (CompareOp, Cell, Cell) -> Cell, plan: Plan, aligned: seq<Aligned>, members: seq<Member>, i: nat)
    requires Prepared(plan) && Uniform(plan.measurements, aligned) && i < |members| && MemberFits(plan, members[i])
    requires CompareAll(host, plan.measurements, aligned, plan.comparisons, members).Ok?
    ensures Compares(host, plan,
              OutputRow(plan.measurements, aligned, CompareAll(host, plan.measurements, aligned, plan.comparisons, members).value, members, i))
  {
    hide WellShaped, CompareAll, Compare, Computes, CellAt, Payloads, Refers, HasMetric, Position, Computing;
    var computed := CompareAll(host, plan.measurements, aligned, plan.comparisons, members).value;
    ComparedColumns(host, plan.measurements, aligned, plan.comparisons, members);
    PayloadsWidth(plan.measurements, aligned, members[i].key);
    var row := OutputRow(plan.measurements, aligned, computed, members, i);
    assert |row| == Computing(plan) + |plan.comparisons| by { RowLength(plan, aligned, members[i], Computed(computed, i)); }
    forall j | 0 <= j < |plan.comparisons|
      ensures var c := plan.comparisons[j];
              HasMetric(plan.measurements, c.left) && HasMetric(plan.measurements, c.right) &&
              Position(plan, c.left) < |row| && Position(plan, c.right) < |row| &&
              Computes(host, c.op, row[Position(plan, c.left)], row[Position(plan, c.right)], row[Computing(plan) + j])
    {
      var c := plan.comparisons[j];
      assert Refers(plan.measurements, c.left) && Refers(plan.measurements, c.right);
      RowReads(plan, aligned, members[i], Computed(computed, i), c.left);
      RowReads(plan, aligned, members[i], Computed(computed, i), c.right);
      assert row[Computing(plan) + j] == computed[j][i] by { RowComputes(plan, aligned, members[i], Computed(computed, i), j); }
      ComputedIs(host, c.op, row[Position(plan, c.left)], row[Position(plan, c.right)], row[Computing(plan) + j]);
    }
  }

  lemma RowLength(plan: Plan, aligned: seq<Aligned>, member: Member, computed: seq<Cell>)
    requires Uniform(plan.measurements, aligned) && MemberFits(plan, member)
    ensures |member.values + member.attributes + Payloads(plan.measurements, aligned, member.key)| == Computing(plan)
  {
    hide Payloads;
    PayloadsWidth(plan.measurements, aligned, member.key);
  }

  lemma RowComputes(plan: Plan, aligned: seq<Aligned>, member: Member, computed: seq<Cell>, j: nat)
    requires Uniform(plan.measurements, aligned) && MemberFits(plan, member) && j < |computed|
    ensures var row := member.values + member.attributes + Payloads(plan.measurements, aligned, member.key) + computed;
            |row| == Computing(plan) + |computed| && row[Computing(plan) + j] == computed[j]
  {
    hide Payloads;
    RowLength(plan, aligned, member, computed);
  }

  /**
    For accepted inputs a run is the nested-loop left outer join of the
    selection with each measurement on typed keys, one row per member in
    selection order, followed by comparisons of each row's own cells.
  */
  lemma RunIsLeftJoin(p: Parsers, host: (CompareOp, Cell, Cell) -> Cell, plan: Plan, source: Table, results: seq<Table>)
    requires Prepared(plan) && |results| == |plan.measurements| && RunOf(p, host, plan, source, results).Ok?
    ensures var o := RunOf(p, host, plan, source, results).value;
            |o.rows| == |source.rows| && forall i | 0 <= i < |o.rows| :: Compares(host, plan, o.rows[i])
    ensures var o, members := RunOf(p, host, plan, source, results).value, SelectedOf(p, plan, source).value;
            o.rows != [] ==>
              ResultsFit(plan.measurements, results) &&
              |JoinAll(p, plan.measurements, members, results)| == |o.rows| &&
              forall i | 0 <= i < |o.rows| :: JoinAll(p, plan.measurements, members, results)[i].cells == o.rows[i][..Computing(plan)]
  {
    hide MeasureAll, CompareAll, SelectedOf, WellShaped, OutputRow, JoinAll, Compares, Payloads, Computing, ResultsFit;
    var members := SelectedOf(p, plan, source).value;
    SelectedFits(p, plan, source);
    if members != [] {
      var aligned := MeasureAll(p, plan.measurements, members, results).value;
      MeasuredJoins(p, plan.measurements, members, results);
      MeasuredUniform(p, plan.measurements, members, results);
      var computed := CompareAll(host, plan.measurements, aligned, plan.comparisons, members).value;
      var o := RunOf(p, host, plan, source, results).value;
      assert o.rows == OutputRows(plan.measurements, aligned, computed, members);
      forall i | 0 <= i < |o.rows|
        ensures Compares(host, plan, o.rows[i])
        ensures |o.rows[i]| >= Computing(plan)
        ensures JoinAll(p, plan.measurements, members, results)[i].cells == o.rows[i][..Computing(plan)]
      {
        RowCompares(host, plan, aligned, members, i);
        RowPrefix(plan, aligned, computed, members, i);
      }
    }
  }

  lemma RowPrefix(plan: Plan, aligned: seq<Aligned>, computed: seq<seq<Cell>>, members: seq<Member>, i: nat)
    requires Uniform(plan.measurements, aligned) && i < |members| && MemberFits(plan, members[i])
    requires forall j | 0 <= j < |computed| :: |computed[j]| == |members|
    ensures var row := OutputRow(plan.measurements, aligned, computed, members, i);
            |row| >= Computing(plan) &&
            row[..Computing(plan)] == members[i].values + members[i].attributes + Payloads(plan.measurements, aligned, members[i].key)
  {
    hide Payloads;
    RowLength(plan, aligned, members[i], Computed(computed, i));
  }

  /**
    Presence and coverage: a flag is true exactly when some row has the
    member's typed key, and the matched count is the number of measurement
    rows and of true flags.
  */
  lemma PresenceAndCoverage(
    p: Parsers, host: (CompareOp, Cell, Cell) -> Cell, plan: Plan, source: Table, results: seq<Table>, k: nat)
    requires Prepared(plan) && |results| == |plan.measurements| && RunOf(p, host, plan, source, results).Ok?
    requires k < |results| && SelectedOf(p, plan, source).value != []
    ensures ResultsFit(plan.measurements, results)
    ensures var o, members := RunOf(p, host, plan, source, results).value, SelectedOf(p, plan, source).value;
            |o.presence| == |o.coverage| == |results| && |o.presence[k]| == |members| == |source.rows| &&
            o.coverage[k] == (|members|, |results[k].rows|) &&
            CountTrue(o.presence[k]) == |results[k].rows| &&
            forall i | 0 <= i < |members| ::
              o.presence[k][i] <==> Matching(p, plan.measurements[k], members[i].key, results[k].rows) != []
  {
    hide MeasureAll, CompareAll, SelectedOf, WellShaped, OutputRow, JoinAll, AlignedOf, Matching;
    var members := SelectedOf(p, plan, source).value;
    SelectedFits(p, plan, source);
    var aligned := MeasureAll(p, plan.measurements, members, results).value;
    MeasuredJoins(p, plan.measurements, members, results);
    CoverageBalances(p, plan.measurements[k], members, results[k].rows);
    forall i | 0 <= i < |members| ensures members[i].key in aligned[k] <==> Matching(p, plan.measurements[k], members[i].key, results[k].rows) != [] {
      AlignedMatches(p, plan.measurements[k], Keys(members), results[k].rows, members[i].key);
    }
  }
}
