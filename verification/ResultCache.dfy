/** The engine's result cache. */
module ResultCache {

  /*
    LRU eviction, an optional TTL and hit counters.
    A plan is represented by its cache key; what running its fragments and merge
    would do at a given moment is a parameter of the request.
  */

  import opened Sequences
  import opened Wrappers

  /** One cache entry; the sequence order of entries is the dictionary's order. */
  datatype Slot<K, V> = Slot(key: K, value: V, expires: Option<int>)

  /** What executing the plan does: raise, or produce a result that may be copyable. */
  datatype Outcome<V> = Raises | Yields(value: V, copyable: bool)

  /** One call: the clock at lookup, the clock after execution, and the outcome. */
  datatype Request<K, V> = Request(key: K, lookupTime: int, storeTime: int, outcome: Outcome<V>)

  datatype Event<K, V> = Run(request: Request<K, V>) | Clear

  datatype Reply<V> = Raised | Hit(value: V) | Executed(value: V)

  datatype Config = Config(size: nat, ttl: Option<nat>)

  datatype State<K, V> = State(cache: seq<Slot<K, V>>, hits: nat, misses: nat)

  function Keys<K, V>(cache: seq<Slot<K, V>>): (ks: seq<K>)
    ensures |ks| == |cache| && forall i | 0 <= i < |cache| :: ks[i] == cache[i].key
  {
    seq(|cache|, i requires 0 <= i < |cache| => cache[i].key)
  }

  function RemoveAt<T>(s: seq<T>, p: nat): seq<T> {
    if p < |s| then s[..p] + s[p + 1..] else s
  }

  function Position<K(==), V>(cache: seq<Slot<K, V>>, key: K): nat {
    IndexOf(Keys(cache), key)
  }

  function Find<K(==), V>(cache: seq<Slot<K, V>>, key: K): Option<Slot<K, V>> {
    var p := Position(cache, key);
    if p < |cache| then Some(cache[p]) else None
  }

  function Without<K(==), V>(cache: seq<Slot<K, V>>, key: K): seq<Slot<K, V>> {
    RemoveAt(cache, Position(cache, key))
  }

  predicate Live<K, V>(slot: Slot<K, V>, now: int) {
    slot.expires.None? || now < slot.expires.value
  }

  /** The most recent `size` elements. */
  function Recent<T>(s: seq<T>, size: nat): seq<T> {
    if |s| > size then s[|s| - size..] else s
  }

  function Deadline(cfg: Config, time: int): Option<int> {
    match cfg.ttl case None => None case Some(ttl) => Some(time + ttl)
  }

  predicate Serves<K(==), V>(cfg: Config, s: State<K, V>, r: Request<K, V>) {
    cfg.size > 0 && Find(s.cache, r.key).Some? && Live(Find(s.cache, r.key).value, r.lookupTime)
  }

  /** One `run` call. */
  function Step<K(==), V>(cfg: Config, s: State<K, V>, r: Request<K, V>): (State<K, V>, Reply<V>) {
    if Serves(cfg, s, r) then
      var slot := Find(s.cache, r.key).value;
      (State(Without(s.cache, r.key) + [slot], s.hits + 1, s.misses), Hit(slot.value))
    else
      var kept := if cfg.size > 0 then Without(s.cache, r.key) else s.cache;
      match r.outcome
      case Raises => (s.(cache := kept), Raised)
      case Yields(value, copyable) =>
        var slot := Slot(r.key, value, Deadline(cfg, r.storeTime));
        var cache := if cfg.size > 0 && copyable then Recent(kept + [slot], cfg.size) else kept;
        (State(cache, s.hits, s.misses + 1), Executed(value))
  }

  function Next<K(==), V>(cfg: Config, s: State<K, V>, e: Event<K, V>): State<K, V> {
    match e
    case Run(r) => Step(cfg, s, r).0
    case Clear => s.(cache := [])
  }

  function After<K(==), V>(cfg: Config, trace: seq<Event<K, V>>): State<K, V> {
    if trace == [] then State([], 0, 0) else
      Next(cfg, After(cfg, trace[..|trace| - 1]), trace[|trace| - 1])
  }

  /** The reply to the `i`th event of a run, which must be a request. */
  function ReplyAt<K(==), V>(cfg: Config, trace: seq<Event<K, V>>, i: nat): Reply<V>
    requires i < |trace| && trace[i].Run?
  {
    Step(cfg, After(cfg, trace[..i]), trace[i].request).1
  }

  // ------------------------------------------------------- bounded and keyed

  predicate WellKept<K(==), V>(cfg: Config, s: State<K, V>) {
    Distinct(Keys(s.cache)) && |s.cache| <= cfg.size
  }

  lemma WithoutKeepsDistinct<K, V>(cache: seq<Slot<K, V>>, key: K)
    requires Distinct(Keys(cache))
    ensures Distinct(Keys(Without(cache, key))) && key !in Keys(Without(cache, key))
    ensures forall slot | slot in Without(cache, key) :: slot.key != key
    ensures |Without(cache, key)| == |cache| - if key in Keys(cache) then 1 else 0
  {
    hide IndexOf;
    var p := Position(cache, key);
    var w := Without(cache, key);
    forall i | 0 <= i < |w| ensures Keys(w)[i] == Keys(cache)[if i < p then i else i + 1] && Keys(w)[i] != key {
      if p < |cache| {
        assert Keys(cache)[p] == key;
      }
    }
    if key in Keys(cache) {
      var i :| 0 <= i < |cache| && Keys(cache)[i] == key;
    }
  }

  lemma StepKeepsWell<K, V>(cfg: Config, s: State<K, V>, r: Request<K, V>)
    requires WellKept(cfg, s)
    ensures WellKept(cfg, Step(cfg, s, r).0)
  {
    hide IndexOf;
    WithoutKeepsDistinct(s.cache, r.key);
    var w := Without(s.cache, r.key);
    forall slot: Slot<K, V> | slot.key == r.key ensures Distinct(Keys(w + [slot])) {
      assert Keys(w + [slot]) == Keys(w) + [r.key];
    }
  }

  /** In every run, keys are unique and the bound is respected. */
  lemma {:induction false} AlwaysWellKept<K, V>(cfg: Config, trace: seq<Event<K, V>>)
    ensures WellKept(cfg, After(cfg, trace))
  {
    if trace != [] {
      AlwaysWellKept(cfg, trace[..|trace| - 1]);
      if trace[|trace| - 1].Run? {
        StepKeepsWell(cfg, After(cfg, trace[..|trace| - 1]), trace[|trace| - 1].request);
      }
    }
  }

  /** Requests that returned, by the replies they got. */
  ghost function Completed<K, V>(cfg: Config, trace: seq<Event<K, V>>): nat {
    if trace == [] then 0 else
      var n := |trace| - 1;
      Completed(cfg, trace[..n]) + if trace[n].Run? && !ReplyAt(cfg, trace, n).Raised? then 1 else 0
  }

  /** Whatever expires, raises or cannot be cached: hits + misses = completed runs. */
  lemma {:induction false} CountersBalance<K, V>(cfg: Config, trace: seq<Event<K, V>>)
    ensures After(cfg, trace).hits + After(cfg, trace).misses == Completed(cfg, trace)
  {
    if trace != [] {
      CountersBalance(cfg, trace[..|trace| - 1]);
    }
  }

  // ------------------------------------------------------- least recently used

  predicate Cacheable<V>(o: Outcome<V>) {
    o.Yields? && o.copyable
  }

  /** Every outcome in the trace is a function of the key alone. */
  ghost predicate Follows<K(!new), V>(f: K -> Outcome<V>, trace: seq<Event<K, V>>) {
    forall i | 0 <= i < |trace| && trace[i].Run? :: trace[i].request.outcome == f(trace[i].request.key)
  }

  function Touch<K(==)>(ks: seq<K>, key: K): seq<K> {
    RemoveAt(ks, IndexOf(ks, key)) + [key]
  }

  /** All distinct cacheable keys used since the last clear, by last use. */
  function Recency<K(==), V>(f: K -> Outcome<V>, trace: seq<Event<K, V>>): seq<K> {
    if trace == [] then [] else
      var before := Recency(f, trace[..|trace| - 1]);
      match trace[|trace| - 1]
      case Clear => []
      case Run(r) => if Cacheable(f(r.key)) then Touch(before, r.key) else before
  }

  /** The position of a key's last cacheable use since the last clear, or -1. */
  function LastUse<K(==), V>(f: K -> Outcome<V>, trace: seq<Event<K, V>>, key: K): int {
    if trace == [] then -1 else
      var n := |trace| - 1;
      match trace[n]
      case Clear => -1
      case Run(r) => if r.key == key && Cacheable(f(key)) then n else LastUse(f, trace[..n], key)
  }

  lemma {:induction false} LastUseBounds<K, V>(f: K -> Outcome<V>, trace: seq<Event<K, V>>, key: K)
    ensures -1 <= LastUse(f, trace, key) < |trace|
  {
    if trace != [] {
      LastUseBounds(f, trace[..|trace| - 1], key);
    }
  }

  /** The keys used since the last clear. */
  ghost predicate AreUsed<K(!new), V>(f: K -> Outcome<V>, trace: seq<Event<K, V>>, ks: seq<K>) {
    forall k :: k in ks <==> LastUse(f, trace, k) >= 0
  }

  ghost predicate ByLastUse<K, V>(f: K -> Outcome<V>, trace: seq<Event<K, V>>, ks: seq<K>) {
    forall i, j | 0 <= i < j < |ks| :: LastUse(f, trace, ks[i]) < LastUse(f, trace, ks[j])
  }

  /** `Recency` is the list of used keys in increasing order of last use. */
  lemma {:induction false} RecencyIsByLastUse<K(!new), V>(f: K -> Outcome<V>, trace: seq<Event<K, V>>)
    ensures AreUsed(f, trace, Recency(f, trace)) && ByLastUse(f, trace, Recency(f, trace)) && Distinct(Recency(f, trace))
  {
    if trace != [] {
      var n := |trace| - 1;
      RecencyIsByLastUse(f, trace[..n]);
      if trace[n].Run? && Cacheable(f(trace[n].request.key)) {
        TouchUsed(f, trace);
        TouchOrder(f, trace);
      }
    }
  }

  lemma RemoveAtIndex<T>(s: seq<T>, p: nat, i: nat)
    requires p <= |s| && i < |RemoveAt(s, p)|
    ensures (if i < p then i else i + 1) < |s|
    ensures RemoveAt(s, p)[i] == s[if i < p then i else i + 1]
  {
  }

  lemma RemoveAtMembers<T>(s: seq<T>, x: T)
    requires Distinct(s)
    ensures var rest := RemoveAt(s, IndexOf(s, x));
            Distinct(rest) && forall k :: k in rest <==> k in s && k != x
  {
    hide IndexOf;
    var p := IndexOf(s, x);
    var rest := RemoveAt(s, p);
    assert forall i | 0 <= i < |rest| :: rest[i] == s[if i < p then i else i + 1];
    forall k | k in s && k != x ensures k in rest {
      var i := IndexOf(s, k);
      assert rest[if i < p then i else i - 1] == k;
    }
  }

  /** The last event used a cacheable key. */
  predicate EndsInUse<K(==), V>(f: K -> Outcome<V>, trace: seq<Event<K, V>>) {
    trace != [] && trace[|trace| - 1].Run? && Cacheable(f(trace[|trace| - 1].request.key))
  }

  lemma TouchLastUse<K(!new), V>(f: K -> Outcome<V>, trace: seq<Event<K, V>>, k: K)
    requires EndsInUse(f, trace)
    ensures var n := |trace| - 1;
            LastUse(f, trace, k) == (if k == trace[n].request.key then n else LastUse(f, trace[..n], k))
            && LastUse(f, trace[..n], k) < n
  {
    LastUseBounds(f, trace[..|trace| - 1], k);
  }

  lemma TouchUsed<K(!new), V>(f: K -> Outcome<V>, trace: seq<Event<K, V>>)
    requires EndsInUse(f, trace)
    requires var before := trace[..|trace| - 1]; AreUsed(f, before, Recency(f, before)) && Distinct(Recency(f, before))
    ensures AreUsed(f, trace, Recency(f, trace)) && Distinct(Recency(f, trace))
  {
    hide IndexOf, LastUse, RemoveAt;
    var ks, key := Recency(f, trace[..|trace| - 1]), trace[|trace| - 1].request.key;
    RemoveAtMembers(ks, key);
    forall k ensures k in Recency(f, trace) <==> LastUse(f, trace, k) >= 0 {
      TouchLastUse(f, trace, k);
    }
  }

  lemma TouchOrder<K(!new), V>(f: K -> Outcome<V>, trace: seq<Event<K, V>>)
    requires EndsInUse(f, trace)
    requires var before := trace[..|trace| - 1]; ByLastUse(f, before, Recency(f, before)) && Distinct(Recency(f, before))
    ensures ByLastUse(f, trace, Recency(f, trace))
  {
    hide IndexOf, LastUse, RemoveAt;
    var n := |trace| - 1;
    var ks, key := Recency(f, trace[..n]), trace[n].request.key;
    var p := IndexOf(ks, key);
    var rest := RemoveAt(ks, p);
    RemoveAtMembers(ks, key);
    var all := rest + [key];
    forall i, j | 0 <= i < j < |all| ensures LastUse(f, trace, all[i]) < LastUse(f, trace, all[j]) {
      assert rest[i] in rest;
      RemoveAtIndex(ks, p, i);
      TouchLastUse(f, trace, rest[i]);
      TouchLastUse(f, trace, key);
      if j < |rest| {
        assert rest[j] in rest;
        RemoveAtIndex(ks, p, j);
        TouchLastUse(f, trace, rest[j]);
        var i', j' := if i < p then i else i + 1, if j < p then j else j + 1;
        assert LastUse(f, trace[..n], ks[i']) < LastUse(f, trace[..n], ks[j']);
      }
    }
  }

  // ---- what one step does to the keys

  lemma IndexInSuffix<K>(ks: seq<K>, key: K, cut: nat)
    requires Distinct(ks) && cut <= |ks|
    ensures key in ks[cut..] ==> IndexOf(ks, key) == cut + IndexOf(ks[cut..], key)
    ensures key !in ks[cut..] && key in ks ==> IndexOf(ks, key) < cut
  {
    hide IndexOf;
    forall i | cut <= i < |ks| ensures ks[i] in ks[cut..] {
      assert ks[cut..][i - cut] == ks[i];
    }
    if key in ks[cut..] {
      assert ks[cut + IndexOf(ks[cut..], key)] == key;
    }
  }

  lemma TouchSuffix<K>(ks: seq<K>, key: K, cut: nat)
    requires Distinct(ks) && cut <= |ks| && key in ks[cut..]
    ensures Touch(ks[cut..], key) == Touch(ks, key)[cut..] && |Touch(ks, key)| == |ks|
  {
    hide IndexOf;
    IndexInSuffix(ks, key, cut);
    KeptSuffix(ks, IndexOf(ks, key), cut, key);
  }

  lemma KeptSuffix<T>(s: seq<T>, p: nat, cut: nat, x: T)
    requires cut <= p < |s|
    ensures (RemoveAt(s, p) + [x])[cut..] == RemoveAt(s[cut..], p - cut) + [x] && |RemoveAt(s, p) + [x]| == |s|
  {
  }

  lemma TouchKept<K>(ks: seq<K>, key: K, size: nat)
    requires Distinct(ks) && key in Recent(ks, size)
    ensures Touch(Recent(ks, size), key) == Recent(Touch(ks, key), size)
  {
    hide Touch;
    var cut := |ks| - |Recent(ks, size)|;
    assert Recent(ks, size) == ks[cut..];
    TouchSuffix(ks, key, cut);
  }

  lemma EvictedSuffix<T>(s: seq<T>, p: nat, cut: nat, x: T)
    requires p < cut <= |s|
    ensures (RemoveAt(s, p) + [x])[cut..] == (s[cut..] + [x])[1..] && |RemoveAt(s, p) + [x]| == |s|
  {
  }

  lemma TouchEvicted<K>(ks: seq<K>, key: K, size: nat)
    requires Distinct(ks) && key !in Recent(ks, size) && size > 0
    ensures Recent(Recent(ks, size) + [key], size) == Recent(Touch(ks, key), size)
  {
    hide IndexOf;
    var cut := |ks| - |Recent(ks, size)|;
    assert Recent(ks, size) == ks[cut..];
    IndexInSuffix(ks, key, cut);
    if key in ks {
      EvictedSuffix(ks, IndexOf(ks, key), cut, key);
    }
  }

  /** A step touches a kept key, appends a new cacheable one, and evicts the oldest. */
  lemma KeysOfHit<K, V>(cfg: Config, s: State<K, V>, r: Request<K, V>)
    requires Serves(cfg, s, r)
    ensures Keys(Step(cfg, s, r).0.cache) == Touch(Keys(s.cache), r.key)
  {
    hide IndexOf;
    var p := Position(s.cache, r.key);
    assert Keys(Without(s.cache, r.key)) == RemoveAt(Keys(s.cache), p);
  }

  lemma KeysOfMiss<K, V>(cfg: Config, s: State<K, V>, r: Request<K, V>)
    requires cfg.size > 0 && r.key !in Keys(s.cache)
    ensures !Serves(cfg, s, r)
    ensures Keys(Step(cfg, s, r).0.cache) ==
            if Cacheable(r.outcome) then Recent(Keys(s.cache) + [r.key], cfg.size) else Keys(s.cache)
  {
    hide IndexOf;
    assert Without(s.cache, r.key) == s.cache;
    if Cacheable(r.outcome) {
      var slot := Slot(r.key, r.outcome.value, Deadline(cfg, r.storeTime));
      assert Keys(s.cache + [slot]) == Keys(s.cache) + [r.key];
      assert Keys(Recent(s.cache + [slot], cfg.size)) == Recent(Keys(s.cache + [slot]), cfg.size);
    }
  }

  ghost predicate Determined<K(!new), V>(f: K -> Outcome<V>, cache: seq<Slot<K, V>>) {
    forall slot | slot in cache :: slot.expires.None? && f(slot.key) == Yields(slot.value, true)
  }

  lemma StepKeepsDetermined<K(!new), V>(cfg: Config, s: State<K, V>, r: Request<K, V>, f: K -> Outcome<V>)
    requires cfg.ttl.None? && Determined(f, s.cache) && r.outcome == f(r.key)
    ensures Determined(f, Step(cfg, s, r).0.cache)
  {
  }

  /** One request keeps the cache the recent end of the recency list. */
  lemma StepIsMostRecent<K(!new), V>(cfg: Config, s: State<K, V>, r: Request<K, V>, f: K -> Outcome<V>, ks: seq<K>)
    requires cfg.ttl.None? && Determined(f, s.cache) && r.outcome == f(r.key) && Distinct(ks)
    requires Keys(s.cache) == Recent(ks, cfg.size)
    ensures Keys(Step(cfg, s, r).0.cache) == Recent(if Cacheable(r.outcome) then Touch(ks, r.key) else ks, cfg.size)
  {
    hide IndexOf, Touch, Step;
    if cfg.size == 0 {
      SizeZero(cfg, s, r);
    } else if r.key in Keys(s.cache) {
      var p := Position(s.cache, r.key);
      assert s.cache[p] in s.cache;
      KeysOfHit(cfg, s, r);
      TouchKept(ks, r.key, cfg.size);
    } else {
      KeysOfMiss(cfg, s, r);
      TouchEvicted(ks, r.key, cfg.size);
    }
  }

  lemma SizeZero<K, V>(cfg: Config, s: State<K, V>, r: Request<K, V>)
    requires cfg.size == 0
    ensures Step(cfg, s, r).0.cache == s.cache
  {
  }

  /** Without a TTL the cache holds exactly the last `size` distinct cacheable keys. */
  lemma {:induction false} CacheIsMostRecent<K(!new), V>(cfg: Config, trace: seq<Event<K, V>>, f: K -> Outcome<V>)
    requires cfg.ttl.None? && Follows(f, trace)
    ensures Keys(After(cfg, trace).cache) == Recent(Recency(f, trace), cfg.size)
    ensures Determined(f, After(cfg, trace).cache)
  {
    hide IndexOf, Touch, Step;
    if trace != [] {
      var n := |trace| - 1;
      CacheIsMostRecent(cfg, trace[..n], f);
      RecencyIsByLastUse(f, trace[..n]);
      var s := After(cfg, trace[..n]);
      if trace[n].Run? {
        StepKeepsDetermined(cfg, s, trace[n].request, f);
        StepIsMostRecent(cfg, s, trace[n].request, f, Recency(f, trace[..n]));
      }
    }
  }

  /** A request is served from the cache iff its key is among the last `size` used. */
  lemma HitIffRecent<K(!new), V>(cfg: Config, trace: seq<Event<K, V>>, i: nat, f: K -> Outcome<V>)
    requires cfg.ttl.None? && Follows(f, trace) && i < |trace| && trace[i].Run?
    ensures ReplyAt(cfg, trace, i).Hit? <==>
            trace[i].request.key in Recent(Recency(f, trace[..i]), cfg.size)
    ensures ReplyAt(cfg, trace, i).Hit? ==>
            f(trace[i].request.key) == Yields(ReplyAt(cfg, trace, i).value, true)
  {
    assert Follows(f, trace[..i]);
    CacheIsMostRecent(cfg, trace[..i], f);
    var s, r := After(cfg, trace[..i]), trace[i].request;
    var p := Position(s.cache, r.key);
    if p < |s.cache| {
      assert s.cache[p] in s.cache;
    }
  }

  /** Whatever hits in the smaller cache hits in the larger. */
  lemma HitsCarryOver<K(!new), V>(small: Config, large: Config, trace: seq<Event<K, V>>, i: nat, f: K -> Outcome<V>)
    requires small.ttl.None? && large.ttl.None? && small.size <= large.size && Follows(f, trace)
    requires i < |trace| && trace[i].Run? && ReplyAt(small, trace, i).Hit?
    ensures ReplyAt(large, trace, i).Hit?
  {
    HitIffRecent(small, trace, i, f);
    HitIffRecent(large, trace, i, f);
    RecentGrows(Recency(f, trace[..i]), small.size, large.size);
  }

  lemma RecentGrows<T>(s: seq<T>, m: nat, n: nat)
    requires m <= n
    ensures Recent(s, m) == Recent(Recent(s, n), m)
    ensures forall x | x in Recent(s, m) :: x in Recent(s, n)
  {
  }

  /** LRU inclusion over whole runs: a smaller cache is the recent end of a larger one. */
  lemma Inclusion<K(!new), V>(small: Config, large: Config, trace: seq<Event<K, V>>, f: K -> Outcome<V>)
    requires small.ttl.None? && large.ttl.None? && small.size <= large.size && Follows(f, trace)
    ensures Keys(After(small, trace).cache) == Recent(Keys(After(large, trace).cache), small.size)
    ensures After(small, trace).hits <= After(large, trace).hits
  {
    CacheIsMostRecent(small, trace, f);
    CacheIsMostRecent(large, trace, f);
    RecentGrows(Recency(f, trace), small.size, large.size);
    MoreHits(small, large, trace, f);
  }

  lemma {:induction false} MoreHits<K(!new), V>(small: Config, large: Config, trace: seq<Event<K, V>>, f: K -> Outcome<V>)
    requires small.ttl.None? && large.ttl.None? && small.size <= large.size && Follows(f, trace)
    ensures After(small, trace).hits <= After(large, trace).hits
  {
    if trace != [] {
      var n := |trace| - 1;
      MoreHits(small, large, trace[..n], f);
      if trace[n].Run? {
        if ReplyAt(small, trace, n).Hit? {
          HitsCarryOver(small, large, trace, n, f);
        }
      }
    }
  }

  // ------------------------------------------------------------ time to live

  /** Event `i` executed the slot's key, stored its value, and is still the latest word on it. */
  ghost predicate StoredAt<K, V>(cfg: Config, trace: seq<Event<K, V>>, slot: Slot<K, V>, i: nat) {
    && i < |trace| && trace[i].Run? && trace[i].request.key == slot.key
    && ReplyAt(cfg, trace, i) == Executed(slot.value)
    && slot.expires == Deadline(cfg, trace[i].request.storeTime)
    && forall j | i < j < |trace| ::
         trace[j].Run? && (trace[j].request.key == slot.key ==> ReplyAt(cfg, trace, j).Hit?)
  }

  lemma StoredAtExtends<K, V>(cfg: Config, trace: seq<Event<K, V>>, slot: Slot<K, V>, i: nat)
    requires trace != [] && StoredAt(cfg, trace[..|trace| - 1], slot, i)
    requires trace[|trace| - 1].Run?
    requires trace[|trace| - 1].request.key == slot.key ==> ReplyAt(cfg, trace, |trace| - 1).Hit?
    ensures StoredAt(cfg, trace, slot, i)
  {
    var n := |trace| - 1;
    forall j: nat | j < n ensures trace[..n][..j] == trace[..j] {
    }
    assert ReplyAt(cfg, trace, i) == ReplyAt(cfg, trace[..n], i);
    forall j | i < j < |trace|
      ensures trace[j].Run? && (trace[j].request.key == slot.key ==> ReplyAt(cfg, trace, j).Hit?)
    {
      if j < n {
        assert trace[..n][j].Run?;
        assert ReplyAt(cfg, trace, j) == ReplyAt(cfg, trace[..n], j);
      }
    }
  }

  /** Every cached entry is the latest execution of its key since the last clear. */
  lemma {:induction false} SlotOrigin<K, V>(cfg: Config, trace: seq<Event<K, V>>, slot: Slot<K, V>) returns (i: nat)
    requires slot in After(cfg, trace).cache
    ensures StoredAt(cfg, trace, slot, i)
  {
    hide IndexOf;
    var n := |trace| - 1;
    var s, r := After(cfg, trace[..n]), trace[n].request;
    assert trace[n].Run?;
    if slot in s.cache && (slot.key == r.key ==> Serves(cfg, s, r)) {
      i := SlotOrigin(cfg, trace[..n], slot);
      StoredAtExtends(cfg, trace, slot, i);
    } else {
      AlwaysWellKept(cfg, trace[..n]);
      WithoutKeepsDistinct(s.cache, r.key);
      i := n;
    }
  }

  /** A hit returns the latest execution of the key, and only within its time to live. */
  lemma HitIsFresh<K, V>(cfg: Config, trace: seq<Event<K, V>>, n: nat) returns (i: nat)
    requires n < |trace| && trace[n].Run? && ReplyAt(cfg, trace, n).Hit?
    ensures i < n && trace[i].Run? && trace[i].request.key == trace[n].request.key
    ensures ReplyAt(cfg, trace, i) == Executed(ReplyAt(cfg, trace, n).value)
    ensures cfg.ttl.Some? ==> trace[n].request.lookupTime < trace[i].request.storeTime + cfg.ttl.value
    ensures forall j | i < j < n ::
              trace[j].Run? && (trace[j].request.key == trace[n].request.key ==> ReplyAt(cfg, trace, j).Hit?)
  {
    hide IndexOf;
    var s, r := After(cfg, trace[..n]), trace[n].request;
    var slot := Find(s.cache, r.key).value;
    i := SlotOrigin(cfg, trace[..n], slot);
    assert trace[..n][..i] == trace[..i];
    forall j | i < j < n
      ensures trace[j].Run? && (trace[j].request.key == r.key ==> ReplyAt(cfg, trace, j).Hit?)
    {
      assert trace[..n][..j] == trace[..j] && trace[..n][j].Run?;
    }
  }

  // ---------------------------------------------------------------- the engine

  lemma NothingToRemove<K, V>(cache: seq<Slot<K, V>>, key: K)
    ensures Find(cache, key).None? ==> Without(cache, key) == cache
  {
  }

  /** The engine object: an ordered dictionary of entries and two counters. */
  class Engine<K(==), V> {
    const cfg: Config
    var cache: seq<Slot<K, V>>
    var hits: nat
    var misses: nat

    function Current(): State<K, V>
      reads this
    {
      State(cache, hits, misses)
    }

    constructor (cfg: Config)
      ensures this.cfg == cfg && Current() == After<K, V>(cfg, [])
    {
      this.cfg := cfg;
      cache, hits, misses := [], 0, 0;
    }

    method ClearCache()
      modifies this
      ensures Current() == Next(cfg, old(Current()), Clear)
    {
      cache := [];
    }

    /** Look up, else execute, store and evict from the front. */
    method Execute(r: Request<K, V>) returns (reply: Reply<V>)
      modifies this
      ensures Current() == Step(cfg, old(Current()), r).0
      ensures reply == Step(cfg, old(Current()), r).1
    {
      hide Find, Without, Deadline;
      NothingToRemove(cache, r.key);
      if cfg.size > 0 {
        var entry := Find(cache, r.key);
        if entry.Some? {
          var expired := entry.value.expires.Some? && r.lookupTime >= entry.value.expires.value;
          cache := Without(cache, r.key);
          if !expired {
            cache := cache + [entry.value];
            hits := hits + 1;
            return Hit(entry.value.value);
          }
        }
      }
      if r.outcome.Raises? {
        return Raised;
      }
      if cfg.size > 0 && r.outcome.copyable {
        cache := cache + [Slot(r.key, r.outcome.value, Deadline(cfg, r.storeTime))];
        ghost var full := cache;
        while |cache| > cfg.size
          invariant hits == old(hits) && misses == old(misses)
          invariant |cache| <= |full| && cache == full[|full| - |cache|..]
          invariant |full| >= cfg.size ==> |cache| >= cfg.size
          invariant |full| <= cfg.size ==> cache == full
        {
          cache := cache[1..];
        }
      }
      misses := misses + 1;
      return Executed(r.outcome.value);
    }
  }
}
