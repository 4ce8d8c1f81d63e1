/** The L1 result cache: bounded by bytes, least-recently-used first out, with a time to live and a
    generation counter per connection. `R` is how a row is held; the bookkeeping does not look. */
module ResultCache {
  import opened Common
  import opened LengthPrefix
  import Policy

  datatype Entry<R> = Entry(key: string, columns: seq<Column>, rows: seq<R>, truncated: bool, bytes: nat, expires: int)

  // What the list means, front (most recently used) first.

  function Total<R>(order: seq<Entry<R>>): (n: nat) {
    if order == [] then 0 else Total(order[..|order| - 1]) + order[|order| - 1].bytes
  }

  ghost predicate DistinctKeys<R>(order: seq<Entry<R>>) {
    forall i, j :: 0 <= i < j < |order| ==> order[i].key != order[j].key
  }

  function Find<R>(order: seq<Entry<R>>, key: string): (found: Option<Entry<R>>)
    ensures found.Some? ==> found.value in order && found.value.key == key
    ensures found.None? ==> forall e :: e in order ==> e.key != key
  {
    if order == [] then None
    else if order[0].key == key then Some(order[0])
    else Find(order[1..], key)
  }

  function Without<R>(order: seq<Entry<R>>, key: string): (rest: seq<Entry<R>>)
    ensures forall e :: e in rest ==> e in order && e.key != key
    ensures forall e :: e in order && e.key != key ==> e in rest
    ensures |rest| <= |order|
  {
    if order == [] then []
    else if order[0].key == key then Without(order[1..], key)
    else [order[0]] + Without(order[1..], key)
  }

  /** Evicts from the back until the rest fits. */
  function Fit<R>(order: seq<Entry<R>>, max: nat): seq<Entry<R>> {
    if Total(order) <= max then order else Fit(order[..|order| - 1], max)
  }

  datatype Limits = Limits(maxBytes: nat, maxEntryBytes: nat, ttl: nat)

  /** What a lookup does to the list, and what it answers. */
  function Looked<R>(order: seq<Entry<R>>, key: string, now: int): (seq<Entry<R>>, Option<Entry<R>>) {
    match Find(order, key)
    case None => (order, None)
    case Some(e) =>
      if now > e.expires then (Without(order, key), None) else ([e] + Without(order, key), Some(e))
  }

  /** What a store does to the list, and whether the result was taken. */
  function Stored<R>(order: seq<Entry<R>>, e: Entry<R>, limits: Limits): (seq<Entry<R>>, bool) {
    if e.bytes > limits.maxEntryBytes || e.bytes > limits.maxBytes then (order, false)
    else (Fit([e] + Without(order, e.key), limits.maxBytes), true)
  }

  // Bounds and eviction.

  lemma {:induction false} TotalOfPrefix<R>(order: seq<Entry<R>>, n: nat)
    requires n <= |order|
    ensures Total(order[..n]) <= Total(order)
    decreases |order|
  {
    if n < |order| {
      assert order[..|order| - 1][..n] == order[..n];
      TotalOfPrefix(order[..|order| - 1], n);
    } else {
      assert order[..n] == order;
    }
  }

  /** Eviction keeps exactly the longest most-recent prefix that fits. */
  lemma {:induction false} FitIsLongestPrefix<R>(order: seq<Entry<R>>, max: nat)
    ensures var kept := Fit(order, max);
            && |kept| <= |order| && kept == order[..|kept|]
            && Total(kept) <= max
            && forall n :: |kept| < n <= |order| ==> Total(order[..n]) > max
    decreases |order|
  {
    if Total(order) > max {
      var shorter := order[..|order| - 1];
      FitIsLongestPrefix(shorter, max);
      forall n | |Fit(order, max)| < n <= |order| ensures Total(order[..n]) > max {
        if n < |order| {
          assert shorter[..n] == order[..n];
        } else {
          assert order[..n] == order;
        }
      }
    } else {
      assert order[..|order|] == order;
    }
  }

  lemma {:induction false} WithoutKeepsDistinct<R>(order: seq<Entry<R>>, key: string)
    requires DistinctKeys(order)
    ensures DistinctKeys(Without(order, key))
  {
    if order != [] {
      WithoutKeepsDistinct(order[1..], key);
      var rest := Without(order[1..], key);
      forall j | 0 <= j < |rest| ensures order[0].key != rest[j].key {
        assert rest[j] in order[1..];
      }
    }
  }

  lemma {:induction false} WithoutWeighs<R>(order: seq<Entry<R>>, key: string)
    requires DistinctKeys(order)
    ensures Total(order) == Total(Without(order, key)) +
            if Find(order, key).Some? then Find(order, key).value.bytes else 0
  {
    if order != [] {
      TotalFromFront(order);
      if order[0].key == key {
        WithoutAbsent(order[1..], key);
      } else {
        WithoutWeighs(order[1..], key);
        TotalOfCons(order[0], Without(order[1..], key));
      }
    }
  }

  lemma {:induction false} WithoutAbsent<R>(order: seq<Entry<R>>, key: string)
    requires forall e :: e in order ==> e.key != key
    ensures Without(order, key) == order && Find(order, key).None?
  {
    if order != [] {
      assert order[0] in order;
      WithoutAbsent(order[1..], key);
    }
  }

  lemma {:induction false} TotalFromFront<R>(order: seq<Entry<R>>)
    requires order != []
    ensures Total(order) == order[0].bytes + Total(order[1..])
  {
    if |order| > 1 {
      var front := order[..|order| - 1];
      TotalFromFront(front);
      assert front[1..] == order[1..][..|order[1..]| - 1];
    }
  }

  lemma TotalOfCons<R>(e: Entry<R>, rest: seq<Entry<R>>)
    ensures Total([e] + rest) == e.bytes + Total(rest)
  {
    TotalFromFront([e] + rest);
    assert ([e] + rest)[1..] == rest;
  }

  ghost predicate Sound<R>(order: seq<Entry<R>>, maxBytes: nat) {
    DistinctKeys(order) && Total(order) <= maxBytes
  }

  /** Every operation keeps the keys distinct and the bytes within the bound, and a successful store
      keeps the new entry together with the longest most-recent part of the old ones that fits. */
  lemma StoreKeepsLongestRecentPrefix<R>(order: seq<Entry<R>>, e: Entry<R>, limits: Limits)
    requires Sound(order, limits.maxBytes)
    ensures var (after, taken) := Stored(order, e, limits);
            && Sound(after, limits.maxBytes)
            && (taken <==> e.bytes <= limits.maxEntryBytes && e.bytes <= limits.maxBytes)
            && (!taken ==> after == order)
            && var whole := [e] + Without(order, e.key);
            taken ==>
              && 1 <= |after| <= |whole| && after == whole[..|after|]
              && forall n :: |after| < n <= |whole| ==> Total(whole[..n]) > limits.maxBytes
  {
    var whole := [e] + Without(order, e.key);
    if e.bytes <= limits.maxEntryBytes && e.bytes <= limits.maxBytes {
      ConsDistinct(e, order);
      FitIsLongestPrefix(whole, limits.maxBytes);
      var after := Fit(whole, limits.maxBytes);
      TotalOfCons(e, []);
      var first := whole[..1];
      assert first == [e] + [];
      assert Total(first) <= limits.maxBytes;
    }
  }

  lemma ConsDistinct<R>(e: Entry<R>, order: seq<Entry<R>>)
    requires DistinctKeys(order)
    ensures DistinctKeys([e] + Without(order, e.key))
  {
    var rest := Without(order, e.key);
    WithoutKeepsDistinct(order, e.key);
    forall i | 0 <= i < |rest| ensures rest[i].key != e.key {
      assert rest[i] in rest;
    }
  }

  /** A store adds nothing but the new entry. */
  lemma StoreAddsOnlyTheEntry<R>(order: seq<Entry<R>>, e: Entry<R>, limits: Limits)
    ensures forall d :: d in Stored(order, e, limits).0 ==>
              if Stored(order, e, limits).1 then d == e || (d in order && d.key != e.key) else d in order
  {
    FitIsLongestPrefix([e] + Without(order, e.key), limits.maxBytes);
  }

  /** What fits is taken, and is then in front; what does not fit changes nothing. */
  lemma StoredInFront<R>(order: seq<Entry<R>>, e: Entry<R>, limits: Limits)
    ensures var (after, taken) := Stored(order, e, limits);
            && (taken <==> e.bytes <= limits.maxEntryBytes && e.bytes <= limits.maxBytes)
            && if taken then after != [] && after[0] == e else after == order
  {
    var whole := [e] + Without(order, e.key);
    FitIsLongestPrefix(whole, limits.maxBytes);
    TotalOfCons(e, []);
    assert whole[..1] == [e] && [e] + [] == [e];
  }

  lemma LookupKeepsSound<R>(order: seq<Entry<R>>, key: string, now: int, maxBytes: nat)
    requires Sound(order, maxBytes)
    ensures Sound(Looked(order, key, now).0, maxBytes)
    ensures var answer := Looked(order, key, now).1;
            && (answer.Some? <==> exists e :: e in order && e.key == key && now <= e.expires)
            && (answer.Some? ==> answer.value in order && answer.value.key == key && now <= answer.value.expires)
    ensures forall e :: e in Looked(order, key, now).0 ==> e in order
  {
    WithoutKeepsDistinct(order, key);
    WithoutWeighs(order, key);
    match Find(order, key)
    case None =>
    case Some(found) =>
      forall e | e in order && e.key == key ensures e == found {
        var i :| 0 <= i < |order| && order[i] == e;
        var j :| 0 <= j < |order| && order[j] == found;
      }
      TotalOfCons(found, Without(order, key));
      assert forall i :: 0 <= i < |Without(order, key)| ==> Without(order, key)[i] in Without(order, key);
  }

  /** A lookup takes nothing out but an expired entry of its own key, and puts a hit in front of the rest. */
  lemma LookupKeepsTheRest<R>(order: seq<Entry<R>>, key: string, now: int)
    requires DistinctKeys(order)
    ensures forall e :: e in Looked(order, key, now).0 <==> e in order && !(e.key == key && now > e.expires)
    ensures DistinctKeys(Looked(order, key, now).0)
    ensures forall e :: e in order && e.key == key && now <= e.expires ==> Looked(order, key, now).0[0] == e
  {
    LookupKeepsSound(order, key, now, Total(order));
    forall e | e in order && e.key == key ensures Find(order, key) == Some(e) {
      var i :| 0 <= i < |order| && order[i] == e;
      var j :| 0 <= j < |order| && order[j] == Find(order, key).value;
    }
  }

  // Recency over whole runs: the list order is the order of last use.

  datatype Op<R> = Look(key: string, now: int) | Keep(entry: Entry<R>)

  function Applied<R>(order: seq<Entry<R>>, op: Op<R>, limits: Limits): seq<Entry<R>> {
    match op
    case Look(key, now) => Looked(order, key, now).0
    case Keep(entry) => Stored(order, entry, limits).0
  }

  function Ran<R>(ops: seq<Op<R>>, limits: Limits): seq<Entry<R>> {
    if ops == [] then [] else Applied(Ran(ops[..|ops| - 1], limits), ops[|ops| - 1], limits)
  }

  /** Whether operation n used the key: a lookup that hit it, or a store that took it. */
  ghost predicate Uses<R>(ops: seq<Op<R>>, n: nat, key: string, limits: Limits)
    requires n < |ops|
  {
    match ops[n]
    case Look(k, now) => k == key && Looked(Ran(ops[..n], limits), k, now).1.Some?
    case Keep(e) => e.key == key && e.bytes <= limits.maxEntryBytes && e.bytes <= limits.maxBytes
  }

  /** One past the last operation that used the key; 0 when none did. */
  ghost function LastUse<R>(ops: seq<Op<R>>, key: string, limits: Limits): (n: nat)
    ensures n <= |ops|
  {
    if ops == [] then 0
    else if Uses(ops, |ops| - 1, key, limits) then |ops|
    else LastUse(ops[..|ops| - 1], key, limits)
  }

  ghost predicate Descending<R>(order: seq<Entry<R>>, rank: string -> nat) {
    && (forall i :: 0 <= i < |order| ==> rank(order[i].key) > 0)
    && forall i, j :: 0 <= i < j < |order| ==> rank(order[i].key) > rank(order[j].key)
  }

  lemma TailDescending<R>(order: seq<Entry<R>>, rank: string -> nat)
    requires order != [] && Descending(order, rank)
    ensures Descending(order[1..], rank) && rank(order[0].key) > 0
    ensures forall e :: e in order[1..] ==> rank(order[0].key) > rank(e.key)
  {
  }

  lemma ConsDescending<R>(e: Entry<R>, rest: seq<Entry<R>>, rank: string -> nat)
    requires Descending(rest, rank) && rank(e.key) > 0 && forall d :: d in rest ==> rank(e.key) > rank(d.key)
    ensures Descending([e] + rest, rank)
  {
    forall j | 0 <= j < |rest| ensures rank(e.key) > rank(rest[j].key) {
      assert rest[j] in rest;
    }
  }

  lemma {:induction false} WithoutDescending<R>(order: seq<Entry<R>>, key: string, rank: string -> nat)
    requires Descending(order, rank)
    ensures Descending(Without(order, key), rank)
  {
    if order != [] {
      TailDescending(order, rank);
      WithoutDescending(order[1..], key, rank);
      ConsDescending(order[0], Without(order[1..], key), rank);
      hide Descending;
    }
  }

  /** Moving a key to the front keeps the order descending once its rank is the highest. */
  lemma FrontDescending<R>(e: Entry<R>, order: seq<Entry<R>>, rank: string -> nat, rank': string -> nat, top: nat)
    requires Descending(order, rank)
    requires forall d :: d in order ==> d.key != e.key ==> rank'(d.key) == rank(d.key) < top
    requires rank'(e.key) == top > 0
    ensures Descending([e] + Without(order, e.key), rank')
  {
    hide Without;
    var rest := Without(order, e.key);
    WithoutDescending(order, e.key, rank);
    SameRanks(rest, rank, rank');
    ConsDescending(e, rest, rank');
  }

  lemma SameRanks<R>(order: seq<Entry<R>>, rank: string -> nat, rank': string -> nat)
    requires Descending(order, rank) && forall e :: e in order ==> rank'(e.key) == rank(e.key)
    ensures Descending(order, rank')
  {
    assert forall i :: 0 <= i < |order| ==> order[i] in order;
  }

  ghost function Recency<R(!new)>(ops: seq<Op<R>>, limits: Limits): string -> nat {
    key => LastUse(ops, key, limits)
  }

  /** After any operations whatever, the list holds distinct keys within the byte bound, in exactly
      the order of their last use; so what eviction drops is what was used longest ago. */
  lemma {:induction false} RunIsLeastRecentlyUsed<R(!new)>(ops: seq<Op<R>>, limits: Limits)
    ensures Sound(Ran(ops, limits), limits.maxBytes)
    ensures Descending(Ran(ops, limits), Recency(ops, limits))
    decreases |ops|
  {
    if ops != [] {
      var before := ops[..|ops| - 1];
      var order, op := Ran(before, limits), ops[|ops| - 1];
      RunIsLeastRecentlyUsed(before, limits);
      match op
      case Look(key, now) =>
        LookupKeepsSound(order, key, now, limits.maxBytes);
        WithoutDescending(order, key, Recency(before, limits));
        AfterLook(ops, order, limits);
      case Keep(entry) =>
        StoreKeepsLongestRecentPrefix(order, entry, limits);
        AfterKeep(ops, order, limits);
    }
  }

  lemma AfterLook<R(!new)>(ops: seq<Op<R>>, order: seq<Entry<R>>, limits: Limits)
    requires ops != [] && ops[|ops| - 1].Look? && order == Ran(ops[..|ops| - 1], limits)
    requires Descending(order, Recency(ops[..|ops| - 1], limits))
    ensures Descending(Ran(ops, limits), Recency(ops, limits))
  {
    hide Find, Without, Fit, Stored;
    var before, key, now := ops[..|ops| - 1], ops[|ops| - 1].key, ops[|ops| - 1].now;
    var (after, found) := Looked(order, key, now);
    if found.Some? {
      FrontDescending(found.value, order, Recency(before, limits), Recency(ops, limits), |ops|);
    } else {
      WithoutDescending(order, key, Recency(before, limits));
      assert forall k :: LastUse(ops, k, limits) == LastUse(before, k, limits);
      assert Descending(after, Recency(before, limits));
    }
  }

  lemma AfterKeep<R(!new)>(ops: seq<Op<R>>, order: seq<Entry<R>>, limits: Limits)
    requires ops != [] && ops[|ops| - 1].Keep? && order == Ran(ops[..|ops| - 1], limits)
    requires Descending(order, Recency(ops[..|ops| - 1], limits))
    ensures Descending(Ran(ops, limits), Recency(ops, limits))
  {
    var before, e := ops[..|ops| - 1], ops[|ops| - 1].entry;
    if e.bytes <= limits.maxEntryBytes && e.bytes <= limits.maxBytes {
      FrontDescending(e, order, Recency(before, limits), Recency(ops, limits), |ops|);
      FitIsLongestPrefix([e] + Without(order, e.key), limits.maxBytes);
    } else {
      assert forall k :: LastUse(ops, k, limits) == LastUse(before, k, limits);
      assert Descending(order, Recency(before, limits));
    }
  }

  // The cache itself.

  datatype Stats = Stats(hits: nat, misses: nat, uncached: nat, evictions: nat, expired: nat)

  /** The key's pre-image; its parts are a resolved caller, a question and a generation. */
  function KeyParts(fp: Policy.Fingerprint, org: string, connection: string, statement: string, maxRows: int,
                    generation: nat): seq<string> {
    [org, connection, fp.sum, SignedDecimal(maxRows), Decimal(generation), statement]
  }

  function KeyFor(hash: string -> string, fp: Policy.Fingerprint, org: string, connection: string,
                  statement: string, maxRows: int, generation: nat): Option<string> {
    if !fp.Resolved() then None
    else Some(hash("query/v1" + Parts(KeyParts(fp, org, connection, statement, maxRows, generation))))
  }

  /** Two callers name the same entry only by asking the same thing, of the same generation, with the
      same fingerprint. */
  lemma KeyInjective(hash: string -> string,
                     fp: Policy.Fingerprint, org: string, connection: string, statement: string, maxRows: int, gen: nat,
                     fp': Policy.Fingerprint, org': string, connection': string, statement': string,
                     maxRows': int, gen': nat)
    requires IsHash(hash)
    requires KeyFor(hash, fp, org, connection, statement, maxRows, gen).Some?
    requires KeyFor(hash, fp, org, connection, statement, maxRows, gen)
          == KeyFor(hash, fp', org', connection', statement', maxRows', gen')
    ensures fp == fp' && org == org' && connection == connection' && statement == statement'
    ensures maxRows == maxRows' && gen == gen'
  {
    var ps := KeyParts(fp, org, connection, statement, maxRows, gen);
    var qs := KeyParts(fp', org', connection', statement', maxRows', gen');
    var a, b := "query/v1" + Parts(ps), "query/v1" + Parts(qs);
    assert a[8..] == Parts(ps) && b[8..] == Parts(qs);
    PartsInjective(ps, qs);
    assert ps[0] == qs[0] && ps[1] == qs[1] && ps[2] == qs[2] && ps[3] == qs[3] && ps[4] == qs[4] && ps[5] == qs[5];
    SignedDecimalInjective(maxRows, maxRows');
    ValueOfDecimal(gen);
    ValueOfDecimal(gen');
  }

  class Cache<R> {
    var entries: map<string, Entry<R>>
    var order: seq<Entry<R>>
    var bytes: int
    const limits: Limits
    var generations: map<string, nat>
    var stats: Stats

    ghost predicate Valid()
      reads this
    {
      Linked() && Total(order) <= limits.maxBytes
    }

    /** Map and list hold the same distinct keys, and `bytes` is what they weigh. */
    ghost predicate Linked()
      reads this
    {
      && DistinctKeys(order)
      && bytes == Total(order)
      && (forall e :: e in order ==> e.key in entries && entries[e.key] == e)
      && (forall k :: k in entries ==> entries[k] in order && entries[k].key == k)
    }

    constructor (maxBytes: nat, maxEntryBytes: nat, ttl: nat)
      ensures Valid() && order == [] && generations == map[] && limits == Limits(maxBytes, maxEntryBytes, ttl)
      ensures stats == Stats(0, 0, 0, 0, 0)
    {
      entries, order, bytes, generations := map[], [], 0, map[];
      limits := Limits(maxBytes, maxEntryBytes, ttl);
      stats := Stats(0, 0, 0, 0, 0);
    }

    function Generation(connection: string): nat
      reads this
    {
      if connection in generations then generations[connection] else 0
    }

    method Invalidate(connection: string)
      requires Valid()
      modifies this`generations
      ensures Valid()
      ensures generations == old(generations)[connection := old(Generation(connection)) + 1]
    {
      generations := generations[connection := Generation(connection) + 1];
    }

    method RemoveLocked(e: Entry<R>)
      requires Linked() && e in order
      modifies this`entries, this`order, this`bytes
      ensures Linked() && order == Without(old(order), e.key)
      ensures entries == old(entries) - {e.key}
    {
      WithoutKeepsDistinct(order, e.key);
      WithoutWeighs(order, e.key);
      assert Find(order, e.key) == Some(e) by {
        assert entries[Find(order, e.key).value.key] == Find(order, e.key).value;
      }
      order := Without(order, e.key);
      entries := entries - {e.key};
      bytes := bytes - e.bytes;
    }

    method Get(key: string, now: int) returns (found: Option<Entry<R>>)
      requires Valid()
      modifies this`entries, this`order, this`bytes, this`stats
      ensures Valid()
      ensures (order, found) == Looked(old(order), key, now)
      ensures forall e :: e in order <==> e in old(order) && !(e.key == key && now > e.expires)
      ensures found.Some? <==> exists e :: e in old(order) && e.key == key && now <= e.expires
      ensures found.Some? ==> found.value in old(order) && found.value.key == key && order[0] == found.value
      ensures stats == if found.Some? then old(stats).(hits := old(stats).hits + 1)
                       else old(stats).(misses := old(stats).misses + 1,
                                        expired := old(stats).expired + if Find(old(order), key).Some? then 1 else 0)
    {
      LookupKeepsSound(order, key, now, limits.maxBytes);
      LookupKeepsTheRest(order, key, now);
      if key !in entries {
        WithoutAbsent(order, key);
        stats := stats.(misses := stats.misses + 1);
        return None;
      }
      var e := entries[key];
      assert Find(order, key) == Some(e) by {
        assert entries[Find(order, key).value.key] == Find(order, key).value;
      }
      if now > e.expires {
        RemoveLocked(e);
        stats := stats.(expired := stats.expired + 1, misses := stats.misses + 1);
        return None;
      }
      WithoutWeighs(order, key);
      TotalOfCons(e, Without(order, key));
      order := [e] + Without(order, key);
      stats := stats.(hits := stats.hits + 1);
      return Some(e);
    }

    /** The eviction loop: drops from the back until the bytes fit. */
    method Evict()
      requires Linked()
      modifies this`entries, this`order, this`bytes, this`stats
      ensures Valid() && order == Fit(old(order), limits.maxBytes)
      ensures stats == old(stats).(evictions := stats.evictions)
      ensures stats.evictions == old(stats).evictions + |old(order)| - |order|
    {
      ghost var whole := order;
      while bytes > limits.maxBytes
        invariant |order| <= |whole|
        invariant Fit(order, limits.maxBytes) == Fit(whole, limits.maxBytes)
        invariant Linked()
        invariant stats == old(stats).(evictions := old(stats).evictions + |whole| - |order|)
        decreases |order|
      {
        var oldest := order[|order| - 1];
        DropLast(order);
        RemoveLocked(oldest);
        stats := stats.(evictions := stats.evictions + 1);
      }
    }

    method Put(key: string, columns: seq<Column>, rows: seq<R>, truncated: bool, size: nat, now: int)
      returns (taken: bool)
      requires Valid()
      modifies this`entries, this`order, this`bytes, this`stats
      ensures Valid()
      ensures (order, taken) == Stored(old(order), Entry(key, columns, rows, truncated, size, now + limits.ttl), limits)
      ensures stats == old(stats).(evictions := stats.evictions)
      ensures stats.evictions - old(stats).evictions
           == if taken then |Without(old(order), key)| + 1 - |order| else 0
    {
      hide Total, Find, Fit, DistinctKeys, Without;
      if size > limits.maxEntryBytes || size > limits.maxBytes {
        return false;
      }
      if key in entries {
        RemoveLocked(entries[key]);
      } else {
        WithoutAbsent(order, key);
      }
      PushFront(Entry(key, columns, rows, truncated, size, now + limits.ttl));
      Evict();
      return true;
    }

    method PushFront(e: Entry<R>)
      requires Linked() && e.key !in entries
      modifies this`entries, this`order, this`bytes
      ensures Linked() && order == [e] + old(order)
    {
      hide Total, Without, DistinctKeys;
      TotalOfCons(e, order);
      WithoutAbsent(order, e.key);
      ConsDistinct(e, order);
      entries := entries[e.key := e];
      order := [e] + order;
      bytes := bytes + e.bytes;
    }

    method CountUncached()
      requires Valid()
      modifies this`stats
      ensures Valid() && stats == old(stats).(uncached := old(stats).uncached + 1)
    {
      stats := stats.(uncached := stats.uncached + 1);
    }
  }

  /** Removing the back element is dropping it, when keys are distinct. */
  lemma {:induction false} DropLast<R>(order: seq<Entry<R>>)
    requires order != [] && DistinctKeys(order)
    ensures Without(order, order[|order| - 1].key) == order[..|order| - 1]
  {
    if |order| > 1 {
      DropLast(order[1..]);
      assert order[1..][|order| - 2] == order[|order| - 1];
      assert order[..|order| - 1] == [order[0]] + order[1..][..|order| - 2];
    }
  }
}
