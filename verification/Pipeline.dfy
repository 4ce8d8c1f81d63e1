/** The cache inside the query pipeline, over every interleaving. Each step is one stretch of code no
    other goroutine can observe the middle of: a section under the cache's lock, one call of Next, one
    Close. Any number of executions run at once, the clock moves, connections are invalidated, reads
    are abandoned and sources fail, all in any order. */
module Pipeline {
  import opened Common
  import opened LengthPrefix
  import opened ResultCache
  import opened LoggedStream
  import opened Policy

  datatype Config = Config(hash: string -> string, limits: Limits)

  datatype Question = Question(caller: Caller, connection: string, maxRows: int, statement: string)

  function Org(caller: Caller): string {
    match caller
    case NoScope => ""
    case System(org) => org
    case Actor(org, _) => org
  }

  function KeyOf(c: Config, q: Question, generation: nat): Option<string> {
    match Resolve(c.hash, q.caller)
    case None => None
    case Some(fp) => KeyFor(c.hash, fp, Org(q.caller), q.connection, q.statement, q.maxRows, generation)
  }

  /** A derived key: the generation it folded in, and how many invalidations had happened by then. */
  datatype Derived = Derived(question: Question, generation: nat, at: nat, key: string)

  datatype Ending = Reading | Ended(truncated: bool) | Broken

  /** What a source has delivered to one execution. */
  datatype Source = Source(columns: seq<Column>, rows: seq<Row>, ending: Ending)

  datatype Execution =
    | Pending(derived: Derived)
    | Missed(derived: Derived)
    | Streaming(cacheable: Option<Derived>, source: Source, tee: Tee)
    | Finished(cacheable: Option<Derived>, source: Source, failed: bool, storedAt: Option<int>)
    | Replaying(derived: Derived, origin: nat, entry: Entry<Row>, hitAt: int, index: nat, ended: bool, closed: bool)

  /** `invalidated` and `origins` only record what happened: which connections were invalidated, in
      order, and which execution stored each key. No step reads them. */
  datatype State = State(
    now: int,
    order: seq<Entry<Row>>,
    generations: map<string, nat>,
    executions: map<nat, Execution>,
    invalidated: seq<string>,
    origins: map<string, nat>)

  datatype Step =
    | Tick(elapsed: nat)
    | Invalidate(connection: string)
    | Derive(id: nat, question: Question)
    | LookUp(id: nat)
    | Open(id: nat, columns: seq<Column>)
    | OpenUncached(id: nat, columns: seq<Column>)
    | ReadRow(id: nat, row: Row)
    | ReadEnd(id: nat, truncated: bool)
    | ReadFail(id: nat)
    | Close(id: nat, closeFailed: bool)
    | ReplayNext(id: nat)
    | ReplayClose(id: nat)

  function Generation(s: State, connection: string): nat {
    if connection in s.generations then s.generations[connection] else 0
  }

  function With(s: State, id: nat, e: Execution): State {
    s.(executions := s.executions[id := e])
  }

  function Init(): State {
    State(0, [], map[], map[], [], map[])
  }

  function Closed(c: Config, s: State, id: nat, e: Execution, closeFailed: bool): State
    requires e.Streaming?
  {
    var failed := e.source.ending.Broken? || closeFailed;
    var gone := With(s, id, Finished(e.cacheable, e.source, failed, None));
    if e.cacheable.None? || !Offers(e.tee, failed) then gone
    else
      var entry := Entry(e.cacheable.value.key, e.source.columns, e.tee.pending,
                         e.source.ending == Ended(true), e.tee.bytes, s.now + c.limits.ttl);
      var (order, taken) := Stored(s.order, entry, c.limits);
      if !taken then gone
      else With(s, id, Finished(e.cacheable, e.source, failed, Some(s.now)))
           .(order := order, origins := s.origins[entry.key := id])
  }

  /** One step; a step that is not possible changes nothing. */
  function Apply(c: Config, s: State, step: Step): State {
    match step
    case Tick(elapsed) => s.(now := s.now + elapsed)
    case Invalidate(connection) =>
      s.(generations := s.generations[connection := Generation(s, connection) + 1],
         invalidated := s.invalidated + [connection])
    case Derive(id, q) =>
      var key := KeyOf(c, q, Generation(s, q.connection));
      if id in s.executions || key.None? then s
      else With(s, id, Pending(Derived(q, Generation(s, q.connection), |s.invalidated|, key.value)))
    case LookUp(id) =>
      if id !in s.executions || !s.executions[id].Pending? then s
      else
        var k := s.executions[id].derived;
        var (order, found) := Looked(s.order, k.key, s.now);
        (match found
         case None => With(s, id, Missed(k))
         case Some(e) =>
           var origin := if e.key in s.origins then s.origins[e.key] else 0;
           With(s, id, Replaying(k, origin, e, s.now, 0, false, false)))
        .(order := order)
    case Open(id, columns) =>
      if id !in s.executions || !s.executions[id].Missed? then s
      else With(s, id, Streaming(Some(s.executions[id].derived), Source(columns, [], Reading), Opened(true)))
    case OpenUncached(id, columns) =>
      if id in s.executions then s
      else With(s, id, Streaming(None, Source(columns, [], Reading), Opened(false)))
    case ReadRow(id, row) =>
      if id !in s.executions || !s.executions[id].Streaming? || s.executions[id].source.ending != Reading then s
      else
        var e := s.executions[id];
        With(s, id, e.(source := e.source.(rows := e.source.rows + [row]),
                       tee := TeeRow(e.tee, row, c.limits.maxEntryBytes)))
    case ReadEnd(id, truncated) =>
      if id !in s.executions || !s.executions[id].Streaming? || s.executions[id].source.ending != Reading then s
      else
        var e := s.executions[id];
        With(s, id, e.(source := e.source.(ending := Ended(truncated)), tee := TeeEnd(e.tee, false)))
    case ReadFail(id) =>
      if id !in s.executions || !s.executions[id].Streaming? || s.executions[id].source.ending != Reading then s
      else
        var e := s.executions[id];
        With(s, id, e.(source := e.source.(ending := Broken), tee := TeeEnd(e.tee, true)))
    case Close(id, closeFailed) =>
      if id !in s.executions || !s.executions[id].Streaming? then s
      else Closed(c, s, id, s.executions[id], closeFailed)
    case ReplayNext(id) =>
      if id !in s.executions || !s.executions[id].Replaying? || s.executions[id].closed then s
      else
        var e := s.executions[id];
        if e.index < |e.entry.rows| then With(s, id, e.(index := e.index + 1)) else With(s, id, e.(ended := true))
    case ReplayClose(id) =>
      if id !in s.executions || !s.executions[id].Replaying? then s
      else With(s, id, s.executions[id].(closed := true))
  }

  function Run(c: Config, steps: seq<Step>): State {
    if steps == [] then Init() else Apply(c, Run(c, steps[..|steps| - 1]), steps[|steps| - 1])
  }

  // What every reachable state satisfies.

  function Count(log: seq<string>, connection: string): nat {
    if log == [] then 0
    else Count(log[..|log| - 1], connection) + if log[|log| - 1] == connection then 1 else 0
  }

  ghost predicate DerivedOk(c: Config, s: State, k: Derived) {
    && k.at <= |s.invalidated|
    && k.generation == Count(s.invalidated[..k.at], k.question.connection)
    && KeyOf(c, k.question, k.generation) == Some(k.key)
  }

  /** Execution r read its source to the end of an unbroken answer and stored exactly that answer. */
  ghost predicate Made(c: Config, s: State, r: nat, e: Entry<Row>) {
    && r in s.executions
    && var x := s.executions[r];
       && x.Finished? && !x.failed && x.cacheable.Some? && x.storedAt.Some?
       && x.cacheable.value.key == e.key
       && x.source.ending == Ended(e.truncated)
       && x.source.rows == e.rows && x.source.columns == e.columns
       && e.expires == x.storedAt.value + c.limits.ttl
       && x.storedAt.value <= s.now
  }

  ghost predicate ExecutionOk(c: Config, s: State, e: Execution) {
    match e
    case Pending(k) => DerivedOk(c, s, k)
    case Missed(k) => DerivedOk(c, s, k)
    case Streaming(k, source, tee) =>
      && (k.Some? ==> DerivedOk(c, s, k.value))
      && Follows(tee, source.rows, k.Some?, c.limits.maxEntryBytes)
      && (tee.exhausted <==> source.ending.Ended?)
    case Finished(k, _, _, _) => k.Some? ==> DerivedOk(c, s, k.value)
    case Replaying(k, origin, entry, hitAt, index, ended, _) =>
      && DerivedOk(c, s, k)
      && Made(c, s, origin, entry) && entry.key == k.key
      && s.executions[origin].storedAt.value <= hitAt <= s.now && hitAt <= entry.expires
      && index <= |entry.rows| && (ended ==> index == |entry.rows|)
  }

  ghost predicate CountersOk(s: State) {
    forall connection :: Generation(s, connection) == Count(s.invalidated, connection)
  }

  ghost predicate ExecutionsOk(c: Config, s: State) {
    forall id :: id in s.executions ==> ExecutionOk(c, s, s.executions[id])
  }

  /** Everything in the list was made by the execution on record for its key. */
  ghost predicate EntriesOk(c: Config, s: State) {
    forall e :: e in s.order ==> e.key in s.origins && Made(c, s, s.origins[e.key], e)
  }

  ghost predicate Inv(c: Config, s: State) {
    CountersOk(s) && ExecutionsOk(c, s) && EntriesOk(c, s)
  }

  /** State t goes on from s: time and the log only grow, and a finished execution stays as it was. */
  ghost predicate Later(s: State, t: State) {
    && s.now <= t.now
    && |s.invalidated| <= |t.invalidated| && s.invalidated == t.invalidated[..|s.invalidated|]
    && forall id :: id in s.executions && s.executions[id].Finished? ==>
         id in t.executions && t.executions[id] == s.executions[id]
  }

  lemma LaterKeepsOk(c: Config, s: State, t: State, e: Execution)
    requires Later(s, t) && ExecutionOk(c, s, e)
    ensures ExecutionOk(c, t, e)
  {
    forall k: Derived | DerivedOk(c, s, k) ensures DerivedOk(c, t, k) {
      assert t.invalidated[..k.at] == s.invalidated[..k.at];
    }
  }

  /** Changing one execution keeps the invariant when the new one is in order and the list only holds
      entries that were there. */
  lemma ChangeKeepsInv(c: Config, s: State, t: State, id: nat)
    requires Inv(c, s) && Later(s, t)
    requires t.generations == s.generations && t.invalidated == s.invalidated && t.origins == s.origins
    requires forall e :: e in t.order ==> e in s.order
    requires id in t.executions && t.executions == s.executions[id := t.executions[id]]
    requires ExecutionOk(c, t, t.executions[id])
    ensures Inv(c, t)
  {
    forall i | i in t.executions ensures ExecutionOk(c, t, t.executions[i]) {
      if i != id { LaterKeepsOk(c, s, t, s.executions[i]); }
    }
    forall connection ensures Generation(t, connection) == Count(t.invalidated, connection) {
      assert Generation(s, connection) == Count(s.invalidated, connection);
    }
  }

  lemma InvalidateKeepsInv(c: Config, s: State, connection: string)
    requires Inv(c, s)
    ensures Inv(c, Apply(c, s, Invalidate(connection)))
  {
    var t := Apply(c, s, Invalidate(connection));
    assert t.invalidated[..|s.invalidated|] == s.invalidated;
    assert Later(s, t);
    forall id | id in t.executions ensures ExecutionOk(c, t, t.executions[id]) {
      LaterKeepsOk(c, s, t, s.executions[id]);
    }
    forall x ensures Generation(t, x) == Count(t.invalidated, x) {
      assert Generation(s, x) == Count(s.invalidated, x);
    }
  }

  lemma DeriveKeepsInv(c: Config, s: State, id: nat, q: Question)
    requires Inv(c, s)
    ensures Inv(c, Apply(c, s, Derive(id, q)))
  {
    var t := Apply(c, s, Derive(id, q));
    if t != s {
      assert s.invalidated[..|s.invalidated|] == s.invalidated;
      assert Generation(s, q.connection) == Count(s.invalidated, q.connection);
      ChangeKeepsInv(c, s, t, id);
    }
  }

  lemma LookUpKeepsInv(c: Config, s: State, id: nat)
    requires Inv(c, s)
    requires id in s.executions && s.executions[id].Pending?
    ensures Inv(c, Apply(c, s, LookUp(id)))
  {
    hide Count, KeyOf, Follows;
    var t := Apply(c, s, LookUp(id));
    var k := s.executions[id].derived;
    var (order, found) := Looked(s.order, k.key, s.now);
    assert s.invalidated == s.invalidated[..|s.invalidated|];
    assert Later(s, t);
    LaterKeepsOk(c, s, t, s.executions[id]);
    if found.Some? {
      assert found.value in s.order;
      assert Made(c, s, s.origins[found.value.key], found.value);
    }
    ChangeKeepsInv(c, s, t, id);
  }

  /** What is offered to the cache is the whole of an ended answer. */
  lemma OfferIsWhole(c: Config, s: State, e: Execution, closeFailed: bool)
    requires e.Streaming? && ExecutionOk(c, s, e) && Offers(e.tee, e.source.ending.Broken? || closeFailed)
    ensures e.tee.pending == e.source.rows && e.source.ending.Ended? && !closeFailed
  {
  }

  lemma ClosedIsLater(c: Config, s: State, id: nat, closeFailed: bool)
    requires id in s.executions && s.executions[id].Streaming?
    ensures Later(s, Closed(c, s, id, s.executions[id], closeFailed))
  {
    assert s.invalidated == s.invalidated[..|s.invalidated|];
  }

  lemma LaterKeepsEntries(c: Config, s: State, t: State)
    requires EntriesOk(c, s) && Later(s, t) && t.origins == s.origins
    requires forall e :: e in t.order ==> e in s.order
    ensures EntriesOk(c, t)
  {
  }

  /** The list after a close holds old entries, and possibly the one this execution made. */
  lemma StoreKeepsEntries(c: Config, s: State, t: State, id: nat, entry: Entry<Row>)
    requires EntriesOk(c, s) && Later(s, t) && Made(c, t, id, entry)
    requires t.origins == s.origins[entry.key := id]
    requires t.order == Stored(s.order, entry, c.limits).0 && Stored(s.order, entry, c.limits).1
    ensures EntriesOk(c, t)
  {
    StoreAddsOnlyTheEntry(s.order, entry, c.limits);
    forall d | d in t.order ensures d.key in t.origins && Made(c, t, t.origins[d.key], d) {
      if d != entry {
        assert d in s.order && d.key != entry.key;
        MadeLater(c, s, t, s.origins[d.key], d);
      }
    }
  }

  lemma CloseKeepsEntries(c: Config, s: State, id: nat, closeFailed: bool)
    requires EntriesOk(c, s)
    requires id in s.executions && s.executions[id].Streaming? && ExecutionOk(c, s, s.executions[id])
    ensures EntriesOk(c, Closed(c, s, id, s.executions[id], closeFailed))
  {
    hide EntriesOk, ExecutionOk, Later;
    var e := s.executions[id];
    var t := Closed(c, s, id, e, closeFailed);
    ClosedIsLater(c, s, id, closeFailed);
    if t.order != s.order || t.origins != s.origins {
      OfferIsWhole(c, s, e, closeFailed);
      var entry := Entry(e.cacheable.value.key, e.source.columns, e.tee.pending,
                         e.source.ending == Ended(true), e.tee.bytes, s.now + c.limits.ttl);
      StoreKeepsEntries(c, s, t, id, entry);
    } else {
      LaterKeepsEntries(c, s, t);
    }
  }

  lemma MadeLater(c: Config, s: State, t: State, r: nat, e: Entry<Row>)
    requires Later(s, t) && Made(c, s, r, e)
    ensures Made(c, t, r, e)
  {
  }

  lemma CloseKeepsInv(c: Config, s: State, id: nat, closeFailed: bool)
    requires Inv(c, s)
    requires id in s.executions && s.executions[id].Streaming?
    ensures Inv(c, Apply(c, s, Close(id, closeFailed)))
  {
    hide EntriesOk, Later, Count;
    var t := Closed(c, s, id, s.executions[id], closeFailed);
    CloseKeepsEntries(c, s, id, closeFailed);
    ClosedIsLater(c, s, id, closeFailed);
    forall i | i in t.executions ensures ExecutionOk(c, t, t.executions[i]) {
      LaterKeepsOk(c, s, t, s.executions[i]);
    }
    forall connection ensures Generation(t, connection) == Count(t.invalidated, connection) {
      assert Generation(s, connection) == Count(s.invalidated, connection);
    }
  }

  lemma ApplyKeepsInv(c: Config, s: State, step: Step)
    requires Inv(c, s)
    ensures Inv(c, Apply(c, s, step))
  {
    var t := Apply(c, s, step);
    assert s.invalidated == s.invalidated[..|s.invalidated|];
    match step
    case Tick(_) =>
      assert Later(s, t);
      forall id | id in t.executions ensures ExecutionOk(c, t, t.executions[id]) {
        LaterKeepsOk(c, s, t, s.executions[id]);
      }
      forall x ensures Generation(t, x) == Count(t.invalidated, x) {
        assert Generation(s, x) == Count(s.invalidated, x);
      }
    case Invalidate(connection) => InvalidateKeepsInv(c, s, connection);
    case Derive(id, q) => DeriveKeepsInv(c, s, id, q);
    case LookUp(id) => if t != s { LookUpKeepsInv(c, s, id); }
    case Close(id, closeFailed) => if t != s { CloseKeepsInv(c, s, id, closeFailed); }
    case Open(id, columns) => if t != s { SimpleStepKeepsInv(c, s, step, id); }
    case OpenUncached(id, columns) => if t != s { SimpleStepKeepsInv(c, s, step, id); }
    case ReadRow(id, row) => if t != s { SimpleStepKeepsInv(c, s, step, id); }
    case ReadEnd(id, truncated) => if t != s { SimpleStepKeepsInv(c, s, step, id); }
    case ReadFail(id) => if t != s { SimpleStepKeepsInv(c, s, step, id); }
    case ReplayNext(id) => if t != s { SimpleStepKeepsInv(c, s, step, id); }
    case ReplayClose(id) => if t != s { SimpleStepKeepsInv(c, s, step, id); }
  }

  lemma OpenedFollows(maxEntryBytes: nat)
    ensures Follows(Opened(true), [], true, maxEntryBytes) && Follows(Opened(false), [], false, maxEntryBytes)
  {
  }

  lemma EndFollows(t: Tee, delivered: seq<Row>, failed: bool, cacheable: bool, maxEntryBytes: nat)
    requires Follows(t, delivered, cacheable, maxEntryBytes)
    ensures Follows(TeeEnd(t, failed), delivered, cacheable, maxEntryBytes)
  {
  }

  /** The steps that touch one execution and nothing shared. */
  lemma SimpleStepKeepsInv(c: Config, s: State, step: Step, id: nat)
    requires Inv(c, s) && Apply(c, s, step) != s
    requires (step.Open? || step.OpenUncached? || step.ReadRow? || step.ReadEnd? || step.ReadFail?
              || step.ReplayNext? || step.ReplayClose?) && step.id == id
    ensures Inv(c, Apply(c, s, step))
  {
    var t := Apply(c, s, step);
    hide Count, KeyOf, Made, Follows, EntriesOk, CountersOk, Estimate, EstimateAll;
    assert s.invalidated == s.invalidated[..|s.invalidated|];
    assert Later(s, t);
    if id in s.executions {
      LaterKeepsOk(c, s, t, s.executions[id]);
    }
    if step.OpenUncached? || step.Open? {
      OpenedFollows(c.limits.maxEntryBytes);
    }
    if step.ReadEnd? || step.ReadFail? {
      var e := s.executions[id];
      EndFollows(e.tee, e.source.rows, step.ReadFail?, e.cacheable.Some?, c.limits.maxEntryBytes);
    }
    if step.ReadRow? {
      var e := s.executions[id];
      RowFollows(e.tee, e.source.rows, step.row, e.cacheable.Some?, c.limits.maxEntryBytes);
    }
    ChangeKeepsInv(c, s, t, id);
  }

  lemma {:induction false} RunKeepsInv(c: Config, steps: seq<Step>)
    ensures Inv(c, Run(c, steps))
    decreases |steps|
  {
    if steps != [] {
      RunKeepsInv(c, steps[..|steps| - 1]);
      ApplyKeepsInv(c, Run(c, steps[..|steps| - 1]), steps[|steps| - 1]);
    }
  }

  // The theorem.

  /** Nothing invalidated the connection between the two moments, whichever came first. */
  ghost predicate NoneBetween(log: seq<string>, connection: string, a: nat, b: nat)
    requires a <= |log| && b <= |log|
  {
    forall i :: (a <= i < b || b <= i < a) ==> log[i] != connection
  }

  lemma {:induction false} CountGrows(log: seq<string>, connection: string, a: nat, b: nat)
    requires a <= b <= |log|
    ensures Count(log[..a], connection) <= Count(log[..b], connection)
    ensures Count(log[..a], connection) == Count(log[..b], connection) ==>
              forall i :: a <= i < b ==> log[i] != connection
    decreases b - a
  {
    if a < b {
      CountGrows(log, connection, a, b - 1);
      assert log[..b][..b - 1] == log[..b - 1];
    }
  }

  ghost predicate SameQuestion(p: Question, q: Question) {
    && SameStanding(p.caller, q.caller)
    && p.connection == q.connection && p.maxRows == q.maxRows && p.statement == q.statement
  }

  /** Execution r is where the replayed answer came from: the same question asked with the same
      standing, read to its end without an error, its key derived with no invalidation of the
      connection between it and the hit's, and stored at most a time to live before the hit. */
  ghost predicate AnsweredBy(c: Config, s: State, hit: Execution, r: nat)
    requires hit.Replaying?
  {
    && r in s.executions
    && var run := s.executions[r];
       && run.Finished? && !run.failed && run.cacheable.Some? && run.storedAt.Some?
       && SameQuestion(run.cacheable.value.question, hit.derived.question)
       && run.source.ending == Ended(hit.entry.truncated)
       && run.source.columns == hit.entry.columns
       && run.source.rows == hit.entry.rows
       && run.cacheable.value.at <= |s.invalidated| && hit.derived.at <= |s.invalidated|
       && NoneBetween(s.invalidated, hit.derived.question.connection, run.cacheable.value.at, hit.derived.at)
       && run.storedAt.value <= hit.hitAt <= run.storedAt.value + c.limits.ttl
  }

  /** What a hit has handed its reader so far. */
  function Delivered(hit: Execution): seq<Row>
    requires hit.Replaying? && hit.index <= |hit.entry.rows|
  {
    hit.entry.rows[..hit.index]
  }

  lemma SameKeySameQuestion(c: Config, s: State, a: Derived, b: Derived)
    requires IsHash(c.hash) && DerivedOk(c, s, a) && DerivedOk(c, s, b) && a.key == b.key
    ensures SameQuestion(a.question, b.question) && a.generation == b.generation
  {
    var fa, fb := Resolve(c.hash, a.question.caller).value, Resolve(c.hash, b.question.caller).value;
    KeyInjective(c.hash,
                 fa, Org(a.question.caller), a.question.connection, a.question.statement,
                 a.question.maxRows, a.generation,
                 fb, Org(b.question.caller), b.question.connection, b.question.statement,
                 b.question.maxRows, b.generation);
    FingerprintIsStanding(c.hash, a.question.caller, b.question.caller);
  }

  /** The cache agrees with the source it speeds up. In every reachable state every hit is serving one
      earlier complete run of its own question: what it has delivered is a prefix of that run's rows,
      all of them once it has ended, under that run's columns and truncated flag. */
  lemma CacheIsTransparent(c: Config, steps: seq<Step>, id: nat)
    requires IsHash(c.hash)
    requires id in Run(c, steps).executions && Run(c, steps).executions[id].Replaying?
    ensures var s := Run(c, steps);
            var hit := s.executions[id];
            && AnsweredBy(c, s, hit, hit.origin)
            && hit.index <= |hit.entry.rows|
            && Delivered(hit) <= s.executions[hit.origin].source.rows
            && (hit.ended ==> Delivered(hit) == s.executions[hit.origin].source.rows)
  {
    var s := Run(c, steps);
    RunKeepsInv(c, steps);
    var hit := s.executions[id];
    assert ExecutionOk(c, s, hit);
    var run := s.executions[hit.origin];
    assert ExecutionOk(c, s, run);
    var a, b := run.cacheable.value, hit.derived;
    SameKeySameQuestion(c, s, a, b);
    var connection := b.question.connection;
    if a.at <= b.at {
      CountGrows(s.invalidated, connection, a.at, b.at);
    } else {
      CountGrows(s.invalidated, connection, b.at, a.at);
    }
    assert hit.entry.rows[..|hit.entry.rows|] == hit.entry.rows;
  }

  // And it does serve.

  /** A lookup is served exactly when an unexpired entry of its key is held, and then by that entry. */
  lemma ServedExactlyWhenHeld(c: Config, s: State, id: nat)
    requires Inv(c, s) && id in s.executions && s.executions[id].Pending?
    ensures var k, t := s.executions[id].derived, Apply(c, s, LookUp(id));
            && id in t.executions
            && (t.executions[id].Replaying? <==> exists e :: e in s.order && e.key == k.key && s.now <= e.expires)
            && (t.executions[id].Replaying? ==>
                  && t.executions[id].entry in s.order && t.executions[id].entry.key == k.key
                  && k.key in s.origins && t.executions[id].origin == s.origins[k.key] && t.executions[id].index == 0)
            && (!t.executions[id].Replaying? ==> t.executions[id] == Missed(k))
  {
    hide Count, KeyOf, Follows, ExecutionOk;
    var k := s.executions[id].derived;
    var found := Looked(s.order, k.key, s.now).1;
    if found.Some? {
      assert found.value.key in s.origins;
    }
  }

  /** Execution id has read its source to the end of a whole answer that may be kept and fits both limits,
      and its connection has not been invalidated since its key was derived. */
  ghost predicate WholeAnswer(c: Config, s: State, id: nat) {
    && id in s.executions && s.executions[id].Streaming? && s.executions[id].cacheable.Some?
    && var Streaming(k, source, _) := s.executions[id];
       && source.ending.Ended?
       && EstimateAll(source.rows) <= c.limits.maxEntryBytes && EstimateAll(source.rows) <= c.limits.maxBytes
       && k.value.generation == Generation(s, k.value.question.connection)
  }

  /** What is kept of an answer, from now. */
  function Kept(c: Config, k: Derived, source: Source, now: int): Entry<Row> {
    Entry(k.key, source.columns, source.rows, source.ending == Ended(true), EstimateAll(source.rows),
          now + c.limits.ttl)
  }

  /** Closing it puts its answer in front, under its key and with a time to live from now. */
  lemma ClosingStores(c: Config, s: State, id: nat)
    requires WholeAnswer(c, s, id) && ExecutionOk(c, s, s.executions[id])
    ensures var t, e := Apply(c, s, Close(id, false)), s.executions[id];
            && t.order != [] && t.order[0] == Kept(c, e.cacheable.value, e.source, s.now)
            && e.cacheable.value.key in t.origins && t.origins[e.cacheable.value.key] == id
            && t.now == s.now && t.generations == s.generations
            && t.executions == s.executions[id := Finished(e.cacheable, e.source, false, Some(s.now))]
  {
    hide Stored, KeyOf, Count, EstimateAll;
    var e := s.executions[id];
    OfferIsWhole(c, s, e, false);
    StoredInFront(s.order, Kept(c, e.cacheable.value, e.source, s.now), c.limits);
  }

  /** So over every run a whole answer that fits is in front of the cache once its stream is closed. */
  lemma WholeAnswersAreStored(c: Config, steps: seq<Step>, id: nat)
    requires WholeAnswer(c, Run(c, steps), id)
    ensures var s := Run(c, steps);
            var t, e := Run(c, steps + [Close(id, false)]), s.executions[id];
            t.order != [] && t.order[0] == Kept(c, e.cacheable.value, e.source, s.now)
  {
    RunKeepsInv(c, steps);
    var more := steps + [Close(id, false)];
    assert more[..|more| - 1] == steps;
    assert ExecutionOk(c, Run(c, steps), Run(c, steps).executions[id]);
    ClosingStores(c, Run(c, steps), id);
  }

  /** A question has a key, and so may be cached, exactly when its caller's standing is known. */
  lemma KeyedExactlyWhen(c: Config, q: Question, generation: nat)
    requires IsHash(c.hash)
    ensures KeyOf(c, q, generation).Some? <==> q.caller.System? || (q.caller.Actor? && q.caller.standing.Some?)
  {
    if Resolve(c.hash, q.caller).Some? {
      FingerprintIsStanding(c.hash, q.caller, q.caller);
    }
  }

  lemma SameQuestionSameKey(c: Config, p: Question, q: Question, generation: nat)
    requires IsHash(c.hash) && SameQuestion(p, q) && KeyOf(c, p, generation).Some?
    ensures KeyOf(c, q, generation) == KeyOf(c, p, generation)
  {
    FingerprintIsStanding(c.hash, p.caller, q.caller);
  }

  lemma SameConnection(p: Question, q: Question)
    requires SameQuestion(p, q)
    ensures p.connection == q.connection
  {
  }

  /** Any further steps, of anybody. */
  function After(c: Config, s: State, steps: seq<Step>): State {
    if steps == [] then s else Apply(c, After(c, s, steps[..|steps| - 1]), steps[|steps| - 1])
  }

  lemma {:induction false} AfterKeepsInv(c: Config, s: State, steps: seq<Step>)
    requires Inv(c, s)
    ensures Inv(c, After(c, s, steps))
    decreases |steps|
  {
    if steps != [] {
      hide Inv, Apply;
      AfterKeepsInv(c, s, steps[..|steps| - 1]);
      ApplyKeepsInv(c, After(c, s, steps[..|steps| - 1]), steps[|steps| - 1]);
    }
  }

  lemma StepKeepsFinished(c: Config, s: State, step: Step, id: nat)
    requires id in s.executions
    ensures var t := Apply(c, s, step);
            && id in t.executions
            && (s.executions[id].Finished? ==> t.executions[id] == s.executions[id])
            && (s.executions[id].Pending? && step != LookUp(id) ==> t.executions[id] == s.executions[id])
  {
    hide KeyOf, Stored, Looked, Offers, TeeRow, TeeEnd;
  }

  /** What is finished stays as it is, and so does a question whose key is not looked up. */
  lemma {:induction false} FinishedStays(c: Config, s: State, steps: seq<Step>, id: nat)
    requires id in s.executions
    requires s.executions[id].Finished? || (s.executions[id].Pending? && LookUp(id) !in steps)
    ensures var t := After(c, s, steps); id in t.executions && t.executions[id] == s.executions[id]
    decreases |steps|
  {
    if steps != [] {
      hide Apply;
      var init, last := steps[..|steps| - 1], steps[|steps| - 1];
      assert last in steps;
      FinishedStays(c, s, init, id);
      StepKeepsFinished(c, After(c, s, init), last, id);
    }
  }

  lemma StepKeepsGeneration(c: Config, s: State, step: Step, connection: string)
    requires step != Invalidate(connection)
    ensures Generation(Apply(c, s, step), connection) == Generation(s, connection)
  {
    hide KeyOf, Stored, Looked, Offers, TeeRow, TeeEnd;
  }

  lemma {:induction false} GenerationStays(c: Config, s: State, steps: seq<Step>, connection: string)
    requires Invalidate(connection) !in steps
    ensures Generation(After(c, s, steps), connection) == Generation(s, connection)
    decreases |steps|
  {
    if steps != [] {
      hide Apply;
      var init, last := steps[..|steps| - 1], steps[|steps| - 1];
      assert last in steps;
      GenerationStays(c, s, init, connection);
      StepKeepsGeneration(c, After(c, s, init), last, connection);
    }
  }

  /** Closed; anything; its question asked again, and the key derived; anything. */
  function AskedAgain(
    c: Config, s: State, id: nat, between: seq<Step>, again: nat, q: Question, more: seq<Step>): State
  {
    After(c, Apply(c, After(c, Apply(c, s, Close(id, false)), between), Derive(again, q)), more)
  }

  lemma DerivesTheKey(c: Config, s: State, k: Derived, again: nat, q: Question)
    requires IsHash(c.hash) && DerivedOk(c, s, k) && SameQuestion(k.question, q) && again !in s.executions
    requires k.generation == Generation(s, k.question.connection)
    ensures var t := Apply(c, s, Derive(again, q));
            again in t.executions && t.executions[again].Pending? && t.executions[again].derived.key == k.key
  {
    SameQuestionSameKey(c, k.question, q, k.generation);
    SameConnection(k.question, q);
    hide KeyOf, SameQuestion, IsHash;
  }

  lemma ClosedIsFinished(c: Config, s: State, id: nat)
    requires Inv(c, s) && WholeAnswer(c, s, id)
    ensures var t, e := Apply(c, s, Close(id, false)), s.executions[id];
            && Inv(c, t)
            && id in t.executions && t.executions[id] == Finished(e.cacheable, e.source, false, Some(s.now))
            && Generation(t, e.cacheable.value.question.connection) == e.cacheable.value.generation
  {
    hide Count, Follows, KeyOf;
    ApplyKeepsInv(c, s, Close(id, false));
    assert ExecutionOk(c, s, s.executions[id]);
    ClosingStores(c, s, id);
    hide Inv, Closed, ExecutionOk;
  }

  lemma AskedHasTheKey(c: Config, s: State, id: nat, between: seq<Step>, again: nat, q: Question, more: seq<Step>)
    requires IsHash(c.hash) && Inv(c, s) && WholeAnswer(c, s, id)
    requires SameQuestion(s.executions[id].cacheable.value.question, q)
    requires Invalidate(q.connection) !in between && LookUp(again) !in more
    requires again !in After(c, Apply(c, s, Close(id, false)), between).executions
    ensures var u, e := AskedAgain(c, s, id, between, again, q, more), s.executions[id];
            && Inv(c, u)
            && again in u.executions && u.executions[again].Pending?
            && u.executions[again].derived.key == e.cacheable.value.key
            && id in u.executions && u.executions[id] == Finished(e.cacheable, e.source, false, Some(s.now))
  {
    hide Apply, After, Generation, KeyOf, Count, SameQuestion, IsHash, EntriesOk, CountersOk;
    var k := s.executions[id].cacheable.value;
    ClosedIsFinished(c, s, id);
    SameConnection(k.question, q);
    var closed := Apply(c, s, Close(id, false));
    hide WholeAnswer;
    var t := After(c, closed, between);
    AfterKeepsInv(c, closed, between);
    FinishedStays(c, closed, between, id);
    GenerationStays(c, closed, between, q.connection);
    assert ExecutionOk(c, t, t.executions[id]);
    assert DerivedOk(c, t, k);
    hide Inv, ExecutionOk, DerivedOk;
    DerivesTheKey(c, t, k, again, q);
    var asked := Apply(c, t, Derive(again, q));
    StepKeepsFinished(c, t, Derive(again, q), id);
    ApplyKeepsInv(c, t, Derive(again, q));
    AfterKeepsInv(c, asked, more);
    FinishedStays(c, asked, more, id);
    FinishedStays(c, asked, more, again);
  }

  ghost predicate Held(s: State, key: string) {
    exists e :: e in s.order && e.key == key && s.now <= e.expires
  }

  /** A question asked again is served from the cache exactly as long as its answer is held and has not
      expired, whatever anybody does between, invalidating its connection apart: from the first row, all of
      the rows, without the source. (If another execution has stored the answer to the same question since,
      it is from that one.) */
  lemma AskedAgainIsServed(c: Config, s: State, id: nat, between: seq<Step>, again: nat, q: Question, more: seq<Step>)
    requires IsHash(c.hash) && Inv(c, s) && WholeAnswer(c, s, id)
    requires SameQuestion(s.executions[id].cacheable.value.question, q)
    requires Invalidate(q.connection) !in between && LookUp(again) !in more
    requires again !in After(c, Apply(c, s, Close(id, false)), between).executions
    ensures var u, key := AskedAgain(c, s, id, between, again, q, more), s.executions[id].cacheable.value.key;
            var t := Apply(c, u, LookUp(again));
            && again in t.executions
            && (t.executions[again].Replaying? <==> Held(u, key))
            && (Held(u, key) ==> key in u.origins && t.executions[again].origin == u.origins[key])
            && (Held(u, key) && u.origins[key] == id ==> ReplaysAll(t.executions[again], s.executions[id].source))
  {
    hide Inv, AskedAgain, Apply, After, WholeAnswer, KeyOf, SameQuestion;
    AskedHasTheKey(c, s, id, between, again, q, more);
    var u := AskedAgain(c, s, id, between, again, q, more);
    ServedExactlyWhenHeld(c, u, again);
    ReplayIsOfOrigin(c, u, again);
  }

  /** The whole of an answer is before its reader. */
  predicate ReplaysAll(e: Execution, source: Source) {
    && e.Replaying? && e.index == 0 && !e.ended && !e.closed
    && e.entry.rows == source.rows && e.entry.columns == source.columns
    && source.ending == Ended(e.entry.truncated)
  }

  /** And when only time passes between, it is held for its time to live. */
  lemma AskedInTimeIsServed(c: Config, s: State, id: nat, wait: nat, again: nat, q: Question)
    requires IsHash(c.hash) && Inv(c, s) && WholeAnswer(c, s, id) && again !in s.executions
    requires wait <= c.limits.ttl && SameQuestion(s.executions[id].cacheable.value.question, q)
    ensures var t := Apply(c, AskedAgain(c, s, id, [Tick(wait)], again, q, []), LookUp(again));
            && again in t.executions && ReplaysAll(t.executions[again], s.executions[id].source)
            && t.executions[again].origin == id
  {
    hide Inv, WholeAnswer, KeyOf, SameQuestion, AskedAgain, Apply, After;
    HeldInTime(c, s, id, wait, again, q);
    AskedAgainIsServed(c, s, id, [Tick(wait)], again, q, []);
  }

  lemma HeldInTime(c: Config, s: State, id: nat, wait: nat, again: nat, q: Question)
    requires Inv(c, s) && WholeAnswer(c, s, id) && again !in s.executions && wait <= c.limits.ttl
    ensures var u, key := AskedAgain(c, s, id, [Tick(wait)], again, q, []), s.executions[id].cacheable.value.key;
            && again !in After(c, Apply(c, s, Close(id, false)), [Tick(wait)]).executions
            && Held(u, key) && key in u.origins && u.origins[key] == id
  {
    hide KeyOf, Closed, Offers;
    assert ExecutionOk(c, s, s.executions[id]);
    ClosingStores(c, s, id);
    var closed := Apply(c, s, Close(id, false));
    hide Inv, ExecutionOk;
    AfterTick(c, closed, wait);
    var waited := After(c, closed, [Tick(wait)]);
    DerivingKeepsHeld(c, waited, again, q);
    assert closed.order[0] in closed.order;
  }

  lemma AfterTick(c: Config, s: State, wait: nat)
    ensures After(c, s, [Tick(wait)]) == s.(now := s.now + wait)
  {
    var steps := [Tick(wait)];
    assert steps[..|steps| - 1] == [];
    assert After(c, s, steps) == Apply(c, After(c, s, []), Tick(wait));
  }

  lemma DerivingKeepsHeld(c: Config, s: State, again: nat, q: Question)
    ensures var t := Apply(c, s, Derive(again, q)); t.order == s.order && t.now == s.now && t.origins == s.origins
  {
    hide KeyOf;
  }

  lemma ReplayIsOfOrigin(c: Config, s: State, id: nat)
    requires Inv(c, s) && id in s.executions && s.executions[id].Pending?
    ensures var t := Apply(c, s, LookUp(id));
            t.executions[id].Replaying? ==>
              var e := t.executions[id];
              && e.origin in s.executions && s.executions[e.origin].Finished?
              && e.entry.rows == s.executions[e.origin].source.rows
              && e.entry.columns == s.executions[e.origin].source.columns
              && s.executions[e.origin].source.ending == Ended(e.entry.truncated) && !e.ended && !e.closed
  {
    LookupKeepsHeld(s.order, s.executions[id].derived.key, s.now);
  }

  lemma LookupKeepsHeld(order: seq<Entry<Row>>, key: string, now: int)
    ensures Looked(order, key, now).1.Some? ==> Looked(order, key, now).1.value in order
  {
  }

  // From the first asking to the second answer.

  function Reads(id: nat, rows: seq<Row>): seq<Step> {
    if rows == [] then [] else Reads(id, rows[..|rows| - 1]) + [ReadRow(id, rows[|rows| - 1])]
  }

  lemma AfterMore(c: Config, s: State, steps: seq<Step>, step: Step)
    ensures After(c, s, steps + [step]) == Apply(c, After(c, s, steps), step)
  {
    assert (steps + [step])[..|steps|] == steps;
  }

  lemma ReadsOne(c: Config, s: State, id: nat, row: Row)
    requires id in s.executions && s.executions[id].Streaming? && s.executions[id].source.ending == Reading
    ensures var t, e := Apply(c, s, ReadRow(id, row)), s.executions[id];
            && t == s.(executions := t.executions) && t.executions.Keys == s.executions.Keys
            && t.executions[id].Streaming? && t.executions[id].cacheable == e.cacheable
            && t.executions[id].source == e.source.(rows := e.source.rows + [row])
  {
  }

  lemma {:induction false} ReadsAll(c: Config, s: State, id: nat, rows: seq<Row>)
    requires id in s.executions && s.executions[id].Streaming?
    requires s.executions[id].source.rows == [] && s.executions[id].source.ending == Reading
    ensures var t, e := After(c, s, Reads(id, rows)), s.executions[id];
            && t == s.(executions := t.executions) && t.executions.Keys == s.executions.Keys
            && t.executions[id].Streaming? && t.executions[id].cacheable == e.cacheable
            && t.executions[id].source == e.source.(rows := rows)
    decreases |rows|
  {
    if rows != [] {
      hide Apply;
      var n := |rows| - 1;
      ReadsAll(c, s, id, rows[..n]);
      AfterMore(c, s, Reads(id, rows[..n]), ReadRow(id, rows[n]));
      ReadsOne(c, After(c, s, Reads(id, rows[..n])), id, rows[n]);
      assert rows[..n] + [rows[n]] == rows;
    }
  }

  /** A question asked, missed, opened and read to the end of its answer. */
  function Answered(
    c: Config, s: State, id: nat, q: Question, columns: seq<Column>, rows: seq<Row>, truncated: bool): State
  {
    var begun := Apply(c, Apply(c, Apply(c, s, Derive(id, q)), LookUp(id)), Open(id, columns));
    Apply(c, After(c, begun, Reads(id, rows)), ReadEnd(id, truncated))
  }

  lemma MissOpens(c: Config, s: State, id: nat, q: Question, columns: seq<Column>)
    requires Inv(c, s) && id !in s.executions
    requires var key := KeyOf(c, q, Generation(s, q.connection)); key.Some? && !Held(s, key.value)
    ensures var t := Apply(c, Apply(c, Apply(c, s, Derive(id, q)), LookUp(id)), Open(id, columns));
            && t.now == s.now && t.generations == s.generations && t.executions.Keys == s.executions.Keys + {id}
            && t.executions[id].Streaming? && t.executions[id].source == Source(columns, [], Reading)
            && t.executions[id].cacheable.Some? && t.executions[id].cacheable.value.question == q
            && t.executions[id].cacheable.value.generation == Generation(s, q.connection)
  {
    hide KeyOf, Looked, Inv;
    var asked := Apply(c, s, Derive(id, q));
    ApplyKeepsInv(c, s, Derive(id, q));
    DerivingKeepsHeld(c, s, id, q);
    ServedExactlyWhenHeld(c, asked, id);
  }

  lemma AnsweredIsWhole(
    c: Config, s: State, id: nat, q: Question, columns: seq<Column>, rows: seq<Row>, truncated: bool)
    requires Inv(c, s) && id !in s.executions
    requires var key := KeyOf(c, q, Generation(s, q.connection)); key.Some? && !Held(s, key.value)
    requires EstimateAll(rows) <= c.limits.maxEntryBytes && EstimateAll(rows) <= c.limits.maxBytes
    ensures var t := Answered(c, s, id, q, columns, rows, truncated);
            && Inv(c, t) && WholeAnswer(c, t, id) && t.executions.Keys == s.executions.Keys + {id}
            && t.executions[id].Streaming? && t.executions[id].cacheable.Some?
            && t.executions[id].cacheable.value.question == q
            && t.executions[id].source == Source(columns, rows, Ended(truncated))
  {
    hide KeyOf, Inv, Held, EstimateAll, Looked, Apply, WholeAnswer, After, Reads;
    MissOpens(c, s, id, q, columns);
    var asked := Apply(c, s, Derive(id, q));
    var looked := Apply(c, asked, LookUp(id));
    var begun := Apply(c, looked, Open(id, columns));
    ReadsAll(c, begun, id, rows);
    EndsWhole(c, After(c, begun, Reads(id, rows)), id, truncated);
    ApplyKeepsInv(c, s, Derive(id, q));
    ApplyKeepsInv(c, asked, LookUp(id));
    ApplyKeepsInv(c, looked, Open(id, columns));
    AfterKeepsInv(c, begun, Reads(id, rows));
    ApplyKeepsInv(c, After(c, begun, Reads(id, rows)), ReadEnd(id, truncated));
  }

  lemma EndsWhole(c: Config, s: State, id: nat, truncated: bool)
    requires id in s.executions && s.executions[id].Streaming? && s.executions[id].source.ending == Reading
    requires s.executions[id].cacheable.Some?
    requires var Streaming(k, source, _) := s.executions[id];
             && k.value.generation == Generation(s, k.value.question.connection)
             && EstimateAll(source.rows) <= c.limits.maxEntryBytes && EstimateAll(source.rows) <= c.limits.maxBytes
    ensures var t, e := Apply(c, s, ReadEnd(id, truncated)), s.executions[id];
            && t.executions.Keys == s.executions.Keys && t.executions[id].Streaming?
            && t.executions[id].cacheable == e.cacheable && WholeAnswer(c, t, id)
            && t.executions[id].source == e.source.(ending := Ended(truncated))
  {
    hide EstimateAll;
  }

  function Replays(id: nat, n: nat): seq<Step> {
    if n == 0 then [] else Replays(id, n - 1) + [ReplayNext(id)]
  }

  lemma ReplaysOne(c: Config, s: State, id: nat)
    requires id in s.executions && s.executions[id].Replaying? && !s.executions[id].closed
    ensures var t, e := Apply(c, s, ReplayNext(id)), s.executions[id];
            && id in t.executions
            && t.executions[id] == if e.index < |e.entry.rows| then e.(index := e.index + 1) else e.(ended := true)
  {
  }

  /** A replay that has been asked for n rows. */
  function Replayed(e: Execution, n: nat): Execution
    requires e.Replaying?
    ensures Replayed(e, n).Replaying? && Replayed(e, n).entry == e.entry && Replayed(e, n).closed == e.closed
  {
    e.(index := Min(n, |e.entry.rows|), ended := n > |e.entry.rows|)
  }

  lemma ReplayedStart(e: Execution)
    requires e.Replaying? && e.index == 0 && !e.ended
    ensures Replayed(e, 0) == e
  {
  }

  lemma ReplayedNext(e: Execution, n: nat)
    requires e.Replaying? && n <= |e.entry.rows|
    ensures var r := Replayed(e, n);
            Replayed(e, n + 1) == if r.index < |r.entry.rows| then r.(index := r.index + 1) else r.(ended := true)
  {
  }

  /** A replay hands out its rows one by one, and ends after the last. */
  lemma {:induction false} ReplaysRows(c: Config, s: State, id: nat, n: nat)
    requires id in s.executions && s.executions[id].Replaying? && !s.executions[id].closed
    requires s.executions[id].index == 0 && !s.executions[id].ended && n <= |s.executions[id].entry.rows| + 1
    ensures var t := After(c, s, Replays(id, n));
            id in t.executions && t.executions[id] == Replayed(s.executions[id], n)
  {
    hide Apply, Replayed;
    ReplayedStart(s.executions[id]);
    if n > 0 {
      hide After;
      ReplayedNext(s.executions[id], n - 1);
      ReplaysRows(c, s, id, n - 1);
      AfterMore(c, s, Replays(id, n - 1), ReplayNext(id));
      ReplaysOne(c, After(c, s, Replays(id, n - 1)), id);
    }
  }

  /** All of a source has been delivered by a replay that is over. */
  predicate DeliveredAll(e: Execution, source: Source) {
    && e.Replaying? && e.ended && e.index == |source.rows| == |e.entry.rows| && Delivered(e) == source.rows
    && e.entry.columns == source.columns && source.ending == Ended(e.entry.truncated)
  }

  lemma ReplayDelivers(c: Config, s: State, id: nat, source: Source)
    requires id in s.executions && ReplaysAll(s.executions[id], source)
    ensures var t := After(c, s, Replays(id, |source.rows| + 1));
            id in t.executions && DeliveredAll(t.executions[id], source)
  {
    ReplaysRows(c, s, id, |source.rows| + 1);
  }

  /** An answer read once is read again from the cache: a question not held, asked, read from its source to the
      end, and asked again by anybody it is the same question for, is delivered the rows of that source. */
  lemma AnswersAreDeliveredAgain(
    c: Config, s: State, id: nat, q: Question, columns: seq<Column>, rows: seq<Row>, truncated: bool,
    wait: nat, again: nat, q': Question)
    requires IsHash(c.hash) && Inv(c, s) && id !in s.executions && again !in s.executions && again != id
    requires var key := KeyOf(c, q, Generation(s, q.connection)); key.Some? && !Held(s, key.value)
    requires EstimateAll(rows) <= c.limits.maxEntryBytes && EstimateAll(rows) <= c.limits.maxBytes
    requires wait <= c.limits.ttl && SameQuestion(q, q')
    ensures var answered := Answered(c, s, id, q, columns, rows, truncated);
            var asked := AskedAgain(c, answered, id, [Tick(wait)], again, q', []);
            var t := After(c, Apply(c, asked, LookUp(again)), Replays(again, |rows| + 1));
            again in t.executions && DeliveredAll(t.executions[again], Source(columns, rows, Ended(truncated)))
  {
    hide KeyOf, Inv, Held, EstimateAll, SameQuestion, Answered, AskedAgain, Apply, After, WholeAnswer, DeliveredAll;
    AnsweredIsWhole(c, s, id, q, columns, rows, truncated);
    hide ReplaysAll, Replays;
    var answered := Answered(c, s, id, q, columns, rows, truncated);
    AskedInTimeIsServed(c, answered, id, wait, again, q');
    ReplayDelivers(c, Apply(c, AskedAgain(c, answered, id, [Tick(wait)], again, q', []), LookUp(again)), again,
                   answered.executions[id].source);
  }
}
