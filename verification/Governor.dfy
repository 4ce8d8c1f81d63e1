/** Admission: a per-user and a per-connection counting semaphore, taken in that order. One step is one
    channel operation, so any number of queries interleave between any two of them. Giving up stands
    for both the queue timeout and a caller whose context ended. */
module Governor {
  import opened Common

  datatype Limits = Limits(perUser: nat, perConnection: nat)

  datatype Query = Query(org: string, user: string, connection: string)

  datatype Phase =
    | Arrived
    | WaitingUser
    | GotUser
    | WaitingConnection
    | Running
    | GivingBack
    | HalfReleased
    | Refused
    | Done

  datatype Admission = Admission(query: Query, phase: Phase)

  /** `slots` is the map of channels by name, each standing for how many values it buffers. */
  datatype State = State(slots: map<string, nat>, admissions: map<nat, Admission>)

  datatype Step =
    | Arrive(id: nat, query: Query)
    | TryUser(id: nat)
    | AcquireUser(id: nat)
    | GiveUpUser(id: nat)
    | TryConnection(id: nat)
    | AcquireConnection(id: nat)
    | GiveUpConnection(id: nat)
    | ReturnUser(id: nat)
    | ReleaseConnection(id: nat)
    | ReleaseUser(id: nat)

  function UserKey(q: Query): string {
    "u|" + q.org + "|" + q.user + "|" + q.connection
  }

  function ConnectionKey(q: Query): string {
    "c|" + q.org + "|" + q.connection
  }

  function Slot(s: State, key: string): nat {
    if key in s.slots then s.slots[key] else 0
  }

  function Capacity(l: Limits, key: string): nat {
    if key != "" && key[0] == 'u' then l.perUser else l.perConnection
  }

  predicate At(s: State, id: nat, phase: Phase) {
    id in s.admissions && s.admissions[id].phase == phase
  }

  function Moved(s: State, id: nat, phase: Phase): State
    requires id in s.admissions
  {
    s.(admissions := s.admissions[id := s.admissions[id].(phase := phase)])
  }

  function Taken(s: State, key: string): State {
    s.(slots := s.slots[key := Slot(s, key) + 1])
  }

  function Freed(s: State, key: string): State
    requires Slot(s, key) > 0
  {
    s.(slots := s.slots[key := Slot(s, key) - 1])
  }

  /** Sends into a channel with room, and moves on; with no room the sender stays where it is put. */
  function Sent(l: Limits, s: State, id: nat, key: string, admitted: Phase, waiting: Phase): State
    requires id in s.admissions
  {
    if Slot(s, key) < Capacity(l, key) then Moved(Taken(s, key), id, admitted) else Moved(s, id, waiting)
  }

  /** Receives from a channel; an empty one blocks. */
  function Received(s: State, id: nat, key: string, next: Phase): State
    requires id in s.admissions
  {
    if Slot(s, key) > 0 then Moved(Freed(s, key), id, next) else s
  }

  function Apply(l: Limits, s: State, step: Step): State {
    match step
    case Arrive(id, q) =>
      if id in s.admissions then s else s.(admissions := s.admissions[id := Admission(q, Arrived)])
    case TryUser(id) =>
      if At(s, id, Arrived) then Sent(l, s, id, UserKey(s.admissions[id].query), GotUser, WaitingUser) else s
    case AcquireUser(id) =>
      if At(s, id, WaitingUser) then Sent(l, s, id, UserKey(s.admissions[id].query), GotUser, WaitingUser) else s
    case GiveUpUser(id) =>
      if At(s, id, WaitingUser) then Moved(s, id, Refused) else s
    case TryConnection(id) =>
      if At(s, id, GotUser) then Sent(l, s, id, ConnectionKey(s.admissions[id].query), Running, WaitingConnection)
      else s
    case AcquireConnection(id) =>
      if At(s, id, WaitingConnection)
      then Sent(l, s, id, ConnectionKey(s.admissions[id].query), Running, WaitingConnection) else s
    case GiveUpConnection(id) =>
      if At(s, id, WaitingConnection) then Moved(s, id, GivingBack) else s
    case ReturnUser(id) =>
      if At(s, id, GivingBack) then Received(s, id, UserKey(s.admissions[id].query), Refused) else s
    case ReleaseConnection(id) =>
      if At(s, id, Running) then Received(s, id, ConnectionKey(s.admissions[id].query), HalfReleased) else s
    case ReleaseUser(id) =>
      if At(s, id, HalfReleased) then Received(s, id, UserKey(s.admissions[id].query), Done) else s
  }

  function Run(l: Limits, steps: seq<Step>): State {
    if steps == [] then State(map[], map[]) else Apply(l, Run(l, steps[..|steps| - 1]), steps[|steps| - 1])
  }

  // Who holds what.

  predicate HoldsUser(a: Admission) {
    a.phase in {GotUser, WaitingConnection, Running, GivingBack, HalfReleased}
  }

  predicate HoldsConnection(a: Admission) {
    a.phase == Running
  }

  predicate Holds(a: Admission, key: string) {
    (HoldsUser(a) && UserKey(a.query) == key) || (HoldsConnection(a) && ConnectionKey(a.query) == key)
  }

  ghost function Holders(s: State, key: string): set<nat> {
    set id | id in s.admissions && Holds(s.admissions[id], key)
  }

  /** Each semaphore's count is the number of queries holding it, and never above its limit. */
  ghost predicate Exact(l: Limits, s: State) {
    forall key :: Slot(s, key) == |Holders(s, key)| <= Capacity(l, key)
  }

  /** A move that takes no slot and returns none. */
  lemma MoveKeepsExact(l: Limits, s: State, t: State, id: nat)
    requires Exact(l, s) && id in t.admissions && t == s.(admissions := s.admissions[id := t.admissions[id]])
    requires forall key :: Holds(t.admissions[id], key) <==> id in s.admissions && Holds(s.admissions[id], key)
    ensures Exact(l, t)
  {
    forall key ensures Slot(t, key) == |Holders(t, key)| <= Capacity(l, key) {
      assert Holders(t, key) == Holders(s, key);
      assert Slot(s, key) == Slot(t, key);
    }
  }

  lemma TakeHolders(s: State, id: nat, key: string, phase: Phase, k: string)
    requires id in s.admissions && !Holds(s.admissions[id], key)
    requires Holds(s.admissions[id].(phase := phase), k) <==> k == key || Holds(s.admissions[id], k)
    ensures |Holders(Moved(Taken(s, key), id, phase), k)| == |Holders(s, k)| + if k == key then 1 else 0
    ensures Slot(Moved(Taken(s, key), id, phase), k) == Slot(s, k) + if k == key then 1 else 0
  {
    hide Holds;
    var t := Moved(Taken(s, key), id, phase);
    assert t.admissions == s.admissions[id := s.admissions[id].(phase := phase)];
    assert Holders(t, k) == if k == key then Holders(s, k) + {id} else Holders(s, k);
  }

  /** A move that takes exactly one slot. */
  lemma TakeKeepsExact(l: Limits, s: State, id: nat, key: string, phase: Phase)
    requires Exact(l, s) && id in s.admissions && Slot(s, key) < Capacity(l, key)
    requires !Holds(s.admissions[id], key)
    requires forall k :: Holds(s.admissions[id].(phase := phase), k) <==> k == key || Holds(s.admissions[id], k)
    ensures Exact(l, Moved(Taken(s, key), id, phase))
  {
    var t := Moved(Taken(s, key), id, phase);
    forall k ensures Slot(t, k) == |Holders(t, k)| <= Capacity(l, k) {
      assert Slot(s, k) == |Holders(s, k)| <= Capacity(l, k);
      TakeHolders(s, id, key, phase, k);
    }
  }

  lemma FreeHolders(s: State, id: nat, key: string, phase: Phase, k: string)
    requires id in s.admissions && Holds(s.admissions[id], key) && Slot(s, key) > 0
    requires Holds(s.admissions[id].(phase := phase), k) <==> k != key && Holds(s.admissions[id], k)
    ensures |Holders(Received(s, id, key, phase), k)| == |Holders(s, k)| - if k == key then 1 else 0
    ensures Slot(Received(s, id, key, phase), k) == Slot(s, k) - if k == key then 1 else 0
  {
    hide Holds;
    var t := Received(s, id, key, phase);
    assert id in Holders(s, key);
    assert t.admissions == s.admissions[id := s.admissions[id].(phase := phase)];
    assert Holders(t, k) == if k == key then Holders(s, k) - {id} else Holders(s, k);
  }

  /** A move that returns exactly one slot: the receive does not block. */
  lemma FreeKeepsExact(l: Limits, s: State, id: nat, key: string, phase: Phase)
    requires Exact(l, s) && id in s.admissions && Holds(s.admissions[id], key)
    requires forall k :: Holds(s.admissions[id].(phase := phase), k) <==> k != key && Holds(s.admissions[id], k)
    ensures Slot(s, key) > 0
    ensures Exact(l, Received(s, id, key, phase))
  {
    assert Slot(s, key) == |Holders(s, key)|;
    assert id in Holders(s, key);
    assert Holders(s, key) == {id} + (Holders(s, key) - {id});
    var t := Received(s, id, key, phase);
    forall k ensures Slot(t, k) == |Holders(t, k)| <= Capacity(l, k) {
      assert Slot(s, k) == |Holders(s, k)| <= Capacity(l, k);
      FreeHolders(s, id, key, phase, k);
    }
  }

  lemma KeysDiffer(p: Query, q: Query)
    ensures UserKey(p) != ConnectionKey(q)
  {
    assert UserKey(p)[0] != ConnectionKey(q)[0];
  }

  lemma ApplyKeepsExact(l: Limits, s: State, step: Step)
    requires Exact(l, s)
    ensures Exact(l, Apply(l, s, step))
  {
    var id := step.id;
    var t := Apply(l, s, step);
    if t != s {
      if step.Arrive? {
        MoveKeepsExact(l, s, t, id);
      } else {
        var q := s.admissions[id].query;
        KeysDiffer(q, q);
        if step.TryUser? || step.AcquireUser? {
          if Slot(s, UserKey(q)) < Capacity(l, UserKey(q)) {
            TakeKeepsExact(l, s, id, UserKey(q), GotUser);
          } else {
            MoveKeepsExact(l, s, t, id);
          }
        } else if step.TryConnection? || step.AcquireConnection? {
          if Slot(s, ConnectionKey(q)) < Capacity(l, ConnectionKey(q)) {
            TakeKeepsExact(l, s, id, ConnectionKey(q), Running);
          } else {
            MoveKeepsExact(l, s, t, id);
          }
        } else if step.ReturnUser? {
          FreeKeepsExact(l, s, id, UserKey(q), Refused);
        } else if step.ReleaseConnection? {
          FreeKeepsExact(l, s, id, ConnectionKey(q), HalfReleased);
        } else if step.ReleaseUser? {
          FreeKeepsExact(l, s, id, UserKey(q), Done);
        } else {
          MoveKeepsExact(l, s, t, id);
        }
      }
    }
  }

  /** In every reachable state the channels say exactly who is in. */
  lemma {:induction false} SlotsAreExact(l: Limits, steps: seq<Step>)
    ensures Exact(l, Run(l, steps))
    decreases |steps|
  {
    if steps != [] {
      SlotsAreExact(l, steps[..|steps| - 1]);
      ApplyKeepsExact(l, Run(l, steps[..|steps| - 1]), steps[|steps| - 1]);
    } else {
      assert forall key :: Holders(State(map[], map[]), key) == {};
    }
  }

  // What that buys.

  lemma SubsetSize(a: set<nat>, b: set<nat>)
    requires a <= b
    ensures |a| <= |b|
  {
    assert b == a + (b - a);
  }

  /** One person's queries running against one connection. */
  ghost function RunningAs(s: State, q: Query): set<nat> {
    set id | id in s.admissions && s.admissions[id] == Admission(q, Running)
  }

  /** Anybody's queries running against one connection. */
  ghost function RunningOn(s: State, q: Query): set<nat> {
    set id | id in s.admissions && s.admissions[id].phase == Running
             && s.admissions[id].query.org == q.org && s.admissions[id].query.connection == q.connection
  }

  /** Neither limit is ever exceeded by the queries actually running. */
  lemma LimitsHold(l: Limits, steps: seq<Step>, q: Query)
    ensures |RunningAs(Run(l, steps), q)| <= l.perUser
    ensures |RunningOn(Run(l, steps), q)| <= l.perConnection
  {
    var s := Run(l, steps);
    SlotsAreExact(l, steps);
    assert UserKey(q)[0] == 'u' && ConnectionKey(q)[0] == 'c';
    assert Slot(s, UserKey(q)) == |Holders(s, UserKey(q))| <= Capacity(l, UserKey(q));
    assert Slot(s, ConnectionKey(q)) == |Holders(s, ConnectionKey(q))| <= Capacity(l, ConnectionKey(q));
    SubsetSize(RunningAs(s, q), Holders(s, UserKey(q)));
    SubsetSize(RunningOn(s, q), Holders(s, ConnectionKey(q)));
  }

  /** A connection's slots are held by running queries and by nobody else, so a caller waiting on their
      own limit sits on none of the source's capacity. */
  lemma OnlyRunningHoldsConnections(l: Limits, steps: seq<Step>, q: Query)
    requires '|' !in q.org
    requires forall id :: id in Run(l, steps).admissions ==> '|' !in Run(l, steps).admissions[id].query.org
    ensures Slot(Run(l, steps), ConnectionKey(q)) == |RunningOn(Run(l, steps), q)|
  {
    var s := Run(l, steps);
    SlotsAreExact(l, steps);
    assert Slot(s, ConnectionKey(q)) == |Holders(s, ConnectionKey(q))|;
    forall id | id in s.admissions
      ensures id in Holders(s, ConnectionKey(q)) <==> id in RunningOn(s, q)
    {
      var p := s.admissions[id].query;
      KeysDiffer(p, q);
      ConnectionKeysName(p, q);
    }
    assert Holders(s, ConnectionKey(q)) == RunningOn(s, q);
  }

  /** A release never blocks: whoever is to receive finds a value. */
  lemma ReleaseNeverBlocks(l: Limits, steps: seq<Step>, id: nat)
    requires id in Run(l, steps).admissions
    ensures var s := Run(l, steps);
            var q := s.admissions[id].query;
            && (At(s, id, Running) ==> At(Apply(l, s, ReleaseConnection(id)), id, HalfReleased))
            && (At(s, id, HalfReleased) ==> At(Apply(l, s, ReleaseUser(id)), id, Done))
            && (At(s, id, GivingBack) ==> At(Apply(l, s, ReturnUser(id)), id, Refused))
  {
    hide Run, Exact, UserKey, ConnectionKey;
    var s := Run(l, steps);
    var q := s.admissions[id].query;
    SlotsAreExact(l, steps);
    KeysDiffer(q, q);
    if At(s, id, Running) { FreeKeepsExact(l, s, id, ConnectionKey(q), HalfReleased); }
    if At(s, id, HalfReleased) { FreeKeepsExact(l, s, id, UserKey(q), Done); }
    if At(s, id, GivingBack) { FreeKeepsExact(l, s, id, UserKey(q), Refused); }
  }

  /** No slot outlives its query: when every query has finished, every semaphore is empty. */
  lemma NothingLeaks(l: Limits, steps: seq<Step>, key: string)
    requires forall id :: id in Run(l, steps).admissions ==> Run(l, steps).admissions[id].phase in {Refused, Done}
    ensures Slot(Run(l, steps), key) == 0
  {
    SlotsAreExact(l, steps);
    assert Slot(Run(l, steps), key) == |Holders(Run(l, steps), key)|;
    assert Holders(Run(l, steps), key) == {};
  }

  // Who can move.

  /** How far a query is from having finished. */
  function Rank(phase: Phase): nat {
    match phase
    case Arrived => 6
    case WaitingUser => 5
    case GotUser => 4
    case WaitingConnection => 3
    case Running => 2
    case GivingBack | HalfReleased => 1
    case Refused | Done => 0
  }

  /** A step of this query's, not counting on its giving up, that brings it nearer its end. */
  ghost predicate MovesOn(l: Limits, s: State, id: nat, step: Step) {
    && id in s.admissions && step.id == id && !step.Arrive? && !step.GiveUpUser? && !step.GiveUpConnection?
    && var t := Apply(l, s, step);
       && id in t.admissions && t.admissions[id].query == s.admissions[id].query
       && Rank(t.admissions[id].phase) < Rank(s.admissions[id].phase)
  }

  /** Others who hold the slot a query is after. */
  ghost function SharingUser(s: State, q: Query): set<nat> {
    set id | id in s.admissions && HoldsUser(s.admissions[id]) && UserKey(s.admissions[id].query) == UserKey(q)
  }

  ghost function SharingConnection(s: State, q: Query): set<nat> {
    set id | id in s.admissions && s.admissions[id].phase == Running
             && ConnectionKey(s.admissions[id].query) == ConnectionKey(q)
  }

  lemma RoomIsSharing(l: Limits, s: State, q: Query)
    requires Exact(l, s)
    ensures Slot(s, UserKey(q)) == |SharingUser(s, q)| && Capacity(l, UserKey(q)) == l.perUser
    ensures Slot(s, ConnectionKey(q)) == |SharingConnection(s, q)| && Capacity(l, ConnectionKey(q)) == l.perConnection
  {
    assert UserKey(q)[0] == 'u' && ConnectionKey(q)[0] == 'c';
    assert Slot(s, UserKey(q)) == |Holders(s, UserKey(q))|;
    assert Slot(s, ConnectionKey(q)) == |Holders(s, ConnectionKey(q))|;
    forall id | id in s.admissions
      ensures UserKey(s.admissions[id].query) != ConnectionKey(q) && ConnectionKey(s.admissions[id].query) != UserKey(q)
    {
      KeysDiffer(s.admissions[id].query, q);
      KeysDiffer(q, s.admissions[id].query);
    }
    assert Holders(s, UserKey(q)) == SharingUser(s, q);
    assert Holders(s, ConnectionKey(q)) == SharingConnection(s, q);
  }

  /** A query gets its user's slot, at once or after a wait, exactly when fewer than the limit hold one, and
      its connection's likewise; until then it waits. */
  lemma AdmittedExactlyWhenRoom(l: Limits, steps: seq<Step>, id: nat)
    requires id in Run(l, steps).admissions
    ensures var s := Run(l, steps);
            var q, phase := s.admissions[id].query, s.admissions[id].phase;
            && (phase in {Arrived, WaitingUser} ==>
                  At(Apply(l, s, if phase == Arrived then TryUser(id) else AcquireUser(id)), id,
                     if |SharingUser(s, q)| < l.perUser then GotUser else WaitingUser))
            && (phase in {GotUser, WaitingConnection} ==>
                  At(Apply(l, s, if phase == GotUser then TryConnection(id) else AcquireConnection(id)), id,
                     if |SharingConnection(s, q)| < l.perConnection then Running else WaitingConnection))
  {
    var s := Run(l, steps);
    SlotsAreExact(l, steps);
    RoomIsSharing(l, s, s.admissions[id].query);
    hide Run, Exact, SharingUser, SharingConnection;
  }

  /** So a query that arrives when there is room in both runs after two steps, without waiting. */
  lemma RoomIsEnough(l: Limits, steps: seq<Step>, id: nat)
    requires At(Run(l, steps), id, Arrived)
    requires var s := Run(l, steps);
             |SharingUser(s, s.admissions[id].query)| < l.perUser
             && |SharingConnection(s, s.admissions[id].query)| < l.perConnection
    ensures At(Run(l, steps + [TryUser(id)] + [TryConnection(id)]), id, Running)
  {
    var s := Run(l, steps);
    var q := s.admissions[id].query;
    var t := Run(l, steps + [TryUser(id)]);
    Then(l, steps, TryUser(id));
    Then(l, steps + [TryUser(id)], TryConnection(id));
    AdmittedExactlyWhenRoom(l, steps, id);
    AdmittedExactlyWhenRoom(l, steps + [TryUser(id)], id);
    assert SharingConnection(t, q) == SharingConnection(s, q) by {
      hide Run, UserKey, ConnectionKey;
    }
  }

  lemma Then(l: Limits, steps: seq<Step>, step: Step)
    ensures Run(l, steps + [step]) == Apply(l, Run(l, steps), step)
  {
    assert (steps + [step])[..|steps|] == steps;
  }

  /** A wait that is given up ends in a refusal, with what was held given back. */
  lemma GivingUpEnds(l: Limits, steps: seq<Step>, id: nat)
    ensures At(Run(l, steps), id, WaitingUser) ==>
              At(Run(l, steps + [GiveUpUser(id)]), id, Refused)
              && Run(l, steps + [GiveUpUser(id)]).slots == Run(l, steps).slots
    ensures At(Run(l, steps), id, WaitingConnection) ==>
              var t := Run(l, steps + [GiveUpConnection(id)] + [ReturnUser(id)]);
              && At(t, id, Refused)
              && Slot(t, UserKey(t.admissions[id].query)) + 1
              == Slot(Run(l, steps), UserKey(t.admissions[id].query))
  {
    Then(l, steps, GiveUpUser(id));
    Then(l, steps, GiveUpConnection(id));
    Then(l, steps + [GiveUpConnection(id)], ReturnUser(id));
    if At(Run(l, steps), id, WaitingConnection) {
      ReleaseNeverBlocks(l, steps + [GiveUpConnection(id)], id);
    }
    hide Run, UserKey, ConnectionKey;
  }

  /** A query that is not waiting moves on by itself. */
  lemma UnhinderedMoves(l: Limits, steps: seq<Step>, id: nat) returns (step: Step)
    requires id in Run(l, steps).admissions
    requires Run(l, steps).admissions[id].phase !in {WaitingUser, WaitingConnection, Refused, Done}
    ensures MovesOn(l, Run(l, steps), id, step)
  {
    AdmittedExactlyWhenRoom(l, steps, id);
    ReleaseNeverBlocks(l, steps, id);
    match Run(l, steps).admissions[id].phase
    case Arrived => step := TryUser(id);
    case GotUser => step := TryConnection(id);
    case Running => step := ReleaseConnection(id);
    case GivingBack => step := ReturnUser(id);
    case HalfReleased => step := ReleaseUser(id);
    hide Run;
    QueriesStay(l, Run(l, steps), step);
  }

  lemma QueriesStay(l: Limits, s: State, step: Step)
    requires step.id in s.admissions
    ensures var t := Apply(l, s, step);
            step.id in t.admissions && t.admissions[step.id].query == s.admissions[step.id].query
  {
  }

  /** Somebody in a non-empty set. */
  lemma SomeOf(ids: set<nat>) returns (id: nat)
    requires |ids| > 0
    ensures id in ids
  {
    id :| id in ids;
  }

  /** While somebody waits for a connection, that query or one that runs on the connection moves on. */
  lemma ConnectionWaitHasMover(l: Limits, steps: seq<Step>, id: nat) returns (mover: nat, step: Step)
    requires l.perConnection > 0 && At(Run(l, steps), id, WaitingConnection)
    ensures MovesOn(l, Run(l, steps), mover, step)
    ensures mover == id || mover in SharingConnection(Run(l, steps), Run(l, steps).admissions[id].query)
  {
    var s := Run(l, steps);
    var q := s.admissions[id].query;
    AdmittedExactlyWhenRoom(l, steps, id);
    if |SharingConnection(s, q)| < l.perConnection {
      mover, step := id, AcquireConnection(id);
      QueriesStay(l, s, step);
    } else {
      mover := SomeOf(SharingConnection(s, q));
      step := UnhinderedMoves(l, steps, mover);
    }
  }

  /** No deadlock: while any query is unfinished, some query has a step that brings it nearer its end, without
      counting on a timeout. */
  lemma NoDeadlock(l: Limits, steps: seq<Step>, id: nat) returns (mover: nat, step: Step)
    requires l.perUser > 0 && l.perConnection > 0
    requires id in Run(l, steps).admissions && Run(l, steps).admissions[id].phase !in {Refused, Done}
    ensures MovesOn(l, Run(l, steps), mover, step)
  {
    var s := Run(l, steps);
    var q := s.admissions[id].query;
    if At(s, id, WaitingConnection) {
      mover, step := ConnectionWaitHasMover(l, steps, id);
    } else if At(s, id, WaitingUser) {
      AdmittedExactlyWhenRoom(l, steps, id);
      if |SharingUser(s, q)| < l.perUser {
        mover, step := id, AcquireUser(id);
        QueriesStay(l, s, step);
      } else {
        var holder := SomeOf(SharingUser(s, q));
        if At(s, holder, WaitingConnection) {
          mover, step := ConnectionWaitHasMover(l, steps, holder);
        } else {
          mover := holder;
          step := UnhinderedMoves(l, steps, holder);
        }
      }
    } else {
      mover := id;
      step := UnhinderedMoves(l, steps, id);
    }
  }

  /** Ids are UUIDs and hold no bar, so each channel's name belongs to one user and connection. */
  lemma UserKeysName(p: Query, q: Query)
    requires '|' !in p.org && '|' !in q.org && '|' !in p.user && '|' !in q.user
    ensures UserKey(p) == UserKey(q) <==> p == q
  {
    if UserKey(p) == UserKey(q) {
      var a, b := p.user + "|" + p.connection, q.user + "|" + q.connection;
      assert UserKey(p)[2..] == p.org + "|" + a && UserKey(q)[2..] == q.org + "|" + b;
      BarSplits(p.org, a, q.org, b);
      BarSplits(p.user, p.connection, q.user, q.connection);
    }
  }

  lemma ConnectionKeysName(p: Query, q: Query)
    requires '|' !in p.org && '|' !in q.org
    ensures ConnectionKey(p) == ConnectionKey(q) <==> p.org == q.org && p.connection == q.connection
  {
    if ConnectionKey(p) == ConnectionKey(q) {
      assert ConnectionKey(p)[2..] == p.org + "|" + p.connection && ConnectionKey(q)[2..] == q.org + "|" + q.connection;
      BarSplits(p.org, p.connection, q.org, q.connection);
    }
  }

  lemma BarSplits(a: string, x: string, b: string, y: string)
    requires '|' !in a && '|' !in b && a + "|" + x == b + "|" + y
    ensures a == b && x == y
  {
    CutAt(a, '|', x);
    CutAt(b, '|', y);
  }
}
