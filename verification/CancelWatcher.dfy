/** Telling the server to stop a query whose context ended, while connections go round a pool. One step
    is one action of one goroutine: the query's own, its watcher's, or the server acting on a kill. A
    kill has no effect once the call that sent it has returned. */
module CancelWatcher {
  datatype Watcher = Unstarted | Watching | Killing | Gone

  datatype Phase = Asking | Using | Stopping | Returned

  /** `done` is the channel release closes; a watcher that is Gone has closed `finished`. */
  datatype Query = Query(connection: nat, session: nat, phase: Phase, ended: bool, done: bool, watcher: Watcher)

  /** One kill the server acted on: whose watcher sent it, and whose queries it stopped. */
  datatype Kill = Kill(sender: nat, victims: set<nat>)

  /** `holder` maps each connection that is out of the pool to the query it was handed to. */
  datatype State = State(queries: map<nat, Query>, holder: map<nat, nat>, kills: seq<Kill>)

  datatype Step =
    | Borrow(id: nat, connection: nat)
    | SessionFailed(id: nat)
    | Watch(id: nat)
    | ContextEnds(id: nat)
    | SeesDone(id: nat)
    | SeesEnd(id: nat)
    | KillLands(id: nat)
    | KillReturns(id: nat)
    | CloseDone(id: nat)
    | GiveBack(id: nat)

  /** The server's name for each connection's session: distinct connections have distinct sessions. */
  ghost predicate Sessions(session: nat -> nat) {
    forall a, b :: session(a) == session(b) ==> a == b
  }

  /** Whoever is running on a session when the server acts. */
  ghost function Victims(session: nat -> nat, s: State, target: nat): set<nat> {
    set c | c in s.holder && session(c) == target :: s.holder[c]
  }

  function Set(s: State, id: nat, q: Query): State {
    s.(queries := s.queries[id := q])
  }

  ghost predicate Enabled(s: State, step: Step) {
    if step.Borrow? then step.id !in s.queries && step.connection !in s.holder
    else
      && step.id in s.queries
      && var q := s.queries[step.id];
         match step
         case SessionFailed(_) => q.phase == Asking
         case Watch(_) => q.phase == Asking
         case ContextEnds(_) => true
         case SeesDone(_) => q.watcher == Watching && q.done
         case SeesEnd(_) => q.watcher == Watching && q.ended
         case KillLands(_) => q.watcher == Killing
         case KillReturns(_) => q.watcher == Killing
         case CloseDone(_) => q.phase == Using
         case GiveBack(_) => q.phase == Stopping && q.watcher == Gone
  }

  ghost function Apply(session: nat -> nat, s: State, step: Step): State {
    if !Enabled(s, step) then s
    else
      match step
      case Borrow(id, c) =>
        Set(s, id, Query(c, session(c), Asking, false, false, Unstarted)).(holder := s.holder[c := id])
      case SessionFailed(id) =>
        Set(s, id, s.queries[id].(phase := Returned)).(holder := s.holder - {s.queries[id].connection})
      case Watch(id) => Set(s, id, s.queries[id].(phase := Using, watcher := Watching))
      case ContextEnds(id) => Set(s, id, s.queries[id].(ended := true))
      case SeesDone(id) => Set(s, id, s.queries[id].(watcher := Gone))
      case SeesEnd(id) => Set(s, id, s.queries[id].(watcher := Killing))
      case KillLands(id) => s.(kills := s.kills + [Kill(id, Victims(session, s, s.queries[id].session))])
      case KillReturns(id) => Set(s, id, s.queries[id].(watcher := Gone))
      case CloseDone(id) => Set(s, id, s.queries[id].(phase := Stopping, done := true))
      case GiveBack(id) =>
        Set(s, id, s.queries[id].(phase := Returned)).(holder := s.holder - {s.queries[id].connection})
  }

  ghost function Run(session: nat -> nat, steps: seq<Step>): State {
    if steps == [] then State(map[], map[], [])
    else Apply(session, Run(session, steps[..|steps| - 1]), steps[|steps| - 1])
  }

  /** A query that has not returned its connection holds it, and only such a query has a watcher that
      can still kill. */
  ghost predicate QueryOk(session: nat -> nat, s: State, id: nat)
    requires id in s.queries
  {
    var q := s.queries[id];
    && (q.phase != Returned ==> q.connection in s.holder && s.holder[q.connection] == id)
    && (q.watcher in {Watching, Killing} ==> q.phase in {Using, Stopping})
    && (q.phase in {Using, Stopping} ==> q.watcher != Unstarted)
    && q.session == session(q.connection)
    && (q.phase == Stopping ==> q.done)
  }

  ghost predicate HolderOk(s: State, c: nat)
    requires c in s.holder
  {
    && s.holder[c] in s.queries
    && s.queries[s.holder[c]].connection == c && s.queries[s.holder[c]].phase != Returned
  }

  ghost predicate Inv(session: nat -> nat, s: State) {
    && (forall id :: id in s.queries ==> QueryOk(session, s, id))
    && (forall c :: c in s.holder ==> HolderOk(s, c))
    && (forall i :: 0 <= i < |s.kills| ==> s.kills[i].victims == {s.kills[i].sender})
  }

  /** While a watcher can kill, its query still has the session it would name. */
  lemma OnlyItself(session: nat -> nat, s: State, id: nat)
    requires Sessions(session) && Inv(session, s) && id in s.queries && s.queries[id].watcher in {Watching, Killing}
    ensures Victims(session, s, s.queries[id].session) == {id}
  {
    assert QueryOk(session, s, id);
    var c := s.queries[id].connection;
    assert c in s.holder && s.holder[c] == id;
  }

  lemma ApplyKeepsInv(session: nat -> nat, s: State, step: Step)
    requires Sessions(session) && Inv(session, s)
    ensures Inv(session, Apply(session, s, step))
  {
    var t := Apply(session, s, step);
    if Enabled(s, step) {
      forall i | i in t.queries ensures QueryOk(session, t, i) { StepKeepsQuery(session, s, step, i); }
      forall c | c in t.holder ensures HolderOk(t, c) { StepKeepsHolder(session, s, step, c); }
      if step.KillLands? {
        assert QueryOk(session, s, step.id);
        OnlyItself(session, s, step.id);
      }
    }
  }

  lemma StepKeepsQuery(session: nat -> nat, s: State, step: Step, i: nat)
    requires Inv(session, s) && Enabled(s, step) && i in Apply(session, s, step).queries
    ensures QueryOk(session, Apply(session, s, step), i)
  {
    hide Victims;
    assert i != step.id ==> QueryOk(session, s, i);
    assert !step.Borrow? ==> QueryOk(session, s, step.id);
  }

  lemma StepKeepsHolder(session: nat -> nat, s: State, step: Step, c: nat)
    requires Inv(session, s) && Enabled(s, step) && c in Apply(session, s, step).holder
    ensures HolderOk(Apply(session, s, step), c)
  {
    hide Victims;
    assert c in s.holder ==> HolderOk(s, c);
    assert !step.Borrow? ==> QueryOk(session, s, step.id);
  }

  lemma {:induction false} RunKeepsInv(session: nat -> nat, steps: seq<Step>)
    requires Sessions(session)
    ensures Inv(session, Run(session, steps))
    decreases |steps|
  {
    if steps != [] {
      RunKeepsInv(session, steps[..|steps| - 1]);
      ApplyKeepsInv(session, Run(session, steps[..|steps| - 1]), steps[|steps| - 1]);
    }
  }

  /** A cancellation never stops somebody else's query: over every run, every kill the server acted on
      stopped the query whose watcher sent it and nothing else. */
  lemma KillsStopOnlyTheirOwn(session: nat -> nat, steps: seq<Step>, i: nat)
    requires Sessions(session) && i < |Run(session, steps).kills|
    ensures Run(session, steps).kills[i].victims == {Run(session, steps).kills[i].sender}
  {
    RunKeepsInv(session, steps);
  }

  /** And a kill that is in flight now can still only reach the query it was sent for. */
  lemma KillInFlightIsOwn(session: nat -> nat, steps: seq<Step>, id: nat)
    requires Sessions(session) && id in Run(session, steps).queries
    requires Run(session, steps).queries[id].watcher == Killing
    ensures var s := Run(session, steps);
            && Victims(session, s, s.queries[id].session) == {id}
            && s.queries[id].connection in s.holder && s.holder[s.queries[id].connection] == id
  {
    RunKeepsInv(session, steps);
    assert QueryOk(session, Run(session, steps), id);
    OnlyItself(session, Run(session, steps), id);
  }

  // And it does stop it.

  lemma Then(session: nat -> nat, steps: seq<Step>, step: Step)
    ensures Run(session, steps + [step]) == Apply(session, Run(session, steps), step)
  {
    assert (steps + [step])[..|steps|] == steps;
  }

  /** A watcher stops watching for one of two reasons: the query was done, or its kill has been sent. */
  lemma {:induction false} GoneOnlyWhenDoneOrKilled(session: nat -> nat, steps: seq<Step>, id: nat)
    requires id in Run(session, steps).queries && Run(session, steps).queries[id].watcher == Gone
    ensures Run(session, steps).queries[id].done || KillReturns(id) in steps
    decreases |steps|
  {
    var before, last := steps[..|steps| - 1], steps[|steps| - 1];
    assert steps == before + [last];
    if id in Run(session, before).queries && Run(session, before).queries[id].watcher == Gone {
      GoneOnlyWhenDoneOrKilled(session, before, id);
    }
  }

  /** And it sends a kill only when the context has ended. */
  lemma {:induction false} KillsOnlyWhenEnded(session: nat -> nat, steps: seq<Step>, id: nat)
    requires id in Run(session, steps).queries && Run(session, steps).queries[id].watcher == Killing
    ensures Run(session, steps).queries[id].ended && ContextEnds(id) in steps && SeesEnd(id) in steps
    decreases |steps|
  {
    var before, last := steps[..|steps| - 1], steps[|steps| - 1];
    assert steps == before + [last];
    if id in Run(session, before).queries {
      if Run(session, before).queries[id].watcher == Killing {
        KillsOnlyWhenEnded(session, before, id);
      }
      if Run(session, before).queries[id].ended {
        EndedBecause(session, before, id);
      }
    }
  }

  lemma {:induction false} EndedBecause(session: nat -> nat, steps: seq<Step>, id: nat)
    requires id in Run(session, steps).queries && Run(session, steps).queries[id].ended
    ensures ContextEnds(id) in steps
    decreases |steps|
  {
    var before, last := steps[..|steps| - 1], steps[|steps| - 1];
    assert steps == before + [last];
    if id in Run(session, before).queries && Run(session, before).queries[id].ended {
      EndedBecause(session, before, id);
    }
  }

  /** A canceled query is killed: from any reachable moment at which its watcher watches and its context has
      ended, the watcher can see that, and the server then stops that query and no other. */
  lemma CanceledIsKilled(session: nat -> nat, steps: seq<Step>, id: nat)
    requires Sessions(session) && id in Run(session, steps).queries
    requires Run(session, steps).queries[id].watcher == Watching && Run(session, steps).queries[id].ended
    ensures Run(session, steps + [SeesEnd(id)] + [KillLands(id)]).kills == Run(session, steps).kills + [Kill(id, {id})]
  {
    Then(session, steps, SeesEnd(id));
    Then(session, steps + [SeesEnd(id)], KillLands(id));
    var s := Run(session, steps + [SeesEnd(id)]);
    RunKeepsInv(session, steps + [SeesEnd(id)]);
    OnlyItself(session, s, id);
    hide Victims, Inv;
  }

  /** And every query that gets a connection, and whose session can be asked for, is watched until then. */
  lemma BorrowedIsWatched(session: nat -> nat, steps: seq<Step>, id: nat, connection: nat)
    requires id !in Run(session, steps).queries && connection !in Run(session, steps).holder
    ensures var more := steps + [Borrow(id, connection)] + [Watch(id)] + [ContextEnds(id)];
            var t := Run(session, more);
            && id in t.queries && t.queries[id].phase == Using && t.queries[id].connection == connection
            && t.queries[id].watcher == Watching && t.queries[id].ended
            && t.holder == Run(session, steps).holder[connection := id] && t.kills == Run(session, steps).kills
  {
    hide Run;
    Then(session, steps, Borrow(id, connection));
    Then(session, steps + [Borrow(id, connection)], Watch(id));
    Then(session, steps + [Borrow(id, connection)] + [Watch(id)], ContextEnds(id));
  }

  /** How far a watcher is from having finished. */
  function Rank(w: Watcher): nat {
    match w
    case Unstarted => 3
    case Watching => 2
    case Killing => 1
    case Gone => 0
  }

  /** Release always ends. While it waits there is a step of the watcher's that needs nobody else and
      brings it closer, or the wait is over and the connection can go back... */
  lemma ReleaseCanProceed(session: nat -> nat, steps: seq<Step>, id: nat) returns (step: Step)
    requires Sessions(session) && id in Run(session, steps).queries && Run(session, steps).queries[id].phase == Stopping
    ensures step.id == id && (step.SeesDone? || step.KillReturns? || step.GiveBack?)
    ensures Enabled(Run(session, steps), step)
    ensures var s := Run(session, steps);
            var t := Apply(session, s, step);
            if step.GiveBack? then t.queries[id].phase == Returned && s.queries[id].connection !in t.holder
            else t.queries[id].phase == Stopping && Rank(t.queries[id].watcher) < Rank(s.queries[id].watcher)
  {
    var s := Run(session, steps);
    RunKeepsInv(session, steps);
    assert QueryOk(session, s, id);
    match s.queries[id].watcher
    case Watching => step := SeesDone(id);
    case Killing => step := KillReturns(id);
    case Gone => step := GiveBack(id);
  }

  /** ... and no step of anybody's takes it further away, so two watcher steps are all it waits for. */
  lemma NothingDelaysRelease(session: nat -> nat, s: State, step: Step, id: nat)
    requires id in s.queries && s.queries[id].phase == Stopping
    ensures var t := Apply(session, s, step);
            && id in t.queries && t.queries[id].phase in {Stopping, Returned}
            && Rank(t.queries[id].watcher) <= Rank(s.queries[id].watcher)
            && (t.queries[id].watcher != s.queries[id].watcher ==>
                  Rank(t.queries[id].watcher) < Rank(s.queries[id].watcher))
  {
  }

  /** So from any reachable moment at which a release is waiting, at most two steps of its own watcher
      and then its own last one put the connection back in the pool. */
  lemma {:induction false} ReleaseEnds(session: nat -> nat, steps: seq<Step>, id: nat) returns (more: seq<Step>)
    requires Sessions(session) && id in Run(session, steps).queries && Run(session, steps).queries[id].phase == Stopping
    ensures |more| <= Rank(Run(session, steps).queries[id].watcher) + 1
    ensures forall i :: 0 <= i < |more| ==> more[i] in {SeesDone(id), KillReturns(id), GiveBack(id)}
    ensures var t := Run(session, steps + more);
            && id in t.queries && t.queries[id].phase == Returned
            && t.queries[id].connection == Run(session, steps).queries[id].connection
            && t.queries[id].connection !in t.holder
    decreases Rank(Run(session, steps).queries[id].watcher)
  {
    var step := ReleaseCanProceed(session, steps, id);
    var next := steps + [step];
    assert next[..|next| - 1] == steps;
    if step.GiveBack? {
      more := [step];
    } else {
      var rest := ReleaseEnds(session, next, id);
      more := [step] + rest;
      assert steps + more == next + rest;
    }
  }

  /** And so does the use of any connection, once its query closes the channel. */
  lemma UseEnds(session: nat -> nat, steps: seq<Step>, id: nat) returns (more: seq<Step>)
    requires Sessions(session) && id in Run(session, steps).queries && Run(session, steps).queries[id].phase == Using
    ensures |more| <= 3
    ensures var t := Run(session, steps + [CloseDone(id)] + more);
            && id in t.queries && t.queries[id].phase == Returned
            && Run(session, steps).queries[id].connection !in t.holder
  {
    Then(session, steps, CloseDone(id));
    RunKeepsInv(session, steps);
    assert QueryOk(session, Run(session, steps), id);
    more := ReleaseEnds(session, steps + [CloseDone(id)], id);
  }
}
