/** What an execution holds, and how it is logged: the acquire and release order of every path through
    the pipeline, with callers leaving and administrators killing at any point. Each step is one
    statement's effect on something shared. */
module Lifecycle {
  import opened Common

  /** What can end a query's context, and the two kinds of failure the log tells apart. */
  datatype Cause = CallerLeft | Killed | ClosedUp

  datatype Failure = CancelError | OtherError

  datatype Outcome = Succeeded | CanceledByKill | Canceled | Failed

  datatype Action = Finish | Unwatch | Release | Cancel | CloseConnector

  /** The ways out of the pipeline. */
  datatype Exit = OpenFailed | LogFailed | StreamFailed | Closed | HitClosed

  /** The statements each way out runs, in order. */
  function Statements(exit: Exit): seq<Action> {
    match exit
    case OpenFailed => [Release]
    case LogFailed => [CloseConnector, Release]
    case StreamFailed => [Unwatch, Cancel, Finish, CloseConnector, Release]
    case Closed => [Finish, Unwatch, Release, Cancel, CloseConnector]
    case HitClosed => [Finish]
  }

  predicate ComesAt(exit: Exit, k: nat, a: Action) {
    k < |Statements(exit)| && Statements(exit)[k] == a
  }

  /** Where in its way out, of five statements at most, an action comes; -1 when it does not. */
  function Position(exit: Exit, a: Action): int {
    if ComesAt(exit, 0, a) then 0
    else if ComesAt(exit, 1, a) then 1
    else if ComesAt(exit, 2, a) then 2
    else if ComesAt(exit, 3, a) then 3
    else if ComesAt(exit, 4, a) then 4
    else -1
  }

  /** No way out runs a statement twice, and none is missed. */
  lemma PositionIsIndex(exit: Exit, k: nat, a: Action)
    requires k < |Statements(exit)|
    ensures Statements(exit)[k] == a <==> Position(exit, a) == k
  {
  }

  datatype Phase =
    | Waiting
    | Admitted
    | Opened
    | Logged
    | Watched
    | Reading
    | Leaving(exit: Exit, ran: nat)
    | Over

  /** `derived` says the query has a context of its own, and `cancels` is everything that tried to
      cancel it, in order: only the first is its cause. `own` says that context decides the outcome: a
      query that never got a stream is finished through its caller's. */
  datatype Execution = Execution(
    hit: bool, phase: Phase, err: Option<Failure>, callerLeft: bool, derived: bool, cancels: seq<Cause>, own: bool)

  /** A finished row remembers how many cancels had arrived when it was finished. */
  datatype LogRow = Running | Done(outcome: Outcome, seen: nat)

  /** `slots` and `connectors` only count; `monitor` is the registry of cancels; `unwritten` are the
      rows whose completing write failed. `killers` hold a cancel they have looked up and not called. */
  datatype State = State(
    slots: int,
    connectors: int,
    monitor: set<nat>,
    rows: map<nat, LogRow>,
    unwritten: set<nat>,
    killers: map<nat, nat>,
    executions: map<nat, Execution>)

  datatype Step =
    | Arrive(id: nat)
    | ServeHit(id: nat, logged: bool)
    | Admit(id: nat)
    | Refuse(id: nat)
    | Open(id: nat, ok: bool)
    | LogStart(id: nat, ok: bool)
    | Watch(id: nat)
    | StartStream(id: nat, err: Option<Failure>)
    | BreakStream(id: nat, failure: Failure)
    | Close(id: nat, closeErr: Option<Failure>)
    | Unwind(id: nat, written: bool)
    | LeaveCaller(id: nat)
    | FindCancel(killer: nat, id: nat)
    | CallCancel(killer: nat)

  predicate At(s: State, id: nat, phase: Phase) {
    id in s.executions && s.executions[id].phase == phase
  }

  function Set(s: State, id: nat, e: Execution): State {
    s.(executions := s.executions[id := e])
  }

  function To(s: State, id: nat, phase: Phase): State
    requires id in s.executions
  {
    Set(s, id, s.executions[id].(phase := phase))
  }

  /** The cause a context reports: the first cancel it was given. */
  function CauseOf(e: Execution): Option<Cause> {
    if !e.own then (if e.callerLeft then Some(CallerLeft) else None)
    else if e.cancels == [] then None
    else Some(e.cancels[0])
  }

  function OutcomeOf(e: Execution): Outcome {
    if e.err.None? then Succeeded
    else if CauseOf(e) == Some(Killed) then CanceledByKill
    else if e.err == Some(CancelError) then Canceled
    else Failed
  }

  function Acted(s: State, id: nat, action: Action, written: bool): State
    requires id in s.executions
  {
    var e := s.executions[id];
    match action
    case Finish =>
      if written then s.(rows := s.rows[id := Done(OutcomeOf(e), |e.cancels|)]) else s.(unwritten := s.unwritten + {id})
    case Unwatch => s.(monitor := s.monitor - {id})
    case Release => s.(slots := s.slots - 1)
    case Cancel => Set(s, id, e.(cancels := e.cancels + [ClosedUp]))
    case CloseConnector => s.(connectors := s.connectors - 1)
  }

  /** The next statement of a way out, or its end. */
  function Unwound(s: State, id: nat, written: bool): State
    requires id in s.executions && s.executions[id].phase.Leaving?
  {
    var Leaving(exit, ran) := s.executions[id].phase;
    if ran >= |Statements(exit)| then To(s, id, Over)
    else To(Acted(s, id, Statements(exit)[ran], written), id, Leaving(exit, ran + 1))
  }

  function Apply(s: State, step: Step): State {
    match step
    case Arrive(id) =>
      if id in s.executions then s else Set(s, id, Execution(false, Waiting, None, false, false, [], false))
    case ServeHit(id, logged) =>
      if id in s.executions then s
      else
        var e := Execution(true, if logged then Reading else Over, None, false, false, [], false);
        Set(s, id, e).(rows := if logged then s.rows[id := Running] else s.rows)
    case Admit(id) => if At(s, id, Waiting) then To(s, id, Admitted).(slots := s.slots + 1) else s
    case Refuse(id) => if At(s, id, Waiting) then To(s, id, Over) else s
    case Open(id, ok) =>
      if !At(s, id, Admitted) then s
      else if ok then To(s, id, Opened).(connectors := s.connectors + 1)
      else To(s, id, Leaving(OpenFailed, 0))
    case LogStart(id, ok) =>
      if !At(s, id, Opened) then s
      else if ok then To(s, id, Logged).(rows := s.rows[id := Running])
      else To(s, id, Leaving(LogFailed, 0))
    case Watch(id) =>
      if !At(s, id, Logged) then s
      else
        var e := s.executions[id];
        Set(s, id, e.(phase := Watched, derived := true, cancels := if e.callerLeft then [CallerLeft] else []))
        .(monitor := s.monitor + {id})
    case StartStream(id, err) =>
      if !At(s, id, Watched) then s
      else
        var e := s.executions[id];
        if err.None? then Set(s, id, e.(phase := Reading, own := true))
        else Set(s, id, e.(phase := Leaving(StreamFailed, 0), err := err))
    case BreakStream(id, failure) =>
      if At(s, id, Reading) && !s.executions[id].hit && s.executions[id].err.None?
      then Set(s, id, s.executions[id].(err := Some(failure))) else s
    case Close(id, closeErr) =>
      if !At(s, id, Reading) then s
      else
        var e := s.executions[id];
        if e.hit then To(s, id, Leaving(HitClosed, 0))
        else Set(s, id, e.(phase := Leaving(Closed, 0), err := if e.err.Some? then e.err else closeErr))
    case Unwind(id, written) =>
      if id !in s.executions || !s.executions[id].phase.Leaving? then s else Unwound(s, id, written)
    case LeaveCaller(id) =>
      if id !in s.executions || s.executions[id].callerLeft then s
      else
        var e := s.executions[id];
        Set(s, id, e.(callerLeft := true, cancels := if e.derived then e.cancels + [CallerLeft] else e.cancels))
    case FindCancel(killer, id) =>
      if id in s.monitor then s.(killers := s.killers[killer := id]) else s
    case CallCancel(killer) =>
      if killer !in s.killers || s.killers[killer] !in s.executions then s
      else
        var id := s.killers[killer];
        var e := s.executions[id];
        Set(s, id, e.(cancels := e.cancels + [Killed])).(killers := s.killers - {killer})
  }

  function Run(steps: seq<Step>): State {
    if steps == [] then State(0, 0, {}, map[], {}, map[], map[])
    else Apply(Run(steps[..|steps| - 1]), steps[|steps| - 1])
  }

  // What an execution holds, by where it is.

  datatype Thing = Slot | Connector | Registration

  function DueBack(thing: Thing): Action {
    match thing
    case Slot => Release
    case Connector => CloseConnector
    case Registration => Unwatch
  }

  predicate Holds(e: Execution, thing: Thing) {
    match e.phase
    case Admitted => thing.Slot?
    case Opened => thing.Slot? || thing.Connector?
    case Logged => thing.Slot? || thing.Connector?
    case Watched => true
    case Reading => !e.hit
    case Leaving(exit, ran) => Position(exit, DueBack(thing)) >= ran
    case _ => false
  }

  predicate RowOpen(e: Execution) {
    match e.phase
    case Logged | Watched | Reading => true
    case Leaving(exit, ran) => Position(exit, Finish) >= ran
    case _ => false
  }

  /** The row's ending has been attempted. */
  predicate Ended(e: Execution) {
    e.phase.Over? || (e.phase.Leaving? && Position(e.phase.exit, Finish) < e.phase.ran)
  }

  ghost function Holders(s: State, thing: Thing): set<nat> {
    set id | id in s.executions && Holds(s.executions[id], thing)
  }

  /** The counts and the registry match who holds what. */
  ghost predicate CountsMatch(s: State) {
    && s.slots == |Holders(s, Slot)|
    && s.connectors == |Holders(s, Connector)|
    && s.monitor == Holders(s, Registration)
  }

  /** A row says running exactly while its execution owes it an ending, or if that write was lost. */
  ghost predicate RowMatches(s: State, id: nat) {
    && (id in s.rows && s.rows[id] == Running <==>
          id in s.executions && (RowOpen(s.executions[id]) || id in s.unwritten))
    && (id in s.rows || id in s.unwritten ==> id in s.executions)
    && (id in s.unwritten ==> Ended(s.executions[id]))
  }

  ghost predicate Conserved(s: State) {
    && CountsMatch(s)
    && (forall id :: RowMatches(s, id))
    && (forall id :: id in s.executions ==> HitHoldsNothing(s.executions[id]))
  }

  /** A hit is only ever being read or closed. */
  predicate HitHoldsNothing(e: Execution) {
    e.hit ==> e.phase.Reading? || e.phase.Over? || (e.phase.Leaving? && e.phase.exit == HitClosed)
  }

  /** Changing one execution changes who holds a thing by that execution alone. */
  lemma HoldersChange(s: State, t: State, id: nat, thing: Thing)
    requires id in t.executions && t.executions == s.executions[id := t.executions[id]]
    ensures Holders(t, thing) ==
            if Holds(t.executions[id], thing) then Holders(s, thing) + {id} else Holders(s, thing) - {id}
  {
  }

  lemma OneChanges(s: State, t: State, id: nat, thing: Thing)
    requires id in t.executions && t.executions == s.executions[id := t.executions[id]]
    ensures |Holders(t, thing)| == |Holders(s, thing)| - Weight(s, id, thing) + Weight(t, id, thing)
  {
    HoldersChange(s, t, id, thing);
    var held := Holders(s, thing);
    assert id in held <==> Weight(s, id, thing) == 1;
    if id in held {
      assert held + {id} == held;
    } else {
      assert held - {id} == held;
    }
  }

  function Weight(s: State, id: nat, thing: Thing): int {
    if id in s.executions && Holds(s.executions[id], thing) then 1 else 0
  }

  /** What a step does to the counts and the registry is what it does to the one execution it is of. */
  ghost predicate CountsFollow(s: State, t: State, id: nat) {
    && id in t.executions && t.executions == s.executions[id := t.executions[id]]
    && t.slots == s.slots - Weight(s, id, Slot) + Weight(t, id, Slot)
    && t.connectors == s.connectors - Weight(s, id, Connector) + Weight(t, id, Connector)
    && t.monitor == if Holds(t.executions[id], Registration) then s.monitor + {id} else s.monitor - {id}
  }

  predicate SameRow(s: State, t: State, i: nat) {
    && (i in t.rows <==> i in s.rows)
    && (i in s.rows ==> t.rows[i] == s.rows[i])
    && (i in t.unwritten <==> i in s.unwritten)
  }

  ghost predicate RowFollows(s: State, t: State, id: nat) {
    && id in t.executions && t.executions == s.executions[id := t.executions[id]]
    && (forall i :: i != id ==> SameRow(s, t, i))
    && RowMatches(t, id) && HitHoldsNothing(t.executions[id])
  }

  lemma FollowingKeepsCounts(s: State, t: State, id: nat)
    requires CountsMatch(s) && CountsFollow(s, t, id)
    ensures CountsMatch(t)
  {
    OneChanges(s, t, id, Slot);
    OneChanges(s, t, id, Connector);
    HoldersChange(s, t, id, Registration);
  }

  lemma FollowingKeepsRow(s: State, t: State, id: nat, i: nat)
    requires RowMatches(s, i) && RowFollows(s, t, id)
    ensures RowMatches(t, i)
  {
    if i != id {
      assert SameRow(s, t, i);
    }
  }

  lemma FollowingKeepsConserved(s: State, t: State, id: nat)
    requires Conserved(s) && CountsFollow(s, t, id) && RowFollows(s, t, id)
    ensures Conserved(t)
  {
    FollowingKeepsCounts(s, t, id);
    forall i ensures RowMatches(t, i) {
      assert RowMatches(s, i);
      FollowingKeepsRow(s, t, id, i);
    }
  }

  /** The invariant, of one execution. */
  ghost predicate Tidy(s: State, id: nat) {
    && RowMatches(s, id)
    && (id in s.executions ==> HitHoldsNothing(s.executions[id]))
    && (id in s.monitor <==> id in s.executions && Holds(s.executions[id], Registration))
  }

  lemma ConservedIsTidy(s: State, id: nat)
    requires Conserved(s)
    ensures Tidy(s, id)
  {
    assert RowMatches(s, id);
    assert id in s.monitor <==> id in Holders(s, Registration);
  }

  lemma UnwindCounts(s: State, id: nat, written: bool)
    requires id in s.executions && s.executions[id].phase.Leaving?
    requires id in s.monitor <==> Holds(s.executions[id], Registration)
    ensures CountsFollow(s, Unwound(s, id, written), id)
  {
    var Leaving(exit, ran) := s.executions[id].phase;
    if ran < |Statements(exit)| {
      PositionIsIndex(exit, ran, Release);
      PositionIsIndex(exit, ran, CloseConnector);
      PositionIsIndex(exit, ran, Unwatch);
      hide Position, Statements;
      match Statements(exit)[ran] {
        case Finish => case Unwatch => case Release => case Cancel => case CloseConnector =>
      }
    } else {
      PastTheEnd(exit, ran);
    }
  }

  lemma PastTheEnd(exit: Exit, ran: nat)
    requires ran >= |Statements(exit)|
    ensures forall a: Action :: Position(exit, a) < ran
  {
  }

  lemma UnwindRow(s: State, id: nat, written: bool)
    requires Tidy(s, id) && id in s.executions && s.executions[id].phase.Leaving?
    ensures RowFollows(s, Unwound(s, id, written), id)
  {
    var Leaving(exit, ran) := s.executions[id].phase;
    if ran < |Statements(exit)| {
      UnwindRowBy(s, id, Statements(exit)[ran], written);
    } else {
      PastTheEnd(exit, ran);
    }
  }

  /** One statement of a way out, by what it is. */
  lemma UnwindRowBy(s: State, id: nat, action: Action, written: bool)
    requires Tidy(s, id) && id in s.executions && s.executions[id].phase.Leaving?
    requires var Leaving(exit, ran) := s.executions[id].phase;
             ran < |Statements(exit)| && Statements(exit)[ran] == action
    ensures RowFollows(s, Unwound(s, id, written), id)
  {
    var Leaving(exit, ran) := s.executions[id].phase;
    PositionIsIndex(exit, ran, Finish);
    HitsOnlyFinish(ran);
    hide Position, Statements, OutcomeOf;
    if action == Finish {
    } else {
      assert SameRow(s, Unwound(s, id, written), id);
    }
  }

  lemma HitsOnlyFinish(ran: nat)
    ensures ran < |Statements(HitClosed)| ==> Statements(HitClosed)[ran] == Finish
  {
  }

  lemma UnwindFollows(s: State, id: nat, written: bool)
    requires Tidy(s, id) && id in s.executions && s.executions[id].phase.Leaving?
    ensures CountsFollow(s, Unwound(s, id, written), id) && RowFollows(s, Unwound(s, id, written), id)
  {
    UnwindCounts(s, id, written);
    UnwindRow(s, id, written);
  }

  lemma StartFollows(s: State, step: Step, id: nat)
    requires Tidy(s, id) && Apply(s, step) != s
    requires (step.Arrive? || step.ServeHit? || step.Admit? || step.Refuse?) && step.id == id
    ensures CountsFollow(s, Apply(s, step), id) && RowFollows(s, Apply(s, step), id)
  {
  }

  lemma OpenFollows(s: State, step: Step, id: nat)
    requires Tidy(s, id) && Apply(s, step) != s
    requires step.Open? && step.id == id
    ensures CountsFollow(s, Apply(s, step), id) && RowFollows(s, Apply(s, step), id)
  {
  }

  lemma LogFollows(s: State, step: Step, id: nat)
    requires Tidy(s, id) && Apply(s, step) != s
    requires step.LogStart? && step.id == id
    ensures CountsFollow(s, Apply(s, step), id) && RowFollows(s, Apply(s, step), id)
  {
  }

  lemma WatchFollows(s: State, step: Step, id: nat)
    requires Tidy(s, id) && Apply(s, step) != s
    requires step.Watch? && step.id == id
    ensures CountsFollow(s, Apply(s, step), id) && RowFollows(s, Apply(s, step), id)
  {
  }

  lemma StreamFollows(s: State, step: Step, id: nat)
    requires Tidy(s, id) && Apply(s, step) != s
    requires (step.StartStream? || step.BreakStream?) && step.id == id
    ensures CountsFollow(s, Apply(s, step), id) && RowFollows(s, Apply(s, step), id)
  {
  }

  lemma CloseFollows(s: State, step: Step, id: nat)
    requires Tidy(s, id) && Apply(s, step) != s
    requires step.Close? && step.id == id
    ensures CountsFollow(s, Apply(s, step), id) && RowFollows(s, Apply(s, step), id)
  {
  }

  lemma CancelFollows(s: State, step: Step, id: nat)
    requires Tidy(s, id) && Apply(s, step) != s
    requires (step.LeaveCaller? || step.CallCancel?) && Subject(s, step) == Some(id)
    ensures CountsFollow(s, Apply(s, step), id) && RowFollows(s, Apply(s, step), id)
  {
  }

  lemma ApplyKeepsConserved(s: State, step: Step)
    requires Conserved(s)
    ensures Conserved(Apply(s, step))
  {
    var t := Apply(s, step);
    if t != s {
      if step.FindCancel? {
        assert Holders(t, Slot) == Holders(s, Slot) && Holders(t, Connector) == Holders(s, Connector);
        assert Holders(t, Registration) == Holders(s, Registration);
        assert forall id :: RowMatches(s, id) ==> RowMatches(t, id);
      } else if step.Unwind? {
        ConservedIsTidy(s, step.id);
        UnwindFollows(s, step.id, step.written);
        FollowingKeepsConserved(s, t, step.id);
      } else {
        var id := if step.CallCancel? then s.killers[step.killer] else step.id;
        ConservedIsTidy(s, id);
        match step {
          case Arrive(_) | ServeHit(_, _) | Admit(_) | Refuse(_) => StartFollows(s, step, id);
          case Open(_, _) => OpenFollows(s, step, id);
          case LogStart(_, _) => LogFollows(s, step, id);
          case Watch(_) => WatchFollows(s, step, id);
          case StartStream(_, _) | BreakStream(_, _) => StreamFollows(s, step, id);
          case Close(_, _) => CloseFollows(s, step, id);
          case LeaveCaller(_) | CallCancel(_) => CancelFollows(s, step, id);
          case _ =>
        }
        FollowingKeepsConserved(s, t, id);
      }
    }
  }

  /** Every resource, on every path, is held by exactly the executions that are at a point where they
      hold it; so each is released exactly once, by open failures, log failures, stream failures and
      any number of closes alike. */
  lemma {:induction false} ResourcesAreConserved(steps: seq<Step>)
    ensures Conserved(Run(steps))
    decreases |steps|
  {
    if steps != [] {
      ResourcesAreConserved(steps[..|steps| - 1]);
      ApplyKeepsConserved(Run(steps[..|steps| - 1]), steps[|steps| - 1]);
    } else {
      assert Holders(Run([]), Slot) == {} && Holders(Run([]), Connector) == {} && Holders(Run([]), Registration) == {};
    }
  }

  /** Between statements, when every execution is either in its reader's hands or over: the governor's
      slots, the connectors and the registry are exactly the misses being read, and the running rows are
      exactly the executions being read, hits included, and those whose last write was lost. A hit holds
      nothing but its row. */
  lemma AtRestOnlyOpenExecutionsHold(steps: seq<Step>)
    requires forall id :: id in Run(steps).executions ==> Run(steps).executions[id].phase in {Reading, Over}
    ensures var s := Run(steps);
            var misses := set id | id in s.executions && s.executions[id].phase == Reading && !s.executions[id].hit;
            && s.slots == s.connectors == |misses| && s.monitor == misses
            && forall id :: id in s.rows && s.rows[id] == Running <==>
                 id in s.executions && (s.executions[id].phase == Reading || id in s.unwritten)
  {
    var s := Run(steps);
    ResourcesAreConserved(steps);
    var misses := set id | id in s.executions && s.executions[id].phase == Reading && !s.executions[id].hit;
    assert Holders(s, Slot) == misses;
    assert Holders(s, Connector) == misses;
    assert Holders(s, Registration) == misses;
    forall id ensures id in s.rows && s.rows[id] == Running <==>
                        id in s.executions && (s.executions[id].phase == Reading || id in s.unwritten) {
      assert RowMatches(s, id);
    }
  }

  /** Nothing is ever released that was not held. */
  lemma CountsNeverNegative(steps: seq<Step>)
    ensures Run(steps).slots >= 0 && Run(steps).connectors >= 0
  {
    ResourcesAreConserved(steps);
  }

  // The logged outcome.

  /** What a finished row says, against what happened to its execution. */
  ghost predicate OutcomeOk(s: State, id: nat) {
    id in s.rows && s.rows[id].Done? ==>
      && id in s.executions
      && var e := s.executions[id];
         var Done(outcome, seen) := s.rows[id];
         && Ended(e) && seen <= |e.cancels|
         && (outcome == Succeeded <==> e.err.None?)
         && (outcome == CanceledByKill <==> e.err.Some? && e.own && seen > 0 && e.cancels[0] == Killed)
         && (e.err == Some(OtherError) ==> outcome in {CanceledByKill, Failed})
         && (e.err == Some(CancelError) ==> outcome in {CanceledByKill, Canceled})
  }

  /** A query has a context of its own from when it is watched, and nothing can cancel one that has not;
      it decides the outcome exactly of those that got a stream. */
  predicate DerivedOk(e: Execution) {
    && (!e.derived ==> e.cancels == [] && !e.own)
    && (e.hit ==> e.err.None?)
    && match e.phase
       case Waiting | Admitted | Opened | Logged => !e.derived && e.err.None? && !e.hit
       case Watched => e.derived && !e.own && e.err.None? && !e.hit
       case Reading => (e.hit <==> !e.derived) && e.own == e.derived
       case Leaving(exit, _) =>
         (match exit
          case StreamFailed => e.derived && !e.own && e.err.Some?
          case Closed => e.derived && e.own
          case _ => !e.derived)
       case Over => true
  }

  ghost predicate OneOk(s: State, id: nat) {
    OutcomeOk(s, id) && (id in s.executions ==> DerivedOk(s.executions[id]))
  }

  /** Whoever has looked up a cancel holds one that exists. */
  ghost predicate KillersOk(s: State) {
    forall k :: k in s.killers ==> s.killers[k] in s.executions && s.executions[s.killers[k]].derived
  }

  ghost predicate Decided(s: State) {
    Conserved(s) && KillersOk(s) && forall id :: OneOk(s, id)
  }

  /** A step leaves a finished row, an ending and every cancel that came before as they were. */
  ghost predicate SettledAt(s: State, t: State, id: nat) {
    && (id in s.rows && s.rows[id].Done? ==> id in t.rows && t.rows[id] == s.rows[id])
    && (id in s.executions ==>
          && id in t.executions
          && s.executions[id].cancels <= t.executions[id].cancels
          && (s.executions[id].derived ==> t.executions[id].derived)
          && (Ended(s.executions[id]) ==> Ended(t.executions[id])))
  }

  /** The execution a step is of. */
  function Subject(s: State, step: Step): Option<nat> {
    match step
    case FindCancel(_, _) => None
    case CallCancel(killer) => if killer in s.killers then Some(s.killers[killer]) else None
    case Arrive(id) => Some(id)
    case ServeHit(id, _) => Some(id)
    case Admit(id) => Some(id)
    case Refuse(id) => Some(id)
    case Open(id, _) => Some(id)
    case LogStart(id, _) => Some(id)
    case Watch(id) => Some(id)
    case StartStream(id, _) => Some(id)
    case BreakStream(id, _) => Some(id)
    case Close(id, _) => Some(id)
    case Unwind(id, _) => Some(id)
    case LeaveCaller(id) => Some(id)
  }

  predicate SameThere(s: State, t: State, id: nat) {
    && SameRow(s, t, id)
    && (id in t.executions <==> id in s.executions)
    && (id in s.executions ==> t.executions[id] == s.executions[id])
  }

  lemma UnwoundElsewhere(s: State, of: nat, written: bool, id: nat)
    requires of in s.executions && s.executions[of].phase.Leaving? && of != id
    ensures SameThere(s, Unwound(s, of, written), id)
  {
    hide Statements;
  }

  lemma ElsewhereIsSame(s: State, step: Step, id: nat)
    requires Subject(s, step) != Some(id)
    ensures SameThere(s, Apply(s, step), id)
  {
    hide Unwound;
    if step.Unwind? && step.id in s.executions && s.executions[step.id].phase.Leaving? {
      UnwoundElsewhere(s, step.id, step.written, id);
    }
  }

  lemma SameIsSettled(s: State, t: State, id: nat)
    requires OneOk(s, id) && SameThere(s, t, id)
    ensures OneOk(t, id) && SettledAt(s, t, id)
  {
  }

  lemma SettlesElsewhere(s: State, step: Step, id: nat)
    requires OneOk(s, id) && Subject(s, step) != Some(id)
    ensures OneOk(Apply(s, step), id) && SettledAt(s, Apply(s, step), id)
  {
    ElsewhereIsSame(s, step, id);
    SameIsSettled(s, Apply(s, step), id);
  }

  lemma SettlesUnwind(s: State, id: nat, written: bool)
    requires Tidy(s, id) && OneOk(s, id) && id in s.executions && s.executions[id].phase.Leaving?
    ensures OneOk(Unwound(s, id, written), id) && SettledAt(s, Unwound(s, id, written), id)
  {
    var Leaving(exit, ran) := s.executions[id].phase;
    if ran >= |Statements(exit)| {
      PastTheEnd(exit, ran);
      hide Position, Statements, OutcomeOf;
    } else if Statements(exit)[ran] == Finish {
      SettlesFinish(s, id, written);
    } else {
      SettlesStatement(s, id, written);
    }
  }

  /** Finishing settles the outcome from what has happened by then. */
  lemma SettlesFinish(s: State, id: nat, written: bool)
    requires Tidy(s, id) && OneOk(s, id) && id in s.executions && s.executions[id].phase.Leaving?
    requires var Leaving(exit, ran) := s.executions[id].phase;
             ran < |Statements(exit)| && Statements(exit)[ran] == Finish
    ensures OneOk(Unwound(s, id, written), id) && SettledAt(s, Unwound(s, id, written), id)
  {
    var Leaving(exit, ran) := s.executions[id].phase;
    PositionIsIndex(exit, ran, Finish);
    hide Position, Statements;
  }

  /** No other statement touches a row, nor takes a cause away. */
  lemma SettlesStatement(s: State, id: nat, written: bool)
    requires Tidy(s, id) && OneOk(s, id) && id in s.executions && s.executions[id].phase.Leaving?
    requires var Leaving(exit, ran) := s.executions[id].phase;
             ran < |Statements(exit)| && Statements(exit)[ran] != Finish
    ensures OneOk(Unwound(s, id, written), id) && SettledAt(s, Unwound(s, id, written), id)
  {
    var Leaving(exit, ran) := s.executions[id].phase;
    PositionIsIndex(exit, ran, Finish);
    hide Position, Statements, OutcomeOf, CauseOf;
  }

  lemma SettlesStart(s: State, step: Step, id: nat)
    requires Tidy(s, id) && OneOk(s, id) && Subject(s, step) == Some(id)
    requires step.Arrive? || step.ServeHit? || step.Admit? || step.Refuse? || step.Open?
    ensures OneOk(Apply(s, step), id) && SettledAt(s, Apply(s, step), id)
  {
  }

  lemma SettlesStream(s: State, step: Step, id: nat)
    requires Tidy(s, id) && OneOk(s, id) && Subject(s, step) == Some(id)
    requires step.LogStart? || step.Watch? || step.StartStream? || step.BreakStream? || step.Close?
    ensures OneOk(Apply(s, step), id) && SettledAt(s, Apply(s, step), id)
  {
  }

  lemma SettlesCancel(s: State, step: Step, id: nat)
    requires Tidy(s, id) && KillersOk(s) && OneOk(s, id) && Subject(s, step) == Some(id)
    requires step.LeaveCaller? || step.CallCancel?
    ensures OneOk(Apply(s, step), id) && SettledAt(s, Apply(s, step), id)
  {
  }

  lemma ApplySettles(s: State, step: Step, id: nat)
    requires Decided(s)
    ensures OneOk(Apply(s, step), id) && SettledAt(s, Apply(s, step), id)
  {
    assert OneOk(s, id);
    ConservedIsTidy(s, id);
    if Subject(s, step) != Some(id) {
      SettlesElsewhere(s, step, id);
    } else {
      match step {
        case Unwind(_, written) =>
          if id in s.executions && s.executions[id].phase.Leaving? {
            SettlesUnwind(s, id, written);
          }
        case Arrive(_) | ServeHit(_, _) | Admit(_) | Refuse(_) | Open(_, _) => SettlesStart(s, step, id);
        case LeaveCaller(_) | CallCancel(_) => SettlesCancel(s, step, id);
        case _ => SettlesStream(s, step, id);
      }
    }
  }

  /** The registry names only queries with a context of their own. */
  lemma RegisteredIsDerived(s: State, id: nat)
    requires Decided(s) && id in s.monitor
    ensures id in s.executions && s.executions[id].derived
  {
    assert id in Holders(s, Registration);
    assert OneOk(s, id) && HitHoldsNothing(s.executions[id]);
  }

  lemma KillersComeFrom(s: State, step: Step, k: nat)
    requires k in Apply(s, step).killers
    ensures var id := Apply(s, step).killers[k]; (k in s.killers && s.killers[k] == id) || id in s.monitor
  {
    hide Statements, OutcomeOf;
  }

  lemma ApplyKeepsKillers(s: State, step: Step, k: nat)
    requires Decided(s) && k in Apply(s, step).killers
    ensures var t := Apply(s, step); t.killers[k] in t.executions && t.executions[t.killers[k]].derived
  {
    hide Apply, OneOk, Conserved;
    var id := Apply(s, step).killers[k];
    KillersComeFrom(s, step, k);
    if k !in s.killers || s.killers[k] != id {
      RegisteredIsDerived(s, id);
    }
    ApplySettles(s, step, id);
  }

  lemma ApplyKeepsDecided(s: State, step: Step)
    requires Decided(s)
    ensures Decided(Apply(s, step))
  {
    var t := Apply(s, step);
    ApplyKeepsConserved(s, step);
    forall id ensures OneOk(t, id) {
      ApplySettles(s, step, id);
    }
    forall k | k in t.killers ensures t.killers[k] in t.executions && t.executions[t.killers[k]].derived {
      ApplyKeepsKillers(s, step, k);
    }
  }

  lemma {:induction false} RunIsDecided(steps: seq<Step>)
    ensures Decided(Run(steps))
    decreases |steps|
  {
    if steps == [] {
      ResourcesAreConserved([]);
    } else {
      RunIsDecided(steps[..|steps| - 1]);
      ApplyKeepsDecided(Run(steps[..|steps| - 1]), steps[|steps| - 1]);
    }
  }

  lemma SettledTwice(s: State, t: State, u: State, id: nat)
    requires SettledAt(s, t, id) && SettledAt(t, u, id)
    ensures SettledAt(s, u, id)
  {
    hide Ended;
  }

  lemma NothingSettles(s: State, id: nat)
    ensures SettledAt(s, s, id)
  {
  }

  /** However a run is continued, a finished row stays as it is: it is finished once, and no kill and no
      departure after it changes what it says. The causes already given stay first. */
  lemma {:induction false} FinishedRowsAreFinal(steps: seq<Step>, more: seq<Step>, id: nat)
    ensures SettledAt(Run(steps), Run(steps + more), id)
    decreases |more|
  {
    hide Run, Apply, Decided, SettledAt;
    if more == [] {
      assert steps + more == steps;
      NothingSettles(Run(steps), id);
    } else {
      var init, last := more[..|more| - 1], more[|more| - 1];
      FinishedRowsAreFinal(steps, init, id);
      assert steps + more == steps + init + [last];
      Then(steps + init, last);
      RunIsDecided(steps + init);
      ApplySettles(Run(steps + init), last, id);
      SettledTwice(Run(steps), Run(steps + init), Run(steps + more), id);
    }
  }

  /** What a finished row has to say of its execution. */
  predicate FirstCauseDecides(e: Execution, outcome: Outcome, seen: nat) {
    && (outcome == Succeeded <==> e.err.None?)
    && (outcome == CanceledByKill <==>
          e.err.Some? && e.own && seen > 0 && |e.cancels| > 0 && e.cancels[0] == Killed)
    && (outcome == Canceled <==> outcome != CanceledByKill && e.err == Some(CancelError))
    && (outcome == Failed <==> outcome != CanceledByKill && e.err == Some(OtherError))
    && (e.hit ==> outcome == Succeeded)
  }

  lemma RowSays(s: State, id: nat)
    requires OneOk(s, id) && id in s.rows && s.rows[id].Done?
    ensures id in s.executions && FirstCauseDecides(s.executions[id], s.rows[id].outcome, s.rows[id].seen)
  {
    assert DerivedOk(s.executions[id]);
    match s.executions[id].err {
      case None =>
      case Some(CancelError) =>
      case Some(OtherError) =>
    }
  }

  /** The logged outcome is decided by the first cause. In every run a finished row says the query
      succeeded exactly when neither its stream nor the close of it failed; that it was killed exactly when
      it failed and, of everything that cancelled the context it ran under, a kill was the first and came
      before the row was finished; and otherwise that it was cancelled or failed, by the kind of failure.
      A query that never got a stream is finished through its caller's context, so it is never logged as
      killed; and a hit always succeeds. */
  lemma OutcomeIsTheFirstCause(steps: seq<Step>, id: nat)
    requires id in Run(steps).rows && Run(steps).rows[id].Done?
    ensures id in Run(steps).executions
    ensures FirstCauseDecides(Run(steps).executions[id], Run(steps).rows[id].outcome, Run(steps).rows[id].seen)
  {
    RunIsDecided(steps);
    RowSays(Run(steps), id);
  }

  // The same, by the order of the steps alone.

  /** What a step does to end a query's context, if anything. */
  function Ends(s: State, step: Step, id: nat): Option<Cause> {
    match step
    case LeaveCaller(i) => if i == id && id in s.executions then Some(CallerLeft) else None
    case CallCancel(killer) =>
      if killer in s.killers && s.killers[killer] == id && id in s.executions then Some(Killed) else None
    case Unwind(i, _) =>
      if i == id && id in s.executions && s.executions[id].phase.Leaving?
         && s.executions[id].phase.ran < |Statements(s.executions[id].phase.exit)|
         && Statements(s.executions[id].phase.exit)[s.executions[id].phase.ran] == Cancel
      then Some(ClosedUp) else None
    case _ => None
  }

  /** The first that did. */
  function CauseIn(steps: seq<Step>, id: nat): Option<Cause> {
    if steps == [] then None
    else
      var init := steps[..|steps| - 1];
      if CauseIn(init, id).Some? then CauseIn(init, id) else Ends(Run(init), steps[|steps| - 1], id)
  }

  /** How a step fails a query, if it does: its stream could not be had, broke, or could not be closed. */
  function Fails(s: State, step: Step, id: nat): Option<Failure> {
    match step
    case StartStream(i, err) => if i == id && At(s, id, Watched) then err else None
    case BreakStream(i, failure) =>
      if i == id && At(s, id, Reading) && !s.executions[id].hit then Some(failure) else None
    case Close(i, err) => if i == id && At(s, id, Reading) && !s.executions[id].hit then err else None
    case _ => None
  }

  function FailureIn(steps: seq<Step>, id: nat): Option<Failure> {
    if steps == [] then None
    else
      var init := steps[..|steps| - 1];
      if FailureIn(init, id).Some? then FailureIn(init, id) else Fails(Run(init), steps[|steps| - 1], id)
  }

  /** What has been recorded of an execution, against what the steps did to it. */
  predicate Recalls(s: State, id: nat, cause: Option<Cause>, failure: Option<Failure>) {
    if id !in s.executions then cause.None? && failure.None?
    else
      var e := s.executions[id];
      && e.err == failure
      && (e.derived ==> cause == if e.cancels == [] then None else Some(e.cancels[0]))
      && (!e.derived ==> cause == if e.callerLeft then Some(CallerLeft) else None)
      && (e.callerLeft ==> cause.Some?)
  }

  function Sooner<T>(first: Option<T>, next: Option<T>): Option<T> {
    if first.Some? then first else next
  }

  lemma UnwindRecalls(s: State, id: nat, written: bool, cause: Option<Cause>, failure: Option<Failure>)
    requires Recalls(s, id, cause, failure) && id in s.executions && s.executions[id].phase.Leaving?
    requires DerivedOk(s.executions[id])
    ensures Recalls(Unwound(s, id, written), id, Sooner(cause, Ends(s, Unwind(id, written), id)), failure)
  {
    var Leaving(exit, ran) := s.executions[id].phase;
    CancelIsOwn(exit, ran);
    hide OutcomeOf, Statements, Position;
  }

  /** Only a query with a context of its own cancels it on its way out. */
  lemma CancelIsOwn(exit: Exit, ran: nat)
    ensures ran < |Statements(exit)| && Statements(exit)[ran] == Cancel ==> exit == StreamFailed || exit == Closed
  {
  }

  lemma StepRecalls(s: State, step: Step, id: nat, cause: Option<Cause>, failure: Option<Failure>)
    requires Decided(s) && Recalls(s, id, cause, failure)
    ensures Recalls(Apply(s, step), id, Sooner(cause, Ends(s, step, id)), Sooner(failure, Fails(s, step, id)))
  {
    assert OneOk(s, id);
    if Subject(s, step) != Some(id) {
      ElsewhereIsSame(s, step, id);
    } else {
      hide Unwound, OutcomeOf, Conserved, OutcomeOk;
      match step {
        case Unwind(_, written) =>
          if id in s.executions && s.executions[id].phase.Leaving? {
            UnwindRecalls(s, id, written, cause, failure);
          }
        case CallCancel(_) | LeaveCaller(_) | Watch(_) => CancelRecalls(s, step, id, cause, failure);
        case _ => OtherRecalls(s, step, id, cause, failure);
      }
    }
  }

  lemma CancelRecalls(s: State, step: Step, id: nat, cause: Option<Cause>, failure: Option<Failure>)
    requires KillersOk(s) && Recalls(s, id, cause, failure) && (id in s.executions ==> DerivedOk(s.executions[id]))
    requires (step.CallCancel? || step.LeaveCaller? || step.Watch?) && Subject(s, step) == Some(id)
    ensures Recalls(Apply(s, step), id, Sooner(cause, Ends(s, step, id)), Sooner(failure, Fails(s, step, id)))
  {
    hide Statements, Unwound;
  }

  lemma OtherRecalls(s: State, step: Step, id: nat, cause: Option<Cause>, failure: Option<Failure>)
    requires Recalls(s, id, cause, failure) && (id in s.executions ==> DerivedOk(s.executions[id]))
    requires !step.CallCancel? && !step.LeaveCaller? && !step.Watch? && !step.Unwind? && Subject(s, step) == Some(id)
    ensures Recalls(Apply(s, step), id, Sooner(cause, Ends(s, step, id)), Sooner(failure, Fails(s, step, id)))
  {
    hide Statements, Unwound;
  }

  lemma {:induction false} RunRecalls(steps: seq<Step>, id: nat)
    ensures Recalls(Run(steps), id, CauseIn(steps, id), FailureIn(steps, id))
    decreases |steps|
  {
    if steps != [] {
      var init, last := steps[..|steps| - 1], steps[|steps| - 1];
      RunRecalls(init, id);
      RunIsDecided(init);
      StepRecalls(Run(init), last, id, CauseIn(init, id), FailureIn(init, id));
    }
  }

  /** What the row of a query is to say, by the way it went out. */
  function Verdict(exit: Exit, failure: Option<Failure>, cause: Option<Cause>): Outcome {
    if failure.None? then Succeeded
    else if exit == Closed && cause == Some(Killed) then CanceledByKill
    else if failure == Some(CancelError) then Canceled
    else Failed
  }

  /** Over every run, the row a query finishes says what the steps so far make of it: of everything that ended its
      context, whichever came first, and whether a kill, counts; and of everything that failed it, the first. */
  lemma FinishRecordsTheFirstCause(steps: seq<Step>, id: nat)
    requires id in Run(steps).executions && Run(steps).executions[id].phase.Leaving?
    requires var Leaving(exit, ran) := Run(steps).executions[id].phase;
             ran < |Statements(exit)| && Statements(exit)[ran] == Finish
    ensures var t := Run(steps + [Unwind(id, true)]);
            && id in t.rows && t.rows[id].Done?
            && t.rows[id].outcome
            == Verdict(Run(steps).executions[id].phase.exit, FailureIn(steps, id), CauseIn(steps, id))
  {
    hide Run, CauseIn, FailureIn, Conserved, Recalls, Apply, Verdict;
    Then(steps, Unwind(id, true));
    RunRecalls(steps, id);
    RunIsDecided(steps);
    assert OneOk(Run(steps), id);
    FinishSays(Run(steps), id, CauseIn(steps, id), FailureIn(steps, id));
  }

  lemma FinishSays(s: State, id: nat, cause: Option<Cause>, failure: Option<Failure>)
    requires Recalls(s, id, cause, failure) && id in s.executions && DerivedOk(s.executions[id])
    requires s.executions[id].phase.Leaving?
    requires var Leaving(exit, ran) := s.executions[id].phase;
             ran < |Statements(exit)| && Statements(exit)[ran] == Finish
    ensures var t := Apply(s, Unwind(id, true));
            && id in t.rows && t.rows[id].Done?
            && t.rows[id].outcome == Verdict(s.executions[id].phase.exit, failure, cause)
  {
  }

  lemma {:induction false} CauseStays(steps: seq<Step>, more: seq<Step>, id: nat)
    requires CauseIn(steps, id).Some?
    ensures CauseIn(steps + more, id) == CauseIn(steps, id)
    decreases |more|
  {
    if more == [] {
      assert steps + more == steps;
    } else {
      CauseStays(steps, more[..|more| - 1], id);
      assert (steps + more)[..|steps + more| - 1] == steps + more[..|more| - 1];
    }
  }

  /** So a kill that lands after its caller has left is never what the row says: the first cause stands. */
  lemma LateKillChangesNothing(steps: seq<Step>, more: seq<Step>, id: nat)
    requires id in Run(steps).executions && CauseIn(steps, id) != Some(Killed)
    requires var all := steps + [LeaveCaller(id)] + more; id in Run(all).rows && Run(all).rows[id].Done?
    ensures Run(steps + [LeaveCaller(id)] + more).rows[id].outcome != CanceledByKill
  {
    var left := steps + [LeaveCaller(id)];
    assert left[..|steps|] == steps;
    CauseStays(left, more, id);
    RunRecalls(left + more, id);
    RunIsDecided(left + more);
    assert OneOk(Run(left + more), id);
    OutcomeIsTheFirstCause(left + more, id);
    hide Run, FailureIn;
  }

  /** And one that lands before anything else has ended the context of a query being read, whose row is not
      finished, is what the row says once the query has failed of it. */
  lemma FirstKillIsLogged(steps: seq<Step>, killer: nat, more: seq<Step>, id: nat)
    requires CauseIn(steps, id).None? && id in Run(steps).executions
    requires killer in Run(steps).killers && Run(steps).killers[killer] == id
    requires var all := steps + [CallCancel(killer)] + more;
             && id in Run(all).executions && FailureIn(all, id).Some?
             && var phase := Run(all).executions[id].phase; phase == Leaving(Closed, 0)
    ensures var t := Run(steps + [CallCancel(killer)] + more + [Unwind(id, true)]);
            id in t.rows && t.rows[id].Done? && t.rows[id].outcome == CanceledByKill
  {
    var killed := steps + [CallCancel(killer)];
    assert killed[..|steps|] == steps;
    CauseStays(killed, more, id);
    FinishRecordsTheFirstCause(killed + more, id);
  }

  lemma Then(steps: seq<Step>, step: Step)
    ensures Run(steps + [step]) == Apply(Run(steps), step)
  {
    assert (steps + [step])[..|steps|] == steps;
  }

  /** A query that has been sent, and not yet let go of, can be killed: whoever looks its cancel up and calls it
      cancels it. */
  lemma AKillReaches(steps: seq<Step>, killer: nat, id: nat)
    requires At(Run(steps), id, Watched) || (At(Run(steps), id, Reading) && !Run(steps).executions[id].hit)
    ensures var t := Run(steps + [FindCancel(killer, id)] + [CallCancel(killer)]);
            id in t.executions && t.executions[id].cancels == Run(steps).executions[id].cancels + [Killed]
  {
    hide Run, Conserved, Apply;
    ResourcesAreConserved(steps);
    ConservedIsTidy(Run(steps), id);
    Then(steps, FindCancel(killer, id));
    Then(steps + [FindCancel(killer, id)], CallCancel(killer));
    FoundAndCalled(Run(steps), killer, id);
  }

  lemma FoundAndCalled(s: State, killer: nat, id: nat)
    requires id in s.monitor && id in s.executions
    ensures var t := Apply(Apply(s, FindCancel(killer, id)), CallCancel(killer));
            id in t.executions && t.executions[id].cancels == s.executions[id].cancels + [Killed]
  {
    hide Unwound, OutcomeOf;
  }

  /** And one that is on its way out gets there by its own statements alone. */
  lemma {:induction false} WaysOutEnd(steps: seq<Step>, id: nat, exit: Exit, ran: nat) returns (more: seq<Step>)
    requires At(Run(steps), id, Leaving(exit, ran))
    ensures ran <= |Statements(exit)| ==> |more| == |Statements(exit)| - ran + 1
    ensures forall i :: 0 <= i < |more| ==> more[i] == Unwind(id, true)
    ensures At(Run(steps + more), id, Over)
    decreases |Statements(exit)| - ran
  {
    hide Run;
    Then(steps, Unwind(id, true));
    more := [Unwind(id, true)];
    if ran < |Statements(exit)| {
      var rest := WaysOutEnd(steps + more, id, exit, ran + 1);
      assert steps + more + rest == steps + (more + rest);
      more := more + rest;
    }
  }

  const STARTED := Execution(false, Watched, None, false, true, [], false)
  const STOPPED := Execution(false, Leaving(StreamFailed, 0), Some(CancelError), false, true, [Killed], false)

  lemma EmptyRun()
    ensures Run([]) == State(0, 0, {}, map[], {}, map[], map[])
  {
  }

  lemma AdmittedRun(id: nat) returns (steps: seq<Step>)
    ensures Run(steps) == State(1, 0, {}, map[], {}, map[], map[id := STARTED.(phase := Admitted, derived := false)])
  {
    hide Run;
    EmptyRun();
    var s1 := [] + [Arrive(id)];
    steps := s1 + [Admit(id)];
    Then([], Arrive(id));
    assert Run(s1) == State(0, 0, {}, map[], {}, map[], map[id := STARTED.(phase := Waiting, derived := false)]);
    Then(s1, Admit(id));
  }

  lemma StartingRun(id: nat) returns (steps: seq<Step>)
    ensures Run(steps) == State(1, 1, {id}, map[id := Running], {}, map[], map[id := STARTED])
  {
    hide Run;
    var s0 := AdmittedRun(id);
    var s1 := s0 + [Open(id, true)];
    var s2 := s1 + [LogStart(id, true)];
    steps := s2 + [Watch(id)];
    Then(s0, Open(id, true));
    Then(s1, LogStart(id, true));
    Then(s2, Watch(id));
  }

  lemma KilledRun(id: nat, steps: seq<Step>) returns (more: seq<Step>)
    requires Run(steps) == State(1, 1, {id}, map[id := Running], {}, map[], map[id := STARTED])
    ensures Run(more) == State(1, 1, {id}, map[id := Running], {}, map[], map[id := STOPPED])
  {
    hide Run;
    var s1 := steps + [FindCancel(7, id)];
    var s2 := s1 + [CallCancel(7)];
    more := s2 + [StartStream(id, Some(CancelError))];
    Then(steps, FindCancel(7, id));
    Then(s1, CallCancel(7));
    var held: map<nat, nat> := map[][7 := id];
    assert held[7] == id && held - {7} == map[];
    assert [] + [Killed] == [Killed];
    assert Run(s1).killers == held;
    assert Run(s2) == State(1, 1, {id}, map[id := Running], {}, map[], map[id := STARTED.(cancels := [Killed])]);
    Then(s2, StartStream(id, Some(CancelError)));
  }

  /** A kill that lands while the source is still deciding whether to answer reaches the query, and is
      logged as an ordinary cancellation. */
  lemma KillWhileStartingIsLoggedAsCancel(id: nat)
    ensures exists steps: seq<Step> ::
              && id in Run(steps).executions && Run(steps).executions[id].cancels == [Killed, ClosedUp]
              && id in Run(steps).rows && Run(steps).rows[id] == Done(Canceled, 2)
  {
    hide Run;
    var s0 := StartingRun(id);
    var s1 := KilledRun(id, s0);
    var s2 := s1 + [Unwind(id, true)];
    var s3 := s2 + [Unwind(id, true)];
    Then(s1, Unwind(id, true));
    Then(s2, Unwind(id, true));
    var e := STOPPED.(phase := Leaving(StreamFailed, 2), cancels := [Killed, ClosedUp]);
    assert {id} - {id} == {} && [Killed] + [ClosedUp] == [Killed, ClosedUp];
    assert Run(s3) == State(1, 1, {}, map[id := Running], {}, map[], map[id := e]);
    Then(s3, Unwind(id, true));
    assert OutcomeOf(e) == Canceled;
    assert id in Run(s3 + [Unwind(id, true)]).executions;
  }
}
