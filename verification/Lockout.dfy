/** Lockouts: a window that doubles with every failure past the threshold, up to a cap, and how far apart
    that keeps guesses at one address when logins overlap, writes are lost and old records are swept. */
module Lockout {
  import opened Common

  datatype Policy = Policy(threshold: nat, base: nat, cap: nat)

  /** What configuration validation leaves possible. */
  predicate Valid(p: Policy) {
    p.threshold >= 1 && 0 < p.base <= p.cap
  }

  function Doubled(n: nat): nat
    ensures Doubled(n) > 0
  {
    if n == 0 then 1 else 2 * Doubled(n - 1)
  }

  /** The base doubled with every failure past the threshold, under the cap. */
  function Window(p: Policy, failures: nat): nat
    requires failures >= p.threshold
  {
    Min(p.base * Doubled(failures - p.threshold), p.cap)
  }

  lemma {:induction false} DoubledGrows(m: nat, n: nat)
    requires m <= n
    ensures Doubled(m) <= Doubled(n)
    decreases n
  {
    if m < n {
      DoubledGrows(m, n - 1);
    }
  }

  lemma ScaledGrows(base: nat, m: nat, n: nat)
    requires m <= n
    ensures base * Doubled(m) <= base * Doubled(n)
  {
    DoubledGrows(m, n);
    ScalesUp(base, Doubled(m), Doubled(n));
  }

  lemma ScalesUp(base: nat, x: nat, y: nat)
    requires x <= y
    ensures base * x <= base * y
  {
    assert base * y - base * x == base * (y - x);
  }

  /** The doubling loop, with its early stop. A policy that validation would reject, its base beyond its
      cap, is where the loop and the window part: the first lockout is then the base itself. */
  method LockoutFor(p: Policy, failures: nat) returns (lockout: nat)
    requires failures >= p.threshold
    ensures lockout == Window(p, failures) <==> p.base <= p.cap || failures > p.threshold
    ensures failures == p.threshold ==> lockout == p.base
  {
    var excess := failures - p.threshold;
    lockout := p.base;
    var i := 0;
    while i < excess
      invariant i <= excess
      invariant lockout == p.base * Doubled(i)
      invariant i > 0 ==> lockout < p.cap
    {
      lockout := lockout * 2;
      i := i + 1;
      if lockout >= p.cap {
        ScaledGrows(p.base, i, excess);
        lockout := p.cap;
        return;
      }
    }
  }

  /** The first window is the base, and each is twice the one before, under the cap. */
  lemma WindowDoubles(p: Policy, failures: nat)
    requires failures >= p.threshold
    ensures Window(p, p.threshold) == Min(p.base, p.cap)
    ensures Window(p, failures + 1) == Min(2 * Window(p, failures), p.cap)
  {
    var d := Doubled(failures - p.threshold);
    assert p.base * (2 * d) == 2 * (p.base * d);
    assert Doubled(0) == 1;
  }

  /** More failures never shorten the window. */
  lemma WindowGrows(p: Policy, f: nat, g: nat)
    requires p.threshold <= f <= g
    ensures Window(p, f) <= Window(p, g)
  {
    ScaledGrows(p.base, f - p.threshold, g - p.threshold);
  }

  lemma WindowAtLeastBase(p: Policy, failures: nat)
    requires Valid(p) && failures >= p.threshold
    ensures Window(p, failures) >= p.base
  {
    WindowGrows(p, p.threshold, failures);
    assert Doubled(0) == 1;
  }

  // The record of an address, and the statements that change it.

  datatype Attempt = Attempt(failed: nat, lastFailed: int, lockedUntil: Option<int>)

  type Attempts = map<string, Attempt>

  datatype Answer = Locked | Refused | LoggedIn | Broken

  /** What there is behind an address: no scope to look in, nothing that can be read, or an account (or none)
      against which the password is wrong or right. */
  datatype Found = Unscoped | Unreadable | Incorrect | Correct

  predicate IsLocked(attempts: Attempts, email: string, now: int) {
    email in attempts && attempts[email].lockedUntil.Some? && attempts[email].lockedUntil.value > now
  }

  function FailuresOf(attempts: Attempts, email: string): nat {
    if email in attempts then attempts[email].failed else 0
  }

  /** One more failure on record; the record is unlocked by it. */
  function Failed(attempts: Attempts, email: string, at: int): Attempts {
    attempts[email := Attempt(FailuresOf(attempts, email) + 1, at, None)]
  }

  /** A lock on the record, if there still is one. */
  function LockedTill(attempts: Attempts, email: string, until: int): Attempts {
    if email in attempts then attempts[email := attempts[email].(lockedUntil := Some(until))] else attempts
  }

  /** An old record that is not under a lock. */
  predicate Stale(a: Attempt, now: int, retain: nat) {
    a.lastFailed < now - retain && (a.lockedUntil.None? || a.lockedUntil.value < now)
  }

  function SweptOf(attempts: Attempts, now: int, retain: nat): Attempts {
    map email | email in attempts && !Stale(attempts[email], now, retain) :: attempts[email]
  }

  /** Recording a failure and locking on it, when both writes succeed. */
  function Punished(p: Policy, attempts: Attempts, email: string, now: int): Attempts {
    var n := FailuresOf(attempts, email) + 1;
    if n < p.threshold then Failed(attempts, email, now)
    else LockedTill(Failed(attempts, email, now), email, now + Window(p, n))
  }

  /** What one login leaves on record when nothing else happens at the same time; `first` and `second` say which
      of its writes succeed. */
  function AfterLogin(p: Policy, attempts: Attempts, email: string, now: int, readable: bool, found: Found,
                      first: bool, second: bool): Attempts {
    if !readable || IsLocked(attempts, email, now) || !first then attempts
    else if found.Correct? then attempts - {email}
    else if !found.Incorrect? then attempts
    else if second then Punished(p, attempts, email, now)
    else Failed(attempts, email, now)
  }

  class Service {
    const policy: Policy
    var attempts: Attempts

    constructor (policy: Policy)
      ensures this.policy == policy && attempts == map[]
    {
      this.policy, attempts := policy, map[];
    }

    /** One more failure is on record, from now, under a lock from the threshold on; no other record changed. */
    predicate HasFailed(was: Attempts, attempts: Attempts, email: string, now: int, locked: bool)
      requires Valid(policy)
    {
      && email in attempts && attempts - {email} == was - {email}
      && attempts[email].failed == (if email in was then was[email].failed else 0) + 1
      && attempts[email].lastFailed == now
      && attempts[email].lockedUntil ==
         if locked && attempts[email].failed >= policy.threshold
         then Some(now + Window(policy, attempts[email].failed)) else None
    }

    /** Counts a failure and locks from the threshold on. Either write may fail, and neither is the
        caller's problem. */
    method RecordFailure(email: string, now: int, counted: bool, locked: bool)
      requires Valid(policy)
      modifies this`attempts
      ensures !counted ==> attempts == old(attempts)
      ensures counted ==> HasFailed(old(attempts), attempts, email, now, locked)
      ensures attempts ==
              if !counted then old(attempts)
              else if locked then Punished(policy, old(attempts), email, now)
              else Failed(old(attempts), email, now)
    {
      if !counted {
        return;
      }
      var failed := (if email in attempts then attempts[email].failed else 0) + 1;
      attempts := attempts[email := Attempt(failed, now, None)];
      if failed < policy.threshold {
        return;
      }
      var lockout := LockoutFor(policy, failed);
      if locked {
        attempts := attempts[email := attempts[email].(lockedUntil := Some(now + lockout))];
      }
    }

    /** One login with nothing else at the same time. A locked address is refused before its password is
        looked at, and what cannot be looked at is not counted. */
    method Login(email: string, now: int, readable: bool, found: Found, first: bool, second: bool)
      returns (answer: Answer)
      requires Valid(policy)
      modifies this`attempts
      ensures var locked := email in old(attempts) && old(attempts)[email].lockedUntil.Some?
                            && now < old(attempts)[email].lockedUntil.value;
              && (answer == Locked <==> readable && locked)
              && (answer == LoggedIn <==> readable && !locked && found.Correct?)
              && (answer == Broken <==> !readable || (!locked && found.Unreadable?))
      ensures answer == LoggedIn ==> attempts == if first then old(attempts) - {email} else old(attempts)
      ensures answer == Refused && found.Incorrect? && first ==> HasFailed(old(attempts), attempts, email, now, second)
      ensures !(answer == LoggedIn || (answer == Refused && found.Incorrect? && first)) ==> attempts == old(attempts)
      ensures attempts == AfterLogin(policy, old(attempts), email, now, readable, found, first, second)
    {
      if !readable {
        return Broken;
      }
      if email in attempts && attempts[email].lockedUntil.Some? && attempts[email].lockedUntil.value > now {
        return Locked;
      }
      if found.Unscoped? {
        return Refused;
      }
      if found.Unreadable? {
        return Broken;
      }
      if found.Incorrect? {
        RecordFailure(email, now, first, second);
        return Refused;
      }
      if first {
        attempts := attempts - {email};
      }
      return LoggedIn;
    }

    /** Drops the old records that are not under a lock. */
    method Sweep(now: int, retain: nat)
      modifies this`attempts
      ensures attempts == SweptOf(old(attempts), now, retain)
      ensures forall email :: email in attempts ==> email in old(attempts) && attempts[email] == old(attempts)[email]
      ensures forall email :: email in old(attempts) ==>
                var a := old(attempts)[email];
                (email !in attempts <==>
                   a.lastFailed < now - retain && (a.lockedUntil.None? || a.lockedUntil.value < now))
    {
      attempts := map email | email in attempts && !Stale(attempts[email], now, retain) :: attempts[email];
    }
  }

  // Logins at once. A login reads the clock, the lock, the account and the password, and then counts and
  // locks or clears; between any two of these anything else may happen. All it writes is dated by the
  // clock it read.

  datatype Stage = Begun | Checked | Wrong | Right | Counted(failures: nat)

  datatype Request = Request(email: string, at: int, stage: Stage)

  /** A stretch of time in which some login of an address was under way and a wrong password was looked at:
      when the stretch began, and when the login began whose password was the first. */
  datatype Round = Round(began: int, first: int)

  /** What has happened to an address: when a login of it last began with no other under way, and whether a
      wrong password has been looked at since; and, since it was last forgotten, its rounds, when each login
      began whose wrong password was looked at, and how many failures were not counted or not locked on. */
  datatype Past = Past(began: int, open: bool, rounds: seq<Round>, looked: seq<int>, lost: nat)

  const NOTHING := Past(0, false, [], [], 0)

  /** `past` is history. */
  datatype State = State(now: int, attempts: Attempts, pending: map<nat, Request>, past: map<string, Past>)

  const START := State(0, map[], map[], map[])

  /** A sweep works with a clock read some time ago. */
  datatype Step =
    | Tick(elapsed: nat)
    | Begin(id: nat, email: string)
    | Check(id: nat)
    | Abandon(id: nat)
    | Look(id: nat, correct: bool)
    | Count(id: nat, written: bool)
    | Lock(id: nat, written: bool)
    | Clear(id: nat, written: bool)
    | Sweep(ago: nat, retain: nat)

  /** The logins of an address that are under way. */
  function Of(s: State, email: string): set<nat> {
    set id | id in s.pending && s.pending[id].email == email
  }

  /** A failure of the address has yet to be counted or locked on. */
  predicate Owing(s: State, email: string) {
    exists id :: id in Of(s, email) && Owes(s, id)
  }

  predicate Owes(s: State, id: nat) {
    id in s.pending && (s.pending[id].stage.Wrong? || s.pending[id].stage.Counted?)
  }

  function PastOf(s: State, email: string): Past {
    if email in s.past then s.past[email] else NOTHING
  }

  predicate At(s: State, id: nat, stage: Stage) {
    id in s.pending && s.pending[id].stage == stage
  }

  function Done(s: State, id: nat): State {
    s.(pending := s.pending - {id})
  }

  function Moved(s: State, id: nat, stage: Stage): State
    requires id in s.pending
  {
    s.(pending := s.pending[id := s.pending[id].(stage := stage)])
  }

  function Recall(s: State, email: string, past: Past): State {
    s.(past := s.past[email := past])
  }

  function Lose(s: State, email: string): State {
    Recall(s, email, PastOf(s, email).(lost := PastOf(s, email).lost + 1))
  }

  /** What is left of a past when its address is forgotten. */
  function Forgotten(past: Past): Past {
    past.(open := true, rounds := [], looked := [], lost := 0)
  }

  function BeginStep(s: State, id: nat, email: string): State {
    if id in s.pending then s
    else
      var begun := s.(pending := s.pending[id := Request(email, s.now, Begun)]);
      if Of(s, email) != {} then begun
      else Recall(begun, email, PastOf(s, email).(began := s.now, open := false))
  }

  function CheckStep(s: State, id: nat): State {
    if !At(s, id, Begun) then s
    else if IsLocked(s.attempts, s.pending[id].email, s.pending[id].at) then Done(s, id)
    else Moved(s, id, Checked)
  }

  /** The lock, or the account, could not be read. */
  function AbandonStep(s: State, id: nat): State {
    if At(s, id, Begun) || At(s, id, Checked) then Done(s, id) else s
  }

  function LookStep(s: State, id: nat, correct: bool): State {
    if !At(s, id, Checked) then s
    else if correct then Moved(s, id, Right)
    else
      var r := s.pending[id];
      var past := PastOf(s, r.email);
      var rounds := if past.open then past.rounds else past.rounds + [Round(past.began, r.at)];
      Recall(Moved(s, id, Wrong), r.email, past.(open := true, rounds := rounds, looked := past.looked + [r.at]))
  }

  function CountStep(p: Policy, s: State, id: nat, written: bool): State {
    if !At(s, id, Wrong) then s
    else
      var r := s.pending[id];
      if !written then Lose(Done(s, id), r.email)
      else
        var n := FailuresOf(s.attempts, r.email) + 1;
        (if n < p.threshold then Done(s, id) else Moved(s, id, Counted(n)))
        .(attempts := Failed(s.attempts, r.email, r.at))
  }

  function LockStep(p: Policy, s: State, id: nat, written: bool): State {
    if id !in s.pending || !s.pending[id].stage.Counted? || s.pending[id].stage.failures < p.threshold then s
    else
      var r := s.pending[id];
      if !written then Lose(Done(s, id), r.email)
      else Done(s, id).(attempts := LockedTill(s.attempts, r.email, r.at + Window(p, r.stage.failures)))
  }

  function ClearStep(s: State, id: nat, written: bool): State {
    if !At(s, id, Right) then s
    else if !written then Done(s, id)
    else
      var email := s.pending[id].email;
      Recall(Done(s, id), email, Forgotten(PastOf(s, email))).(attempts := s.attempts - {email})
  }

  /** Sweeping a record forgets its address. */
  function SweepStep(s: State, ago: nat, retain: nat): State {
    var kept := SweptOf(s.attempts, s.now - ago, retain);
    s.(attempts := kept,
       past := map email | email in s.past ::
         if email in s.attempts && email !in kept then Forgotten(s.past[email]) else s.past[email])
  }

  function Apply(p: Policy, s: State, step: Step): State {
    match step
    case Tick(elapsed) => s.(now := s.now + elapsed)
    case Begin(id, email) => BeginStep(s, id, email)
    case Check(id) => CheckStep(s, id)
    case Abandon(id) => AbandonStep(s, id)
    case Look(id, correct) => LookStep(s, id, correct)
    case Count(id, written) => CountStep(p, s, id, written)
    case Lock(id, written) => LockStep(p, s, id, written)
    case Clear(id, written) => ClearStep(s, id, written)
    case Sweep(ago, retain) => SweepStep(s, ago, retain)
  }

  function Run(p: Policy, steps: seq<Step>): State {
    if steps == [] then START else Apply(p, Run(p, steps[..|steps| - 1]), steps[|steps| - 1])
  }

  /** The steps of one login, taken with nothing in between, up to the look at its password... */
  function Tried(p: Policy, s: State, id: nat, email: string, readable: bool, found: Found): State {
    var checked := Apply(p, Apply(p, s, Begin(id, email)), if readable then Check(id) else Abandon(id));
    Apply(p, checked, if found.Unscoped? || found.Unreadable? then Abandon(id) else Look(id, found.Correct?))
  }

  /** ... and from it. */
  function Settled(p: Policy, s: State, id: nat, first: bool, second: bool): State {
    Apply(p, Apply(p, Apply(p, s, Count(id, first)), Lock(id, second)), Clear(id, first))
  }

  /** What is under way after the look. */
  function Outcome(s: State, email: string, readable: bool, found: Found): Option<Request> {
    if !readable || IsLocked(s.attempts, email, s.now) || found.Unscoped? || found.Unreadable? then None
    else Some(Request(email, s.now, if found.Correct? then Right else Wrong))
  }

  /** A login under way as said, or over, with nothing else different. */
  predicate Stands(s: State, base: State, id: nat, r: Option<Request>) {
    && s.attempts == base.attempts && s.now == base.now
    && s.pending == if r.Some? then base.pending[id := r.value] else base.pending
  }

  lemma BeginLeaves(s: State, id: nat, email: string)
    requires id !in s.pending
    ensures Stands(BeginStep(s, id, email), s, id, Some(Request(email, s.now, Begun)))
  {
  }

  lemma TriedLeaves(p: Policy, s: State, id: nat, email: string, readable: bool, found: Found)
    requires id !in s.pending
    ensures Stands(Tried(p, s, id, email, readable, found), s, id, Outcome(s, email, readable, found))
  {
    hide IsLocked, PastOf, Of, BeginStep;
    BeginLeaves(s, id, email);
    var begun := Apply(p, s, Begin(id, email));
    assert Stands(begun, s, id, Some(Request(email, s.now, Begun)));
    assert begun.pending - {id} == s.pending;
    var checked := Apply(p, begun, if readable then Check(id) else Abandon(id));
    assert Stands(checked, s, id, if !readable || IsLocked(s.attempts, email, s.now) then None
                                  else Some(Request(email, s.now, Checked)));
    assert checked.pending - {id} == s.pending;
  }

  lemma SettledLeaves(p: Policy, s: State, base: State, id: nat, r: Option<Request>, first: bool, second: bool)
    requires Valid(p) && id !in base.pending && Stands(s, base, id, r)
    requires r.Some? ==> r.value.at == base.now && (r.value.stage.Wrong? || r.value.stage.Right?)
    ensures var t := Settled(p, s, id, first, second);
            && t.pending == base.pending && t.now == base.now
            && t.attempts ==
               if r.None? || !first then base.attempts
               else if r.value.stage.Right? then base.attempts - {r.value.email}
               else if second then Punished(p, base.attempts, r.value.email, base.now)
               else Failed(base.attempts, r.value.email, base.now)
  {
    hide Window;
    assert s.pending - {id} == base.pending;
    var counted := Apply(p, s, Count(id, first));
    assert counted.pending - {id} == base.pending;
    var locked := Apply(p, counted, Lock(id, second));
    assert locked.pending - {id} == base.pending;
  }

  /** They leave the record as the login does, and nothing under way. */
  lemma StepsAreLogin(p: Policy, s: State, id: nat, email: string, readable: bool, found: Found,
                      first: bool, second: bool)
    requires Valid(p) && id !in s.pending
    ensures var t := Settled(p, Tried(p, s, id, email, readable, found), id, first, second);
            && t.attempts == AfterLogin(p, s.attempts, email, s.now, readable, found, first, second)
            && t.pending == s.pending && t.now == s.now
  {
    hide Tried, Settled, Stands, Window, IsLocked, Punished, Failed;
    TriedLeaves(p, s, id, email, readable, found);
    SettledLeaves(p, Tried(p, s, id, email, readable, found), s, id, Outcome(s, email, readable, found), first, second);
  }

  // What every reachable state satisfies.

  /** The address cannot be tried for a window after `since`, n failures being due on record. */
  ghost predicate Guarded(p: Policy, attempts: Attempts, email: string, n: nat, since: int) {
    && FailuresOf(attempts, email) >= n
    && (n >= p.threshold ==>
          && email in attempts && attempts[email].lockedUntil.Some?
          && attempts[email].lockedUntil.value >= since + Window(p, n))
  }

  /** Nothing about an address changed but the time. */
  ghost predicate SameAt(s: State, t: State, email: string) {
    && s.now <= t.now
    && (email in s.attempts <==> email in t.attempts)
    && (email in s.attempts ==> s.attempts[email] == t.attempts[email])
    && PastOf(s, email) == PastOf(t, email)
    && Of(s, email) == Of(t, email)
    && forall id :: id in Of(s, email) ==> t.pending[id] == s.pending[id]
  }

  /** The address a step is of; a tick is of none, and a sweep is of whichever it forgets. */
  function Subject(s: State, step: Step): Option<string> {
    match step
    case Tick(_) => None
    case Begin(_, email) => Some(email)
    case Sweep(_, _) => None
    case _ => if step.id in s.pending then Some(s.pending[step.id].email) else None
  }

  lemma LookingElsewhereIsSame(s: State, id: nat, correct: bool, email: string)
    requires id in s.pending && s.pending[id].email != email
    ensures SameAt(s, CheckStep(s, id), email) && SameAt(s, AbandonStep(s, id), email)
    ensures SameAt(s, LookStep(s, id, correct), email)
  {
    hide IsLocked;
  }

  lemma WritingElsewhereIsSame(p: Policy, s: State, id: nat, written: bool, email: string)
    requires id in s.pending && s.pending[id].email != email
    ensures SameAt(s, CountStep(p, s, id, written), email) && SameAt(s, LockStep(p, s, id, written), email)
    ensures SameAt(s, ClearStep(s, id, written), email)
  {
    hide Window;
  }

  lemma ElsewhereIsSame(p: Policy, s: State, step: Step, email: string)
    requires Subject(s, step) != Some(email) && !step.Sweep?
    ensures SameAt(s, Apply(p, s, step), email)
  {
    match step {
      case Check(id) => if id in s.pending { LookingElsewhereIsSame(s, id, true, email); }
      case Abandon(id) => if id in s.pending { LookingElsewhereIsSame(s, id, true, email); }
      case Look(id, correct) => if id in s.pending { LookingElsewhereIsSame(s, id, correct, email); }
      case Count(id, written) => if id in s.pending { WritingElsewhereIsSame(p, s, id, written, email); }
      case Lock(id, written) => if id in s.pending { WritingElsewhereIsSame(p, s, id, written, email); }
      case Clear(id, written) => if id in s.pending { WritingElsewhereIsSame(p, s, id, written, email); }
      case _ =>
    }
    hide IsLocked, Window;
  }

  // Rounds: what is spaced whatever overlaps.

  /** From the threshold on, the first wrong password of a round is of a login that began at least a window
      after the round before did; and a round begins after the login that opened the one before. */
  ghost predicate RoundsSpaced(p: Policy, rounds: seq<Round>) {
    forall i :: 0 < i < |rounds| ==>
      && rounds[i].began >= rounds[i - 1].first
      && (i >= p.threshold ==> rounds[i].first >= rounds[i - 1].began + Window(p, i))
  }

  function LastRound(rounds: seq<Round>): Round
    requires rounds != []
  {
    rounds[|rounds| - 1]
  }

  /** A login under way began in the current stretch. Before the first look of it, a login that has been let
      in began after the lock the last round left; after it, a login that has been counted was counted in it. */
  ghost predicate RequestOk(p: Policy, s: State, r: Request) {
    var past := PastOf(s, r.email);
    && past.began <= r.at <= s.now
    && (past.lost == 0 && past.rounds != [] ==>
          && (r.stage.Checked? && !past.open && |past.rounds| >= p.threshold ==>
                r.at >= LastRound(past.rounds).began + Window(p, |past.rounds|))
          && (r.stage.Counted? ==> |past.rounds| <= r.stage.failures <= FailuresOf(s.attempts, r.email)))
  }

  ghost predicate AddressOk(p: Policy, s: State, email: string) {
    var past := PastOf(s, email);
    && (Owing(s, email) ==> past.open)
    && (past.lost == 0 ==> RoundsSpaced(p, past.rounds))
    && (past.lost == 0 && past.rounds != [] ==>
          var last := LastRound(past.rounds);
          && last.first <= s.now
          && FailuresOf(s.attempts, email) >= |past.rounds| - 1
          && (!Owing(s, email) ==> Guarded(p, s.attempts, email, |past.rounds|, last.began))
          && (Of(s, email) != {} ==> if past.open then past.began == last.began else past.began >= last.first))
  }

  ghost predicate RoundsOk(p: Policy, s: State, email: string) {
    AddressOk(p, s, email) && forall id :: id in Of(s, email) ==> RequestOk(p, s, s.pending[id])
  }

  // One login at a time: every wrong password that is looked at.

  /** From the threshold on, each time comes at least a window after the one before. */
  ghost predicate Spaced(p: Policy, times: seq<int>) {
    forall i :: 0 < i < |times| && i >= p.threshold ==> times[i] >= times[i - 1] + Window(p, i)
  }

  function Last(times: seq<int>): int
    requires times != []
  {
    times[|times| - 1]
  }

  ghost predicate StageOk(p: Policy, s: State, r: Request, looked: seq<int>)
    requires looked != []
  {
    var guarded := Guarded(p, s.attempts, r.email, |looked|, Last(looked));
    match r.stage
    case Begun => guarded
    case Right => guarded
    case Checked => guarded && (|looked| >= p.threshold ==> r.at >= Last(looked) + Window(p, |looked|))
    case Wrong => FailuresOf(s.attempts, r.email) >= |looked| - 1 && r.at == Last(looked)
    case Counted(n) => |looked| <= n <= FailuresOf(s.attempts, r.email) && r.at == Last(looked)
  }

  ghost predicate AloneOk(p: Policy, s: State, email: string) {
    var past := PastOf(s, email);
    past.lost == 0 ==>
      && Spaced(p, past.looked)
      && (past.looked != [] ==>
            && (Of(s, email) == {} ==> Guarded(p, s.attempts, email, |past.looked|, Last(past.looked)))
            && forall id :: id in Of(s, email) ==> StageOk(p, s, s.pending[id], past.looked))
  }

  lemma SameStaysOk(p: Policy, s: State, t: State, email: string)
    requires SameAt(s, t, email)
    ensures RoundsOk(p, s, email) ==> RoundsOk(p, t, email)
    ensures AloneOk(p, s, email) ==> AloneOk(p, t, email)
  {
    hide Window, RoundsSpaced, Spaced;
  }

  lemma SweepKeeps(p: Policy, s: State, ago: nat, retain: nat, email: string)
    ensures RoundsOk(p, s, email) ==> RoundsOk(p, SweepStep(s, ago, retain), email)
    ensures AloneOk(p, s, email) ==> AloneOk(p, SweepStep(s, ago, retain), email)
  {
    var t := SweepStep(s, ago, retain);
    if email in s.attempts && email !in t.attempts {
      assert Of(s, email) == Of(t, email);
    } else {
      assert SameAt(s, t, email);
      SameStaysOk(p, s, t, email);
    }
  }

  lemma OnlyOne(s: State, email: string, a: nat, b: nat)
    requires |Of(s, email)| <= 1 && a in Of(s, email) && b in Of(s, email)
    ensures a == b
  {
    assert Of(s, email) == {a} + (Of(s, email) - {a});
    assert Of(s, email) - {a} == {};
  }

  /** The other logins of the address are as they were. */
  ghost predicate OthersSame(s: State, t: State, email: string, id: nat) {
    && Of(s, email) - {id} == Of(t, email) - {id}
    && forall i :: i in Of(s, email) && i != id ==> i in t.pending && t.pending[i] == s.pending[i]
  }

  lemma OwingTheSame(s: State, t: State, email: string, id: nat)
    requires OthersSame(s, t, email, id) && !Owes(s, id) && !Owes(t, id)
    ensures Owing(s, email) <==> Owing(t, email)
  {
    assert forall i :: i in Of(s, email) && i != id ==> i in Of(s, email) - {id};
    assert forall i :: i in Of(t, email) && i != id ==> i in Of(t, email) - {id};
  }

  lemma BeginKeepsRounds(p: Policy, s: State, id: nat, email: string)
    requires RoundsOk(p, s, email)
    ensures RoundsOk(p, BeginStep(s, id, email), email)
  {
    hide Window, RoundsSpaced;
    var t := BeginStep(s, id, email);
    if id !in s.pending {
      assert Of(t, email) == Of(s, email) + {id};
    }
  }

  lemma CheckKeepsRounds(p: Policy, s: State, id: nat)
    requires id in s.pending && RoundsOk(p, s, s.pending[id].email)
    ensures RoundsOk(p, CheckStep(s, id), s.pending[id].email)
  {
    hide Window, RoundsSpaced;
    var t, email := CheckStep(s, id), s.pending[id].email;
    assert id in Of(s, email);
    assert Of(t, email) == Of(s, email) || Of(t, email) == Of(s, email) - {id};
    if At(s, id, Begun) {
      OwingTheSame(s, t, email, id);
    }
  }

  lemma AbandonKeepsRounds(p: Policy, s: State, id: nat)
    requires id in s.pending && RoundsOk(p, s, s.pending[id].email)
    ensures RoundsOk(p, AbandonStep(s, id), s.pending[id].email)
  {
    hide Window, RoundsSpaced;
    var t, email := AbandonStep(s, id), s.pending[id].email;
    assert Of(t, email) == Of(s, email) || Of(t, email) == Of(s, email) - {id};
    if t != s {
      OwingTheSame(s, t, email, id);
    }
  }

  lemma LookSpaced(p: Policy, s: State, id: nat)
    requires At(s, id, Checked) && RoundsOk(p, s, s.pending[id].email)
    ensures var email := s.pending[id].email;
            var past := PastOf(s, email);
            !past.open && past.lost == 0 ==> RoundsSpaced(p, past.rounds + [Round(past.began, s.pending[id].at)])
  {
    assert id in Of(s, s.pending[id].email);
  }

  lemma RightKeepsRounds(p: Policy, s: State, id: nat)
    requires At(s, id, Checked) && RoundsOk(p, s, s.pending[id].email)
    ensures RoundsOk(p, LookStep(s, id, true), s.pending[id].email)
  {
    hide RoundsSpaced, Window;
    var t, email := LookStep(s, id, true), s.pending[id].email;
    assert Of(t, email) == Of(s, email) && id in Of(s, email);
    OwingTheSame(s, t, email, id);
  }

  /** The first wrong password of a stretch opens a round; any other joins it. */
  lemma WrongKeepsAddress(p: Policy, s: State, id: nat)
    requires At(s, id, Checked) && RoundsOk(p, s, s.pending[id].email)
    ensures AddressOk(p, LookStep(s, id, false), s.pending[id].email)
  {
    var t, email := LookStep(s, id, false), s.pending[id].email;
    var before, after := PastOf(s, email), PastOf(t, email);
    LookSpaced(p, s, id);
    assert Of(t, email) == Of(s, email) && id in Of(s, email) && Owes(t, id);
    assert RequestOk(p, s, s.pending[id]);
    hide RoundsSpaced, Window;
    if !before.open {
      assert after.rounds == before.rounds + [Round(before.began, s.pending[id].at)];
    }
  }

  lemma WrongKeepsRequests(p: Policy, s: State, id: nat)
    requires At(s, id, Checked) && RoundsOk(p, s, s.pending[id].email)
    ensures var t, email := LookStep(s, id, false), s.pending[id].email;
            forall i :: i in Of(t, email) ==> RequestOk(p, t, t.pending[i])
  {
    var t, email := LookStep(s, id, false), s.pending[id].email;
    hide RoundsSpaced, Window, Guarded;
    forall i | i in Of(t, email) ensures RequestOk(p, t, t.pending[i]) {
      assert i in Of(s, email) && RequestOk(p, s, s.pending[i]);
      assert i == id || t.pending[i] == s.pending[i];
      assert Owes(s, i) ==> Owing(s, email);
    }
  }

  lemma LookKeepsRounds(p: Policy, s: State, id: nat, correct: bool)
    requires id in s.pending && RoundsOk(p, s, s.pending[id].email)
    ensures RoundsOk(p, LookStep(s, id, correct), s.pending[id].email)
  {
    if At(s, id, Checked) {
      if correct {
        RightKeepsRounds(p, s, id);
      } else {
        hide AddressOk, RequestOk;
        WrongKeepsAddress(p, s, id);
        WrongKeepsRequests(p, s, id);
      }
    }
  }

  lemma CountKeepsRounds(p: Policy, s: State, id: nat, written: bool)
    requires Valid(p) && id in s.pending && RoundsOk(p, s, s.pending[id].email)
    ensures RoundsOk(p, CountStep(p, s, id, written), s.pending[id].email)
  {
    hide Window, RoundsSpaced;
    var t, email := CountStep(p, s, id, written), s.pending[id].email;
    assert id in Of(s, email);
    assert Of(t, email) == Of(s, email) || Of(t, email) == Of(s, email) - {id};
    if At(s, id, Wrong) {
      assert Owing(s, email);
    }
  }

  lemma LockKeepsRounds(p: Policy, s: State, id: nat, written: bool)
    requires Valid(p) && id in s.pending && RoundsOk(p, s, s.pending[id].email)
    ensures RoundsOk(p, LockStep(p, s, id, written), s.pending[id].email)
  {
    hide RoundsSpaced;
    var t, email := LockStep(p, s, id, written), s.pending[id].email;
    assert id in Of(s, email);
    assert Of(t, email) == Of(s, email) || Of(t, email) == Of(s, email) - {id};
    if t != s {
      assert Owing(s, email);
      var rounds, n := PastOf(s, email).rounds, s.pending[id].stage.failures;
      if p.threshold <= |rounds| <= n {
        WindowGrows(p, |rounds|, n);
      }
    }
  }

  lemma ClearKeepsRounds(p: Policy, s: State, id: nat, written: bool)
    requires id in s.pending && RoundsOk(p, s, s.pending[id].email)
    ensures RoundsOk(p, ClearStep(s, id, written), s.pending[id].email)
  {
    hide Window;
    var t, email := ClearStep(s, id, written), s.pending[id].email;
    assert id in Of(s, email);
    assert Of(t, email) == Of(s, email) || Of(t, email) == Of(s, email) - {id};
    if t != s {
      OwingTheSame(s, Done(s, id), email, id);
    }
  }

  lemma ApplyKeepsRounds(p: Policy, s: State, step: Step, email: string)
    requires Valid(p) && RoundsOk(p, s, email)
    ensures RoundsOk(p, Apply(p, s, step), email)
  {
    hide RoundsOk, SameAt;
    if step.Sweep? {
      SweepKeeps(p, s, step.ago, step.retain, email);
    } else if Subject(s, step) != Some(email) {
      ElsewhereIsSame(p, s, step, email);
      SameStaysOk(p, s, Apply(p, s, step), email);
    } else {
      match step {
        case Begin(id, _) => BeginKeepsRounds(p, s, id, email);
        case Check(id) => CheckKeepsRounds(p, s, id);
        case Abandon(id) => AbandonKeepsRounds(p, s, id);
        case Look(id, correct) => LookKeepsRounds(p, s, id, correct);
        case Count(id, written) => CountKeepsRounds(p, s, id, written);
        case Lock(id, written) => LockKeepsRounds(p, s, id, written);
        case Clear(id, written) => ClearKeepsRounds(p, s, id, written);
        case _ =>
      }
    }
  }

  /** Over every run a finished round leaves its count and its lock on record. */
  lemma {:induction false} RunKeepsRounds(p: Policy, steps: seq<Step>, email: string)
    requires Valid(p)
    ensures RoundsOk(p, Run(p, steps), email)
    decreases |steps|
  {
    if steps != [] {
      hide RoundsOk, Apply;
      RunKeepsRounds(p, steps[..|steps| - 1], email);
      ApplyKeepsRounds(p, Run(p, steps[..|steps| - 1]), steps[|steps| - 1], email);
    }
  }

  /** In every interleaving, lost writes apart, the rounds of an address are spaced. (The lock a round leaves may
      be dated by a login that began before the one that opened the round, so it is every other round that a
      window separates.) */
  lemma RoundsAreSpaced(p: Policy, steps: seq<Step>, email: string)
    requires Valid(p) && PastOf(Run(p, steps), email).lost == 0
    ensures RoundsSpaced(p, PastOf(Run(p, steps), email).rounds)
  {
    RunKeepsRounds(p, steps, email);
  }

  // At most so many logins of an address under way at every moment.

  ghost predicate AtMost(p: Policy, steps: seq<Step>, email: string, n: nat) {
    |Of(Run(p, steps), email)| <= n && (steps != [] ==> AtMost(p, steps[..|steps| - 1], email, n))
  }

  lemma AloneDone(s: State, email: string, id: nat)
    requires |Of(s, email)| <= 1 && id in Of(s, email)
    ensures Of(s, email) == {id} && Of(Done(s, id), email) == {}
  {
    forall i | i in Of(s, email) ensures i == id {
      OnlyOne(s, email, i, id);
    }
  }

  lemma BeginAlone(p: Policy, s: State, id: nat, email: string)
    requires AloneOk(p, s, email) && |Of(BeginStep(s, id, email), email)| <= 1
    ensures AloneOk(p, BeginStep(s, id, email), email)
  {
    hide Window, Spaced;
    var t := BeginStep(s, id, email);
    if id !in s.pending {
      AloneDone(t, email, id);
      assert Of(s, email) <= Of(t, email);
      assert Of(s, email) == {};
    }
  }

  lemma CheckAlone(p: Policy, s: State, id: nat)
    requires id in s.pending && AloneOk(p, s, s.pending[id].email) && |Of(s, s.pending[id].email)| <= 1
    ensures AloneOk(p, CheckStep(s, id), s.pending[id].email)
    ensures AloneOk(p, AbandonStep(s, id), s.pending[id].email)
  {
    hide Window, Spaced;
    var email := s.pending[id].email;
    AloneDone(s, email, id);
    assert Of(Moved(s, id, Checked), email) == {id};
  }

  lemma LookAlone(p: Policy, s: State, id: nat, correct: bool)
    requires id in s.pending && AloneOk(p, s, s.pending[id].email) && |Of(s, s.pending[id].email)| <= 1
    ensures AloneOk(p, LookStep(s, id, correct), s.pending[id].email)
  {
    var t, email := LookStep(s, id, correct), s.pending[id].email;
    AloneDone(s, email, id);
    assert Of(t, email) == {id};
    if At(s, id, Checked) && PastOf(s, email).lost == 0 {
      LookKeepsSpaced(p, s, id);
    }
    hide Spaced, Window;
  }

  lemma LookKeepsSpaced(p: Policy, s: State, id: nat)
    requires At(s, id, Checked) && AloneOk(p, s, s.pending[id].email) && PastOf(s, s.pending[id].email).lost == 0
    ensures var past := PastOf(s, s.pending[id].email);
            && Spaced(p, past.looked + [s.pending[id].at])
            && (past.looked != [] ==> StageOk(p, s, s.pending[id], past.looked))
  {
    assert id in Of(s, s.pending[id].email);
  }

  lemma CountAlone(p: Policy, s: State, id: nat, written: bool)
    requires Valid(p)
    requires id in s.pending && AloneOk(p, s, s.pending[id].email) && |Of(s, s.pending[id].email)| <= 1
    ensures AloneOk(p, CountStep(p, s, id, written), s.pending[id].email)
  {
    hide Spaced, Window;
    var t, email := CountStep(p, s, id, written), s.pending[id].email;
    AloneDone(s, email, id);
    if At(s, id, Wrong) && PastOf(s, email).looked != [] {
      assert PastOf(s, email).lost == 0 ==> StageOk(p, s, s.pending[id], PastOf(s, email).looked);
      assert Of(t, email) == {} || Of(t, email) == {id};
    }
  }

  lemma LockAlone(p: Policy, s: State, id: nat, written: bool)
    requires Valid(p)
    requires id in s.pending && AloneOk(p, s, s.pending[id].email) && |Of(s, s.pending[id].email)| <= 1
    ensures AloneOk(p, LockStep(p, s, id, written), s.pending[id].email)
  {
    hide Spaced;
    var t, email := LockStep(p, s, id, written), s.pending[id].email;
    AloneDone(s, email, id);
    var looked := PastOf(s, email).looked;
    if t != s && looked != [] && PastOf(s, email).lost == 0 {
      assert StageOk(p, s, s.pending[id], looked);
      assert Of(t, email) == {};
      if p.threshold <= |looked| {
        WindowGrows(p, |looked|, s.pending[id].stage.failures);
      }
    }
  }

  lemma ClearAlone(p: Policy, s: State, id: nat, written: bool)
    requires id in s.pending && AloneOk(p, s, s.pending[id].email) && |Of(s, s.pending[id].email)| <= 1
    ensures AloneOk(p, ClearStep(s, id, written), s.pending[id].email)
  {
    hide Window;
    var email := s.pending[id].email;
    AloneDone(s, email, id);
    if At(s, id, Right) && PastOf(s, email).looked != [] && PastOf(s, email).lost == 0 {
      assert StageOk(p, s, s.pending[id], PastOf(s, email).looked);
    }
  }

  lemma ApplyKeepsAlone(p: Policy, s: State, step: Step, email: string)
    requires Valid(p) && AloneOk(p, s, email) && |Of(s, email)| <= 1 && |Of(Apply(p, s, step), email)| <= 1
    ensures AloneOk(p, Apply(p, s, step), email)
  {
    hide AloneOk, SameAt, Of;
    if step.Sweep? {
      SweepKeeps(p, s, step.ago, step.retain, email);
    } else if Subject(s, step) != Some(email) {
      ElsewhereIsSame(p, s, step, email);
      SameStaysOk(p, s, Apply(p, s, step), email);
    } else {
      match step {
        case Begin(id, _) => BeginAlone(p, s, id, email);
        case Check(id) => CheckAlone(p, s, id);
        case Abandon(id) => CheckAlone(p, s, id);
        case Look(id, correct) => LookAlone(p, s, id, correct);
        case Count(id, written) => CountAlone(p, s, id, written);
        case Lock(id, written) => LockAlone(p, s, id, written);
        case Clear(id, written) => ClearAlone(p, s, id, written);
        case _ =>
      }
    }
  }

  lemma {:induction false} RunKeepsAlone(p: Policy, steps: seq<Step>, email: string)
    requires Valid(p) && AtMost(p, steps, email, 1)
    ensures AloneOk(p, Run(p, steps), email)
    decreases |steps|
  {
    if steps != [] {
      hide AloneOk, Apply, Of;
      RunKeepsAlone(p, steps[..|steps| - 1], email);
      assert AtMost(p, steps[..|steps| - 1], email, 1);
      ApplyKeepsAlone(p, Run(p, steps[..|steps| - 1]), steps[|steps| - 1], email);
    }
  }

  /** When logins of the address come one at a time and no write is lost, each wrong password looked at comes
      at least a window after the one before, whatever is abandoned, cleared, swept or tried elsewhere. */
  lemma SerialGuessesAreSpaced(p: Policy, steps: seq<Step>, email: string)
    requires Valid(p) && AtMost(p, steps, email, 1) && PastOf(Run(p, steps), email).lost == 0
    ensures Spaced(p, PastOf(Run(p, steps), email).looked)
  {
    RunKeepsAlone(p, steps, email);
  }

  // What overlaps, lost writes and sweeps let through.

  lemma Then(p: Policy, steps: seq<Step>, step: Step)
    ensures Run(p, steps + [step]) == Apply(p, Run(p, steps), step)
  {
    assert (steps + [step])[..|steps|] == steps;
  }

  lemma Extend(p: Policy, steps: seq<Step>, step: Step, t: State, email: string, n: nat) returns (more: seq<Step>)
    requires t == Apply(p, Run(p, steps), step) && |Of(t, email)| <= n
    ensures Run(p, more) == t && (AtMost(p, steps, email, n) ==> AtMost(p, more, email, n))
  {
    more := steps + [step];
    Then(p, steps, step);
    assert more[..|steps|] == steps;
  }

  /** A wrong password of this login has been looked at, the rest as before. */
  ghost predicate Guessed(s: State, t: State, email: string, id: nat) {
    && t.now == s.now && t.attempts == s.attempts
    && t.pending == s.pending[id := Request(email, s.now, Wrong)]
    && PastOf(t, email).looked == PastOf(s, email).looked + [s.now] && PastOf(t, email).lost == PastOf(s, email).lost
  }

  lemma GuessStates(p: Policy, s: State, email: string, id: nat)
    requires id !in s.pending && !IsLocked(s.attempts, email, s.now)
    ensures var begun := BeginStep(s, id, email);
            var checked := CheckStep(begun, id);
            var t := LookStep(checked, id, false);
            && Of(begun, email) == Of(checked, email) == Of(t, email) == Of(s, email) + {id}
            && Guessed(s, t, email, id)
  {
    var begun := BeginStep(s, id, email);
    assert begun.pending == s.pending[id := Request(email, s.now, Begun)] && begun.attempts == s.attempts;
    var checked := CheckStep(begun, id);
    assert checked.pending == s.pending[id := Request(email, s.now, Checked)] && checked.past == begun.past;
    assert PastOf(begun, email).looked == PastOf(s, email).looked && PastOf(begun, email).lost == PastOf(s, email).lost;
  }

  /** An address that is not locked can be guessed at, by one more login than are under way. */
  lemma Guess(p: Policy, steps: seq<Step>, email: string, id: nat, n: nat) returns (more: seq<Step>)
    requires id !in Run(p, steps).pending && |Of(Run(p, steps), email)| < n
    requires !IsLocked(Run(p, steps).attempts, email, Run(p, steps).now)
    ensures AtMost(p, steps, email, n) ==> AtMost(p, more, email, n)
    ensures Guessed(Run(p, steps), Run(p, more), email, id)
    ensures Of(Run(p, more), email) == Of(Run(p, steps), email) + {id}
  {
    var s := Run(p, steps);
    GuessStates(p, s, email, id);
    hide Run, AtMost, BeginStep, CheckStep, LookStep, Of, IsLocked, Guessed;
    var begun := BeginStep(s, id, email);
    var checked := CheckStep(begun, id);
    more := Extend(p, steps, Begin(id, email), begun, email, n);
    more := Extend(p, more, Check(id), checked, email, n);
    more := Extend(p, more, Look(id, false), LookStep(checked, id, false), email, n);
  }

  /** An address that nothing keeps from being tried: so many failures on record, so many guesses at this very
      moment, so many writes lost. */
  ghost predicate Idle(s: State, email: string, failures: nat, guesses: nat, lost: nat) {
    && FailuresOf(s.attempts, email) == failures && Of(s, email) == {} && !IsLocked(s.attempts, email, s.now)
    && PastOf(s, email).looked == seq(guesses, i => s.now) && PastOf(s, email).lost == lost
  }

  lemma WrongLeavesIdle(p: Policy, s: State, t: State, email: string, id: nat,
                        failures: nat, guesses: nat, lost: nat, written: bool)
    requires Idle(s, email, failures, guesses, lost) && Guessed(s, t, email, id) && id !in s.pending
    requires written ==> failures + 1 < p.threshold
    ensures var u := CountStep(p, t, id, written);
            && u.pending == s.pending && u.now == s.now && Of(u, email) == {}
            && if written then Idle(u, email, failures + 1, guesses + 1, lost)
               else Idle(u, email, failures, guesses + 1, lost + 1)
  {
    assert t.pending - {id} == s.pending;
  }

  /** A login that is wrong and leaves no lock, below the threshold or with its count lost. */
  lemma WrongLogin(p: Policy, steps: seq<Step>, email: string, id: nat, failures: nat, guesses: nat, lost: nat,
                   written: bool) returns (more: seq<Step>)
    requires Idle(Run(p, steps), email, failures, guesses, lost) && id !in Run(p, steps).pending
    requires written ==> failures + 1 < p.threshold
    ensures Run(p, more).pending == Run(p, steps).pending && Run(p, more).now == Run(p, steps).now
    ensures AtMost(p, steps, email, 1) ==> AtMost(p, more, email, 1)
    ensures if written then Idle(Run(p, more), email, failures + 1, guesses + 1, lost)
            else Idle(Run(p, more), email, failures, guesses + 1, lost + 1)
  {
    more := Guess(p, steps, email, id, 1);
    WrongLeavesIdle(p, Run(p, steps), Run(p, more), email, id, failures, guesses, lost, written);
    hide Run, AtMost, CountStep, Of, Idle, Guessed;
    more := Extend(p, more, Count(id, written), CountStep(p, Run(p, more), id, written), email, 1);
  }

  lemma {:induction false} WrongLogins(p: Policy, steps: seq<Step>, email: string, id: nat, guesses: nat, lost: nat,
                                       k: nat) returns (more: seq<Step>)
    requires Valid(p) && Idle(Run(p, steps), email, 0, guesses, lost) && id !in Run(p, steps).pending
    requires k < p.threshold
    ensures Run(p, more).pending == Run(p, steps).pending && Run(p, more).now == Run(p, steps).now
    ensures AtMost(p, steps, email, 1) ==> AtMost(p, more, email, 1)
    ensures Idle(Run(p, more), email, k, guesses + k, lost)
  {
    hide Run, AtMost, Idle;
    if k == 0 {
      more := steps;
    } else {
      more := WrongLogins(p, steps, email, id, guesses, lost, k - 1);
      more := WrongLogin(p, more, email, id, k - 1, guesses + k - 1, lost, true);
    }
  }

  /** More guesses at one moment than the threshold are not spaced. */
  lemma CrowdIsNotSpaced(p: Policy, n: nat, at: int)
    requires Valid(p) && n > p.threshold
    ensures !Spaced(p, seq(n, i => at))
  {
    WindowAtLeastBase(p, p.threshold);
    var times := seq(n, i => at);
    assert times[p.threshold] < times[p.threshold - 1] + Window(p, p.threshold);
  }

  lemma StartIsIdle(p: Policy, email: string, n: nat)
    ensures Idle(Run(p, []), email, 0, 0, 0) && AtMost(p, [], email, n) && Run(p, []) == START
  {
    assert Of(START, email) == {};
    assert seq(0, i => 0) == [];
  }

  /** One lost write lets one more guess through than the threshold, logins one at a time. */
  lemma LostWriteIsNotSpaced(p: Policy, email: string) returns (steps: seq<Step>)
    requires Valid(p)
    ensures AtMost(p, steps, email, 1) && PastOf(Run(p, steps), email).lost == 1
    ensures !Spaced(p, PastOf(Run(p, steps), email).looked)
  {
    StartIsIdle(p, email, 1);
    steps := WrongLogin(p, [], email, 0, 0, 0, 0, false);
    steps := WrongLogins(p, steps, email, 0, 1, 1, p.threshold - 1);
    var s := Run(p, steps);
    hide Run, AtMost, Spaced;
    steps := Guess(p, steps, email, 0, 1);
    CrowdIsNotSpaced(p, p.threshold + 1, s.now);
    assert PastOf(Run(p, steps), email).looked == seq(p.threshold + 1, i => s.now);
  }

  /** Only login m is under way, its password found wrong, as were m before it at the same moment. */
  ghost predicate Carried(s: State, email: string, m: nat) {
    && s.pending == map[m := Request(email, s.now, Wrong)]
    && PastOf(s, email).looked == seq(m + 1, i => s.now) && PastOf(s, email).lost == 0
  }

  ghost predicate Relay(p: Policy, steps: seq<Step>, email: string, m: nat) {
    AtMost(p, steps, email, 2) && Carried(Run(p, steps), email, m)
  }

  lemma CardOfTwo(a: nat, b: nat)
    ensures |{a}| == 1 && |{a, b}| <= 2
  {
  }

  /** Counting a failure leaves no lock for the moment, and below the threshold nothing under way. */
  lemma CountLifts(p: Policy, s: State, email: string, m: nat)
    requires Carried(s, email, m)
    ensures var t, n := CountStep(p, s, m, true), FailuresOf(s.attempts, email) + 1;
            && t.pending == (if n < p.threshold then map[] else map[m := Request(email, s.now, Counted(n))])
            && Of(t, email) <= {m} && m + 1 !in t.pending
            && !IsLocked(t.attempts, email, t.now) && t.now == s.now && PastOf(t, email) == PastOf(s, email)
  {
    var r := Request(email, s.now, Wrong);
    assert map[m := r] - {m} == map[];
  }

  /** Setting it again, if it is due, ends the login that was counted. */
  lemma LockEnds(p: Policy, s: State, u: State, email: string, m: nat)
    requires Guessed(s, u, email, m + 1) && PastOf(s, email).looked == seq(m + 1, i => s.now)
    requires PastOf(s, email).lost == 0
    requires || s.pending == map[]
             || exists n :: n >= p.threshold && s.pending == map[m := Request(email, s.now, Counted(n))]
    ensures var t := LockStep(p, u, m, true);
            Carried(t, email, m + 1) && t.now == s.now && Of(t, email) == {m + 1}
  {
    hide Window;
    var x := Request(email, s.now, Wrong);
    assert PastOf(u, email).looked == seq(m + 2, i => s.now);
    if s.pending == map[] {
      assert u.pending == map[m + 1 := x];
    } else {
      assert u.pending - {m} == map[m + 1 := x];
    }
  }

  lemma AnotherGuess(p: Policy, steps: seq<Step>, email: string, m: nat) returns (more: seq<Step>)
    requires Relay(p, steps, email, m)
    ensures Relay(p, more, email, m + 1)
  {
    var s := Run(p, steps);
    CountLifts(p, s, email, m);
    var counted := CountStep(p, s, m, true);
    CardOfTwo(m, m + 1);
    assert Of(counted, email) == {} || Of(counted, email) == {m};
    hide Run, AtMost, CountStep, IsLocked;
    more := Extend(p, steps, Count(m, true), counted, email, 2);
    more := Guess(p, more, email, m + 1, 2);
    LockEnds(p, counted, Run(p, more), email, m);
    hide Of, Carried, LockStep, Guessed;
    more := Extend(p, more, Lock(m, true), LockStep(p, Run(p, more), m, true), email, 2);
  }

  /** Two logins of an address under way together are enough for any number of wrong passwords to be
      looked at in one moment, with every write succeeding: counting a failure lifts the lock until it is
      set again. */
  lemma {:induction false} OverlappingGuessesAreNotSlowed(p: Policy, email: string, m: nat) returns (steps: seq<Step>)
    requires Valid(p)
    ensures Relay(p, steps, email, m)
  {
    if m == 0 {
      StartIsIdle(p, email, 2);
      steps := Guess(p, [], email, 0, 2);
      assert Run(p, steps).pending == map[0 := Request(email, 0, Wrong)];
      assert [] + [0] == seq(1, i => 0);
    } else {
      steps := OverlappingGuessesAreNotSlowed(p, email, m - 1);
      steps := AnotherGuess(p, steps, email, m - 1);
    }
  }

  // The exact condition.

  lemma {:induction false} AtMostMore(p: Policy, steps: seq<Step>, email: string, m: nat, n: nat)
    requires AtMost(p, steps, email, m) && m <= n
    ensures AtMost(p, steps, email, n)
    decreases |steps|
  {
    if steps != [] {
      hide Run, Of;
      AtMostMore(p, steps[..|steps| - 1], email, m, n);
    }
  }

  lemma {:induction false} NobodyGuesses(p: Policy, steps: seq<Step>, email: string)
    requires AtMost(p, steps, email, 0)
    ensures PastOf(Run(p, steps), email).looked == []
    decreases |steps|
  {
    if steps != [] {
      NobodyGuesses(p, steps[..|steps| - 1], email);
      var s, step := Run(p, steps[..|steps| - 1]), steps[|steps| - 1];
      assert Of(s, email) == {} && Of(Apply(p, s, step), email) == {};
      assert forall id :: id in s.pending ==> s.pending[id].email == email ==> id in Of(s, email);
      var begun := if step.Begin? then step.id else 0;
      assert step.Begin? && begun !in s.pending ==> begun in Of(Apply(p, s, step), step.email);
      if !step.Sweep? && Subject(s, step) != Some(email) {
        ElsewhereIsSame(p, s, step, email);
      }
    }
  }

  /** With at most n logins of the address under way, and at most l of its writes lost, every wrong password
      looked at comes a window after the one before. */
  ghost predicate GuessesAreSpaced(p: Policy, email: string, n: nat, l: nat) {
    forall steps: seq<Step> :: AtMost(p, steps, email, n) && PastOf(Run(p, steps), email).lost <= l ==>
      Spaced(p, PastOf(Run(p, steps), email).looked)
  }

  /** Guesses at an address are spaced exactly when its logins come one at a time and no write is lost. */
  lemma GuessesAreSpacedExactlyWhen(p: Policy, email: string, n: nat, l: nat)
    requires Valid(p)
    ensures GuessesAreSpaced(p, email, n, l) <==> n == 0 || (n == 1 && l == 0)
  {
    hide AtMost, Run, Spaced, Relay, Carried;
    if n == 0 {
      forall steps: seq<Step> | AtMost(p, steps, email, 0) ensures Spaced(p, PastOf(Run(p, steps), email).looked) {
        NobodyGuesses(p, steps, email);
        NothingIsSpaced(p);
      }
    } else if n == 1 && l == 0 {
      forall steps: seq<Step> | AtMost(p, steps, email, 1) && PastOf(Run(p, steps), email).lost == 0
        ensures Spaced(p, PastOf(Run(p, steps), email).looked)
      {
        SerialGuessesAreSpaced(p, steps, email);
      }
    } else if l > 0 {
      var steps := LostWriteIsNotSpaced(p, email);
      AtMostMore(p, steps, email, 1, n);
    } else {
      var steps := OverlapIsNotSpaced(p, email);
      AtMostMore(p, steps, email, 2, n);
    }
  }

  lemma NothingIsSpaced(p: Policy)
    ensures Spaced(p, [])
  {
  }

  lemma OverlapIsNotSpaced(p: Policy, email: string) returns (steps: seq<Step>)
    requires Valid(p)
    ensures AtMost(p, steps, email, 2) && PastOf(Run(p, steps), email).lost == 0
    ensures !Spaced(p, PastOf(Run(p, steps), email).looked)
  {
    steps := OverlappingGuessesAreNotSlowed(p, email, p.threshold);
    hide Run, AtMost, Spaced;
    CrowdIsNotSpaced(p, p.threshold + 1, Run(p, steps).now);
  }

  lemma {:induction false} SpacedSpans(p: Policy, times: seq<int>, i: nat, j: nat)
    requires Valid(p) && Spaced(p, times) && p.threshold <= i + 1 && i <= j < |times|
    ensures times[j] - times[i] >= (j - i) * p.base
    decreases j
  {
    if i < j {
      SpacedSpans(p, times, i, j - 1);
      WindowAtLeastBase(p, j);
      assert (j - i) * p.base == (j - 1 - i) * p.base + p.base;
    }
  }

  lemma {:induction false} RoundsSpan(p: Policy, rounds: seq<Round>, i: nat, k: nat)
    requires Valid(p) && RoundsSpaced(p, rounds) && p.threshold <= i + 1 && i + 2 * k < |rounds|
    ensures rounds[i + 2 * k].first - rounds[i].first >= k * p.base
  {
    if k > 0 {
      RoundsSpan(p, rounds, i, k - 1);
      var j := i + 2 * k;
      WindowAtLeastBase(p, j);
      assert rounds[j].first >= rounds[j - 1].began + Window(p, j) && rounds[j - 1].began >= rounds[j - 2].first;
      assert k * p.base == (k - 1) * p.base + p.base;
    }
  }

  /** So from the threshold on k more wrong passwords take at least k base windows when logins of the address
      come one at a time; and, however they overlap, 2 * k more rounds of them do. */
  lemma GuessingIsSlow(p: Policy, steps: seq<Step>, email: string, i: nat, k: nat)
    requires Valid(p) && PastOf(Run(p, steps), email).lost == 0 && p.threshold <= i + 1
    ensures var looked := PastOf(Run(p, steps), email).looked;
            AtMost(p, steps, email, 1) && i + k < |looked| ==> looked[i + k] - looked[i] >= k * p.base
    ensures var rounds := PastOf(Run(p, steps), email).rounds;
            i + 2 * k < |rounds| ==> rounds[i + 2 * k].first - rounds[i].first >= k * p.base
  {
    hide Run, AtMost, Spaced, RoundsSpaced;
    var past := PastOf(Run(p, steps), email);
    if AtMost(p, steps, email, 1) && i + k < |past.looked| {
      SerialGuessesAreSpaced(p, steps, email);
      SpacedSpans(p, past.looked, i, i + k);
    }
    if i + 2 * k < |past.rounds| {
      RoundsAreSpaced(p, steps, email);
      RoundsSpan(p, past.rounds, i, k);
    }
  }

  lemma ForgottenIsIdle(p: Policy, s: State, ago: nat, retain: nat, email: string)
    requires email in s.attempts && Of(s, email) == {}
    ensures var t := SweepStep(s, ago, retain);
            email !in t.attempts ==>
              && s.attempts[email].lastFailed < s.now - retain && !IsLocked(s.attempts, email, s.now)
              && t.now == s.now && t.pending == s.pending && Idle(t, email, 0, 0, 0)
  {
    var t := SweepStep(s, ago, retain);
    assert Of(t, email) == {};
    assert seq(0, i => t.now) == [];
  }

  /** A sweep forgets an address only when its last failure is older than what is retained and its lock
      has passed. It then starts over: all but one of the threshold can be tried at once, one login after
      another, though it had been locked before. */
  lemma SweepForgets(p: Policy, steps: seq<Step>, ago: nat, retain: nat, email: string, k: nat, id: nat)
    returns (more: seq<Step>)
    requires Valid(p) && k < p.threshold && id !in Run(p, steps).pending && Of(Run(p, steps), email) == {}
    requires email in Run(p, steps).attempts && email !in Apply(p, Run(p, steps), Sweep(ago, retain)).attempts
    ensures var s := Run(p, steps);
            s.attempts[email].lastFailed < s.now - retain && !IsLocked(s.attempts, email, s.now)
    ensures Run(p, more).now == Run(p, steps).now && Idle(Run(p, more), email, k, k, 0)
    ensures AtMost(p, steps, email, 1) ==> AtMost(p, more, email, 1)
  {
    var s := Run(p, steps);
    ForgottenIsIdle(p, s, ago, retain, email);
    var t := SweepStep(s, ago, retain);
    assert Of(t, email) == {};
    hide Run, AtMost, Idle, SweepStep, Of, IsLocked;
    more := Extend(p, steps, Sweep(ago, retain), t, email, 1);
    more := WrongLogins(p, more, email, id, 0, 0, k);
  }
}
