/** Sessions: an idle expiry that slides on use, but not on every use, under a cap that never moves. */
module Sessions {
  datatype Policy = Policy(idle: nat, absolute: nat, touchInterval: nat)

  datatype Session = Session(expiresAt: int, absoluteExpiresAt: int, lastSeen: int, revoked: bool)

  function Started(p: Policy, now: int): Session {
    Session(now + p.idle, now + p.absolute, now, false)
  }

  /** Both expiries must still be ahead. */
  predicate Accepts(s: Session, now: int) {
    !s.revoked && s.expiresAt > now && s.absoluteExpiresAt > now
  }

  predicate NeedsTouch(p: Policy, s: Session, now: int) {
    now - s.lastSeen > p.touchInterval
  }

  function Touched(p: Policy, s: Session, at: int): Session {
    s.(lastSeen := at, expiresAt := at + p.idle)
  }

  /** What a use leaves of a session when its touch, if it needs one, is written. */
  function AfterUse(p: Policy, s: Session, now: int): Session {
    if Accepts(s, now) && NeedsTouch(p, s, now) then Touched(p, s, now) else s
  }

  class Service {
    const policy: Policy
    var sessions: map<string, Session>

    constructor (policy: Policy)
      ensures this.policy == policy && sessions == map[]
    {
      this.policy, sessions := policy, map[];
    }

    /** Issues a session to a user already authenticated; a disabled account gets none. */
    method StartSession(token: string, active: bool, now: int) returns (issued: bool)
      modifies this`sessions
      ensures issued == active
      ensures !active ==> sessions == old(sessions)
      ensures active ==>
                sessions == old(sessions)[token := Session(now + policy.idle, now + policy.absolute, now, false)]
    {
      if !active {
        return false;
      }
      sessions := sessions[token := Session(now + policy.idle, now + policy.absolute, now, false)];
      return true;
    }

    /** Resolves a token, sliding its idle expiry when it has not been slid for a while. `written` says
        whether that write succeeds; a failed one is not the caller's problem. */
    method Authenticate(token: string, now: int, written: bool) returns (accepted: bool)
      modifies this`sessions
      ensures accepted <==>
                && token != "" && token in old(sessions) && !old(sessions)[token].revoked
                && now < old(sessions)[token].expiresAt && now < old(sessions)[token].absoluteExpiresAt
      ensures sessions ==
              if accepted && written && now > old(sessions)[token].lastSeen + policy.touchInterval
              then old(sessions)[token := old(sessions)[token].(lastSeen := now, expiresAt := now + policy.idle)]
              else old(sessions)
      ensures accepted && written ==> sessions == old(sessions)[token := AfterUse(policy, old(sessions)[token], now)]
    {
      if token == "" || token !in sessions {
        return false;
      }
      var session := sessions[token];
      if session.revoked {
        return false;
      }
      if !(session.expiresAt > now) || !(session.absoluteExpiresAt > now) {
        return false;
      }
      if now - session.lastSeen > policy.touchInterval && written {
        sessions := sessions[token := session.(lastSeen := now, expiresAt := now + policy.idle)];
      }
      assert written ==> sessions == old(sessions)[token := AfterUse(policy, session, now)];
      return true;
    }
  }

  // Uses one after another.

  /** A use comes a while after the one before; `written` says whether a touch it makes is written. */
  datatype Use = Use(gap: nat, written: bool)

  function Elapsed(uses: seq<Use>): nat {
    if uses == [] then 0 else Elapsed(uses[..|uses| - 1]) + uses[|uses| - 1].gap
  }

  /** A session started at t, after some uses. */
  function AfterUses(p: Policy, t: int, uses: seq<Use>): Session {
    if uses == [] then Started(p, t)
    else
      var before := AfterUses(p, t, uses[..|uses| - 1]);
      if uses[|uses| - 1].written then AfterUse(p, before, t + Elapsed(uses)) else before
  }

  /** How many touches in a row have been lost by now. */
  function Lost(p: Policy, t: int, uses: seq<Use>): nat {
    if uses == [] then 0
    else
      var init, last := uses[..|uses| - 1], uses[|uses| - 1];
      var before := AfterUses(p, t, init);
      if !Accepts(before, t + Elapsed(uses)) || !NeedsTouch(p, before, t + Elapsed(uses)) then Lost(p, t, init)
      else if last.written then 0
      else Lost(p, t, init) + 1
  }

  /** No gap is longer than g, and no more than k touches in a row are ever lost. */
  ghost predicate Regular(p: Policy, t: int, uses: seq<Use>, g: nat, k: nat) {
    uses != [] ==>
      uses[|uses| - 1].gap <= g && Lost(p, t, uses) <= k && Regular(p, t, uses[..|uses| - 1], g, k)
  }

  lemma OneMore(n: nat, k: nat, g: nat)
    requires n <= k
    ensures (n + 1) * g == n * g + g && (n + 1) * g <= (k + 1) * g
  {
    assert (k + 1) * g - (n + 1) * g == (k - n) * g >= 0;
  }

  lemma {:induction false} FreshEnough(p: Policy, t: int, uses: seq<Use>, g: nat, k: nat)
    requires Regular(p, t, uses, g, k) && (k + 1) * g + p.touchInterval < p.idle
    ensures var s := AfterUses(p, t, uses);
            && !s.revoked && s.absoluteExpiresAt == t + p.absolute && s.expiresAt == s.lastSeen + p.idle
            && Lost(p, t, uses) <= k
            && (Elapsed(uses) < p.absolute ==>
                  s.lastSeen <= t + Elapsed(uses) <= s.lastSeen + p.touchInterval + Lost(p, t, uses) * g)
  {
    if uses != [] {
      var init := uses[..|uses| - 1];
      FreshEnough(p, t, init, g, k);
      OneMore(Lost(p, t, init), k, g);
    }
  }

  lemma {:induction false} NeverExpiresSooner(p: Policy, t: int, uses: seq<Use>)
    ensures var s := AfterUses(p, t, uses);
            !s.revoked && s.absoluteExpiresAt == t + p.absolute && s.expiresAt >= t + p.idle
  {
    if uses != [] {
      NeverExpiresSooner(p, t, uses[..|uses| - 1]);
    }
  }

  /** Used once more after a while, the session is accepted exactly when its absolute cap is still ahead. */
  predicate OnlyCapped(p: Policy, t: int, uses: seq<Use>, next: nat) {
    Accepts(AfterUses(p, t, uses), t + Elapsed(uses) + next) <==> Elapsed(uses) + next < p.absolute
  }

  /** However it is used at such gaps, with so many touches lost, a session is accepted at every use until
      its absolute cap and at none from then on. */
  ghost predicate LivesToItsCap(p: Policy, g: nat, k: nat) {
    forall t: int, uses: seq<Use>, next: nat :: Regular(p, t, uses, g, k) && next <= g ==> OnlyCapped(p, t, uses, next)
  }

  /** A stretch of time cut into at most k whole gaps and a last one. */
  lemma {:induction false} Cut(r: nat, g: nat, k: nat) returns (n: nat)
    requires g > 0 && r <= (k + 1) * g
    ensures n <= k && n * g <= r <= n * g + g
  {
    if k == 0 || r <= k * g {
      if k == 0 {
        n := 0;
      } else {
        n := Cut(r, g, k - 1);
      }
    } else {
      n := k;
    }
  }

  function Repeat(gap: nat, written: bool, n: nat): seq<Use> {
    if n == 0 then [] else Repeat(gap, written, n - 1) + [Use(gap, written)]
  }

  /** Uses too soon to touch leave the session as it started. */
  lemma {:induction false} TooSoonToTouch(p: Policy, t: int, n: nat, g: nat, k: nat)
    requires n <= p.touchInterval && g >= 1
    ensures var uses := Repeat(1, true, n);
            && Elapsed(uses) == n && AfterUses(p, t, uses) == Started(p, t) && Lost(p, t, uses) == 0
            && Regular(p, t, uses, g, k)
  {
    if n > 0 {
      TooSoonToTouch(p, t, n - 1, g, k);
      var uses := Repeat(1, true, n);
      assert uses[..|uses| - 1] == Repeat(1, true, n - 1);
    }
  }

  /** So do uses whose touches are lost. */
  lemma {:induction false} LosingTouches(p: Policy, t: int, m: nat, n: nat, g: nat, k: nat)
    requires m <= p.touchInterval && g >= 1 && n <= k
    ensures var uses := Repeat(1, true, m) + Repeat(g, false, n);
            && Elapsed(uses) == m + n * g && AfterUses(p, t, uses) == Started(p, t) && Lost(p, t, uses) <= n
            && Regular(p, t, uses, g, k)
  {
    var uses := Repeat(1, true, m) + Repeat(g, false, n);
    if n == 0 {
      TooSoonToTouch(p, t, m, g, k);
      assert uses == Repeat(1, true, m);
    } else {
      LosingTouches(p, t, m, n - 1, g, k);
      assert uses[..|uses| - 1] == Repeat(1, true, m) + Repeat(g, false, n - 1);
      assert n * g == (n - 1) * g + g;
    }
  }

  /** Uses at gaps up to g that reach the idle expiry without ever sliding it. */
  lemma SlipsThrough(p: Policy, g: nat, k: nat)
    requires g >= 1 && (k + 1) * g + p.touchInterval >= p.idle && p.idle < p.absolute
    ensures !LivesToItsCap(p, g, k)
  {
    var m := if p.idle <= (k + 1) * g then 0 else p.idle - (k + 1) * g;
    var n := Cut(p.idle - m, g, k);
    LosingTouches(p, 0, m, n, g, k);
    var uses, next := Repeat(1, true, m) + Repeat(g, false, n), p.idle - m - n * g;
    assert Regular(p, 0, uses, g, k) && next <= g;
    assert 0 + Elapsed(uses) + next == p.idle;
    assert !OnlyCapped(p, 0, uses, next);
  }

  /** A session used at gaps of at most g, losing at most k touches in a row, lives to its absolute cap
      exactly when k + 1 gaps and the touch interval stay below the idle timeout, or the idle timeout is
      not shorter than the cap. Gaps shorter than the idle timeout are not enough. */
  lemma LivesToItsCapExactlyWhen(p: Policy, g: nat, k: nat)
    requires g >= 1
    ensures LivesToItsCap(p, g, k) <==> (k + 1) * g + p.touchInterval < p.idle || p.absolute <= p.idle
  {
    if (k + 1) * g + p.touchInterval < p.idle || p.absolute <= p.idle {
      forall t: int, uses: seq<Use>, next: nat | Regular(p, t, uses, g, k) && next <= g
        ensures OnlyCapped(p, t, uses, next)
      {
        NeverExpiresSooner(p, t, uses);
        if p.absolute > p.idle {
          FreshEnough(p, t, uses, g, k);
          OneMore(Lost(p, t, uses), k, g);
        }
      }
    } else {
      SlipsThrough(p, g, k);
    }
  }

  /** With every touch written, that is a gap and the touch interval below the idle timeout. */
  lemma WrittenTouchesExactlyWhen(p: Policy, g: nat)
    requires g >= 1
    ensures LivesToItsCap(p, g, 0) <==> g + p.touchInterval < p.idle || p.absolute <= p.idle
  {
    LivesToItsCapExactlyWhen(p, g, 0);
  }

  // Requests at once. A request reads the session, and may write its touch later than others do.

  /** One accepted request: when it was made, and the use the session then remembered. */
  datatype Acceptance = Acceptance(token: string, at: int, since: int)

  datatype Pending = Pending(token: string, at: int, since: int)

  /** `started` and `log` are history. */
  datatype State = State(
    now: int, sessions: map<string, Session>, pending: map<nat, Pending>, started: map<string, int>,
    log: seq<Acceptance>)

  datatype Step =
    | Tick(elapsed: nat)
    | Start(token: string)
    | Look(request: nat, token: string)
    | Land(request: nat, written: bool)
    | Revoke(token: string)
    | SweepExpired

  function Apply(p: Policy, s: State, step: Step): State {
    match step
    case Tick(elapsed) => s.(now := s.now + elapsed)
    case Start(token) =>
      if token == "" || token in s.started then s
      else s.(sessions := s.sessions[token := Started(p, s.now)], started := s.started[token := s.now])
    case Look(request, token) =>
      if token !in s.sessions || !Accepts(s.sessions[token], s.now) then s
      else if NeedsTouch(p, s.sessions[token], s.now)
      then s.(pending := s.pending[request := Pending(token, s.now, s.sessions[token].lastSeen)])
      else s.(log := s.log + [Acceptance(token, s.now, s.sessions[token].lastSeen)])
    case Land(request, written) =>
      if request !in s.pending then s
      else
        var Pending(token, at, since) := s.pending[request];
        var done := s.(pending := s.pending - {request});
        if !written then done.(log := s.log + [Acceptance(token, at, since)])
        else if token !in s.sessions || s.sessions[token].revoked then done
        else
          done.(log := s.log + [Acceptance(token, at, since)],
                sessions := s.sessions[token := Touched(p, s.sessions[token], at)])
    case Revoke(token) =>
      if token !in s.sessions then s else s.(sessions := s.sessions[token := s.sessions[token].(revoked := true)])
    case SweepExpired =>
      s.(sessions := map token |
           token in s.sessions && s.sessions[token].absoluteExpiresAt >= s.now :: s.sessions[token])
  }

  function Run(p: Policy, steps: seq<Step>): State {
    if steps == [] then State(0, map[], map[], map[], [])
    else Apply(p, Run(p, steps[..|steps| - 1]), steps[|steps| - 1])
  }

  /** The session was started at t, or one of these requests of it was made at t. */
  ghost predicate UsedAt(started: map<string, int>, log: seq<Acceptance>, token: string, t: int) {
    || (token in started && started[token] == t)
    || (exists k :: 0 <= k < |log| && log[k].token == token && log[k].at == t)
  }

  /** What an acceptance rests on: the session is under its cap, and was used within the idle timeout by
      one of the requests accepted before. */
  ghost predicate Justified(
    p: Policy, started: map<string, int>, before: seq<Acceptance>, token: string, at: int, since: int)
  {
    && token in started && at < started[token] + p.absolute
    && since <= at < since + p.idle
    && UsedAt(started, before, token, since)
  }

  ghost predicate SessionOk(p: Policy, s: State, token: string) {
    token in s.sessions ==>
      && token in s.started
      && s.sessions[token].absoluteExpiresAt == s.started[token] + p.absolute
      && s.sessions[token].expiresAt == s.sessions[token].lastSeen + p.idle
      && s.sessions[token].lastSeen <= s.now
      && UsedAt(s.started, s.log, token, s.sessions[token].lastSeen)
  }

  ghost predicate PendingOk(p: Policy, s: State, request: nat) {
    request in s.pending ==>
      && var Pending(token, at, since) := s.pending[request];
         Justified(p, s.started, s.log, token, at, since) && at <= s.now
  }

  ghost predicate LogOk(p: Policy, s: State, k: nat) {
    k < |s.log| ==> Justified(p, s.started, s.log[..k], s.log[k].token, s.log[k].at, s.log[k].since)
  }

  ghost predicate Inv(p: Policy, s: State) {
    && (forall token :: SessionOk(p, s, token))
    && (forall request :: PendingOk(p, s, request))
    && (forall k :: LogOk(p, s, k))
  }

  /** History only grows. */
  lemma UsesStay(p: Policy, s: State, step: Step, log: seq<Acceptance>, token: string, t: int)
    requires log <= s.log && UsedAt(s.started, log, token, t)
    ensures UsedAt(Apply(p, s, step).started, log, token, t)
    ensures UsedAt(Apply(p, s, step).started, Apply(p, s, step).log, token, t)
  {
    var u := Apply(p, s, step);
    assert s.log <= u.log;
    if k :| 0 <= k < |log| && log[k].token == token && log[k].at == t {
      assert u.log[k] == log[k];
    }
  }

  lemma SessionStaysOk(p: Policy, s: State, step: Step, token: string)
    requires Inv(p, s)
    ensures SessionOk(p, Apply(p, s, step), token)
  {
    var u := Apply(p, s, step);
    assert SessionOk(p, s, token);
    if token in s.sessions {
      UsesStay(p, s, step, s.log, token, s.sessions[token].lastSeen);
    }
    if step.Land? && step.request in s.pending && |u.log| > |s.log| {
      assert PendingOk(p, s, step.request);
      assert u.log[|s.log|].at == s.pending[step.request].at && u.log[|s.log|].token == s.pending[step.request].token;
    }
  }

  lemma PendingStaysOk(p: Policy, s: State, step: Step, request: nat)
    requires Inv(p, s)
    ensures PendingOk(p, Apply(p, s, step), request)
  {
    assert PendingOk(p, s, request);
    if request in s.pending {
      UsesStay(p, s, step, s.log, s.pending[request].token, s.pending[request].since);
    }
    if step.Look? {
      assert SessionOk(p, s, step.token);
    }
  }

  lemma LogStaysOk(p: Policy, s: State, step: Step, k: nat)
    requires Inv(p, s)
    ensures LogOk(p, Apply(p, s, step), k)
  {
    var u := Apply(p, s, step);
    assert s.log <= u.log && |u.log| <= |s.log| + 1;
    if k < |s.log| {
      assert LogOk(p, s, k);
      assert u.log[..k] == s.log[..k] && u.log[k] == s.log[k];
      UsesStay(p, s, step, s.log[..k], s.log[k].token, s.log[k].since);
    } else if k < |u.log| {
      assert u.log[..k] == s.log;
      if step.Look? {
        assert SessionOk(p, s, step.token);
      } else {
        assert PendingOk(p, s, step.request);
      }
    }
  }

  lemma {:induction false} RunKeepsInv(p: Policy, steps: seq<Step>)
    ensures Inv(p, Run(p, steps))
    decreases |steps|
  {
    if steps != [] {
      var s, step := Run(p, steps[..|steps| - 1]), steps[|steps| - 1];
      RunKeepsInv(p, steps[..|steps| - 1]);
      forall token ensures SessionOk(p, Apply(p, s, step), token) { SessionStaysOk(p, s, step, token); }
      forall request ensures PendingOk(p, Apply(p, s, step), request) { PendingStaysOk(p, s, step, request); }
      forall k ensures LogOk(p, Apply(p, s, step), k) { LogStaysOk(p, s, step, k); }
    }
  }

  /** However requests, late touches, failed writes, revocations and sweeps interleave, a token is only
      accepted before its absolute expiry, and less than the idle timeout after it was started or a request
      accepted before was made. */
  lemma NothingIsAcceptedExpired(p: Policy, steps: seq<Step>, k: nat)
    requires k < |Run(p, steps).log|
    ensures var s := Run(p, steps);
            var Acceptance(token, at, since) := s.log[k];
            && token in s.started && at < s.started[token] + p.absolute
            && since <= at < since + p.idle && UsedAt(s.started, s.log[..k], token, since)
  {
    RunKeepsInv(p, steps);
    assert LogOk(p, Run(p, steps), k);
  }

  /** So once a token has gone unused for the whole idle timeout, no request of it made afterwards is ever
      accepted, whatever was in flight. */
  lemma {:induction false} IdleSessionIsOver(p: Policy, steps: seq<Step>, token: string, last: int, k: nat)
    requires token in Run(p, steps).started && Run(p, steps).started[token] <= last
    requires forall j :: 0 <= j < |Run(p, steps).log| && Run(p, steps).log[j].token == token ==>
               !(last < Run(p, steps).log[j].at < last + p.idle)
    requires k < |Run(p, steps).log| && Run(p, steps).log[k].token == token
    ensures Run(p, steps).log[k].at <= last
    decreases k
  {
    var s := Run(p, steps);
    NothingIsAcceptedExpired(p, steps, k);
    if s.started[token] != s.log[k].since {
      var j :| 0 <= j < k && s.log[..k][j].token == token && s.log[..k][j].at == s.log[k].since;
      IdleSessionIsOver(p, steps, token, last, j);
    }
  }

  /** One request with nothing in between is accepted exactly when its session is stored, has not been revoked
      and has both expiries ahead; and it slides the idle one when that is due and written. */
  lemma RequestIsAnswered(p: Policy, s: State, request: nat, token: string, written: bool)
    requires request !in s.pending
    ensures var t := Apply(p, Apply(p, s, Look(request, token)), Land(request, written));
            var live := token in s.sessions && !s.sessions[token].revoked
                        && s.now < s.sessions[token].expiresAt && s.now < s.sessions[token].absoluteExpiresAt;
            && t.log == (if live then s.log + [Acceptance(token, s.now, s.sessions[token].lastSeen)] else s.log)
            && t.pending == s.pending
            && t.sessions ==
               if live && written && s.now > s.sessions[token].lastSeen + p.touchInterval
               then s.sessions[token := s.sessions[token].(lastSeen := s.now, expiresAt := s.now + p.idle)]
               else s.sessions
  {
    if token in s.sessions {
      assert s.pending[request := Pending(token, s.now, s.sessions[token].lastSeen)] - {request} == s.pending;
    }
  }

  /** A sweep signs nobody out: whatever it drops would not have been accepted again, and it drops nothing
      else. */
  lemma SweepSignsNobodyOut(p: Policy, s: State, token: string, now: int)
    requires s.now <= now
    ensures var t := Apply(p, s, SweepExpired);
            && (token in t.sessions ==> token in s.sessions && t.sessions[token] == s.sessions[token])
            && (token in s.sessions && now < s.sessions[token].absoluteExpiresAt ==> token in t.sessions)
  {
  }

  // Logging out.

  /** The token has been used up: its session is revoked or gone, and cannot be started again. */
  ghost predicate Over(s: State, token: string) {
    token in s.started && (token in s.sessions ==> s.sessions[token].revoked)
  }

  lemma StaysOver(p: Policy, s: State, step: Step, token: string)
    requires Over(s, token)
    ensures Over(Apply(p, s, step), token)
  {
  }

  lemma {:induction false} RunStaysOver(p: Policy, steps: seq<Step>, more: seq<Step>, token: string)
    requires Over(Run(p, steps), token)
    ensures Over(Run(p, steps + more), token)
    decreases |more|
  {
    if more == [] {
      assert steps + more == steps;
    } else {
      var init, last := more[..|more| - 1], more[|more| - 1];
      RunStaysOver(p, steps, init, token);
      assert (steps + more)[..|steps + more| - 1] == steps + init;
      StaysOver(p, Run(p, steps + init), last, token);
    }
  }

  /** Over every run, once a stored session has been revoked no request of its token made later gets anywhere,
      and none made before is accepted by a touch that lands later. */
  lemma RevokedIsOver(p: Policy, steps: seq<Step>, more: seq<Step>, token: string, request: nat)
    requires token in Run(p, steps).sessions
    ensures var s := Run(p, steps + [Revoke(token)] + more);
            && Apply(p, s, Look(request, token)) == s
            && (request in s.pending && s.pending[request].token == token ==>
                  Apply(p, s, Land(request, true)).log == s.log
                  && Apply(p, s, Land(request, true)).sessions == s.sessions)
  {
    RunKeepsInv(p, steps);
    assert SessionOk(p, Run(p, steps), token);
    assert (steps + [Revoke(token)])[..|steps|] == steps;
    RunStaysOver(p, steps + [Revoke(token)], more, token);
    hide Run;
  }
}
