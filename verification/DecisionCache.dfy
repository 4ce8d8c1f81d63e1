/** The decision cache: remembered decisions and remembered standings under one generation, and why no
    answer given after a write was read before it. */
module DecisionCache {
  import opened Common
  import opened AuthzModel
  import opened LengthPrefix

  datatype Slot<+V> = Slot(value: V, expires: int)

  /** A decision is live strictly before it expires. */
  function LiveDecision<D>(entries: map<string, Slot<D>>, key: string, now: int): Option<D> {
    if key in entries && entries[key].expires > now then Some(entries[key].value) else None
  }

  /** A standing is live up to and including the moment it expires. */
  function LiveGrants<G>(grants: map<string, Slot<G>>, key: string, now: int): Option<G> {
    if key in grants && now <= grants[key].expires then Some(grants[key].value) else None
  }

  /** Remembers an answer, unless the generation moved since the one it was computed under. */
  function Remembered<V>(table: map<string, Slot<V>>, key: string, asked: nat, current: nat, value: V, expires: int)
    : map<string, Slot<V>>
  {
    if asked != current then table else table[key := Slot(value, expires)]
  }

  function GrantKey(generation: nat, subject: Subject, target: Object): string {
    Decimal(generation) + "|" + subject.Render() + "|" + RenderObject(target)
  }

  class Cache<D, G> {
    const ttl: nat
    var entries: map<string, Slot<D>>
    var grants: map<string, Slot<G>>
    var generation: nat
    var hits: nat
    var misses: nat

    constructor (ttl: nat)
      ensures this.ttl == ttl && entries == map[] && grants == map[] && generation == 0 && hits == misses == 0
    {
      this.ttl, entries, grants, generation, hits, misses := ttl, map[], map[], 0, 0, 0;
    }

    method Invalidate()
      modifies this`generation, this`entries, this`grants
      ensures generation == old(generation) + 1 && entries == map[] && grants == map[]
    {
      generation, entries, grants := generation + 1, map[], map[];
    }

    method Lookup(key: string, now: int) returns (found: Option<D>)
      modifies this`hits, this`misses
      ensures found == LiveDecision(entries, key, now)
      ensures hits == old(hits) + (if found.Some? then 1 else 0)
              && misses == old(misses) + (if found.Some? then 0 else 1)
    {
      if key !in entries || !(entries[key].expires > now) {
        misses := misses + 1;
        return None;
      }
      hits := hits + 1;
      return Some(entries[key].value);
    }

    method Store(key: string, asked: nat, decision: D, now: int)
      modifies this`entries
      ensures entries == Remembered(old(entries), key, asked, generation, decision, now + ttl)
    {
      if asked != generation {
        return;
      }
      entries := entries[key := Slot(decision, now + ttl)];
    }

    method LookupGrants(key: string, now: int) returns (found: Option<G>)
      ensures found == LiveGrants(grants, key, now)
    {
      if key !in grants || now > grants[key].expires {
        return None;
      }
      return Some(grants[key].value);
    }

    method StoreGrants(key: string, asked: nat, relations: G, now: int)
      modifies this`grants
      ensures grants == Remembered(old(grants), key, asked, generation, relations, now + ttl)
    {
      if asked != generation {
        return;
      }
      grants := grants[key := Slot(relations, now + ttl)];
    }
  }

  // Every interleaving. A step is one section under the lock, or the start or end of a walk of the graph.

  datatype Question = Asks(request: Request) | Stands(subject: Subject, target: Object)

  /** An answer, and what it is an answer to: the question and the generation it was asked under, which
      call's walk found it, when that began and ended, counted in steps of the run, and when it was stored.
      The cache reads only the value. */
  datatype Answer = Answer(
    value: int, question: Question, generation: nat, walker: nat, readFrom: nat, readTo: nat, storedAt: int)

  datatype Call =
    | Keyed(question: Question, key: string, generation: nat, begunAt: nat)
    | Missed(question: Question, key: string, generation: nat, begunAt: nat)
    | Walking(question: Question, key: string, generation: nat, begunAt: nat, readFrom: nat)
    | Walked(question: Question, key: string, generation: nat, begunAt: nat, readFrom: nat, readTo: nat, value: int)
    | Failed
    | Returned(question: Question, generation: nat, begunAt: nat, answer: Answer, hit: bool, at: int)

  datatype State = State(
    now: int, step: nat,
    entries: map<string, Slot<Answer>>, grants: map<string, Slot<Answer>>, generation: nat,
    calls: map<nat, Call>)

  datatype Step =
    | Tick(elapsed: nat)
    | Invalidate
    | Begin(id: nat, question: Question)
    | LookUp(id: nat)
    | StartWalk(id: nat)
    | EndWalk(id: nat, value: int)
    | FailWalk(id: nat)
    | Finish(id: nat)

  function KeyOf(q: Question, generation: nat): string {
    match q
    case Asks(r) => r.Render()
    case Stands(subject, target) => GrantKey(generation, subject, target)
  }

  function WithCall(s: State, id: nat, call: Call): State {
    s.(calls := s.calls[id := call])
  }

  function Do(ttl: nat, s: State, step: Step): State {
    match step
    case Tick(elapsed) => s.(now := s.now + elapsed)
    case Invalidate => s.(generation := s.generation + 1, entries := map[], grants := map[])
    case Begin(id, q) =>
      if id in s.calls then s else WithCall(s, id, Keyed(q, KeyOf(q, s.generation), s.generation, s.step))
    case LookUp(id) =>
      if id !in s.calls || !s.calls[id].Keyed? then s
      else
        var k := s.calls[id];
        var found :=
          if k.question.Asks? then LiveDecision(s.entries, k.key, s.now) else LiveGrants(s.grants, k.key, s.now);
        WithCall(s, id, match found
                        case Some(a) => Returned(k.question, k.generation, k.begunAt, a, true, s.now)
                        case None => Missed(k.question, k.key, k.generation, k.begunAt))
    case StartWalk(id) =>
      if id !in s.calls || !s.calls[id].Missed? then s
      else
        var k := s.calls[id];
        WithCall(s, id, Walking(k.question, k.key, k.generation, k.begunAt, s.step))
    case EndWalk(id, value) =>
      if id !in s.calls || !s.calls[id].Walking? then s
      else
        var k := s.calls[id];
        WithCall(s, id, Walked(k.question, k.key, k.generation, k.begunAt, k.readFrom, s.step, value))
    case FailWalk(id) =>
      if id !in s.calls || !s.calls[id].Walking? then s else WithCall(s, id, Failed)
    case Finish(id) =>
      if id !in s.calls || !s.calls[id].Walked? then s
      else
        var k := s.calls[id];
        var a := Answer(k.value, k.question, k.generation, id, k.readFrom, k.readTo, s.now);
        var t := WithCall(s, id, Returned(k.question, k.generation, k.begunAt, a, false, s.now));
        if k.question.Asks?
        then t.(entries := Remembered(s.entries, k.key, k.generation, s.generation, a, s.now + ttl))
        else t.(grants := Remembered(s.grants, k.key, k.generation, s.generation, a, s.now + ttl))
  }

  function Run(ttl: nat, steps: seq<Step>): State {
    if steps == [] then State(0, 0, map[], map[], 0, map[])
    else Advance(ttl, Run(ttl, steps[..|steps| - 1]), steps[|steps| - 1])
  }

  function Advance(ttl: nat, s: State, step: Step): State {
    Do(ttl, s, step).(step := s.step + 1)
  }

  function Invalidations(steps: seq<Step>): nat {
    if steps == [] then 0
    else Invalidations(steps[..|steps| - 1]) + if steps[|steps| - 1] == Invalidate then 1 else 0
  }

  /** Every invalidation so far came before this moment. */
  ghost predicate AllBefore(steps: seq<Step>, moment: nat) {
    forall j :: 0 <= j < |steps| && steps[j] == Invalidate ==> j < moment
  }

  lemma {:induction false} NoneSince(steps: seq<Step>, begun: nat)
    requires begun <= |steps|
    ensures Invalidations(steps[..begun]) <= Invalidations(steps)
    ensures Invalidations(steps[..begun]) == Invalidations(steps) ==> AllBefore(steps, begun)
    decreases |steps|
  {
    if begun < |steps| {
      var before := steps[..|steps| - 1];
      assert before[..begun] == steps[..begun];
      NoneSince(before, begun);
      assert forall j :: 0 <= j < |before| ==> before[j] == steps[j];
    } else {
      assert steps[..begun] == steps;
    }
  }

  ghost predicate CallOk(ttl: nat, steps: seq<Step>, c: Call) {
    match c
    case Failed => true
    case Returned(q, g, begun, a, hit, at) =>
      && begun <= |steps|
      && (forall j :: 0 <= j < begun && steps[j] == Invalidate ==> j < a.readFrom)
      && (!hit ==> a.question == q && begun <= a.readFrom)
      && (hit ==> a.storedAt <= at <= a.storedAt + ttl && (q.Asks? ==> at < a.storedAt + ttl))
      && (hit ==> KeyOf(q, g) == KeyOf(a.question, a.generation) && q.Asks? == a.question.Asks?)
    case _ =>
      && c.begunAt <= |steps|
      && c.generation == Invalidations(steps[..c.begunAt])
      && c.key == KeyOf(c.question, c.generation)
      && (c.Walking? || c.Walked? ==> c.begunAt <= c.readFrom)
  }

  ghost predicate SlotOk(ttl: nat, steps: seq<Step>, now: int, key: string, slot: Slot<Answer>, decision: bool) {
    && AllBefore(steps, slot.value.readFrom)
    && key == KeyOf(slot.value.question, slot.value.generation)
    && slot.value.question.Asks? == decision
    && slot.expires == slot.value.storedAt + ttl && slot.value.storedAt <= now
  }

  ghost predicate Inv(ttl: nat, steps: seq<Step>, s: State) {
    && s.step == |steps|
    && s.generation == Invalidations(steps)
    && (forall id :: id in s.calls ==> CallOk(ttl, steps, s.calls[id]))
    && (forall k :: k in s.entries ==> SlotOk(ttl, steps, s.now, k, s.entries[k], true))
    && (forall k :: k in s.grants ==> SlotOk(ttl, steps, s.now, k, s.grants[k], false))
  }

  lemma CallStaysOk(ttl: nat, before: seq<Step>, steps: seq<Step>, c: Call)
    requires |steps| == |before| + 1 && steps[..|before|] == before && CallOk(ttl, before, c)
    ensures CallOk(ttl, steps, c)
  {
    assert forall j :: 0 <= j < |before| ==> before[j] == steps[j];
    if !c.Failed? && !c.Returned? {
      assert steps[..c.begunAt] == before[..c.begunAt];
    }
  }

  lemma SlotStaysOk(ttl: nat, before: seq<Step>, steps: seq<Step>, now: int, later: int, key: string,
                    slot: Slot<Answer>, decision: bool)
    requires |steps| == |before| + 1 && steps[..|before|] == before && steps[|before|] != Invalidate
    requires SlotOk(ttl, before, now, key, slot, decision) && now <= later
    ensures SlotOk(ttl, steps, later, key, slot, decision)
  {
    assert forall j :: 0 <= j < |before| ==> before[j] == steps[j];
  }

  lemma LookUpOk(ttl: nat, before: seq<Step>, s: State, id: nat)
    requires Inv(ttl, before, s) && id in s.calls && s.calls[id].Keyed?
    ensures CallOk(ttl, before, Do(ttl, s, LookUp(id)).calls[id])
  {
    var k := s.calls[id];
    assert CallOk(ttl, before, k);
    var table := if k.question.Asks? then s.entries else s.grants;
    if k.key in table {
      var slot := table[k.key];
      assert SlotOk(ttl, before, s.now, k.key, slot, k.question.Asks?);
    }
  }

  lemma FinishOk(ttl: nat, before: seq<Step>, s: State, id: nat)
    requires Inv(ttl, before, s) && id in s.calls && s.calls[id].Walked?
    ensures var k := s.calls[id];
            var a := Answer(k.value, k.question, k.generation, id, k.readFrom, k.readTo, s.now);
            && CallOk(ttl, before, Returned(k.question, k.generation, k.begunAt, a, false, s.now))
            && (k.generation == s.generation ==>
                  SlotOk(ttl, before, s.now, k.key, Slot(a, s.now + ttl), k.question.Asks?))
  {
    var k := s.calls[id];
    assert CallOk(ttl, before, k);
    NoneSince(before, k.begunAt);
  }

  lemma StepKeepsCalls(ttl: nat, before: seq<Step>, s: State, step: Step)
    requires Inv(ttl, before, s)
    ensures forall id :: id in Do(ttl, s, step).calls ==> CallOk(ttl, before, Do(ttl, s, step).calls[id])
  {
    var t := Do(ttl, s, step);
    assert before[..|before|] == before;
    if step.LookUp? && t != s { LookUpOk(ttl, before, s, step.id); }
    if step.Finish? && t != s { FinishOk(ttl, before, s, step.id); }
    forall id | id in t.calls ensures CallOk(ttl, before, t.calls[id]) {
      assert id in s.calls ==> CallOk(ttl, before, s.calls[id]);
    }
  }

  lemma StepKeepsSlots(ttl: nat, before: seq<Step>, s: State, step: Step)
    requires Inv(ttl, before, s) && step != Invalidate
    ensures var t := Do(ttl, s, step);
            && (forall k :: k in t.entries ==> SlotOk(ttl, before, t.now, k, t.entries[k], true))
            && (forall k :: k in t.grants ==> SlotOk(ttl, before, t.now, k, t.grants[k], false))
  {
    var t := Do(ttl, s, step);
    if step.Finish? && t != s {
      FinishKeepsSlots(ttl, before, s, step.id);
    } else {
      OthersKeepTables(ttl, s, step);
      hide Do, CallOk, KeyOf;
    }
  }

  lemma OthersKeepTables(ttl: nat, s: State, step: Step)
    requires step != Invalidate && (step.Finish? ==> Do(ttl, s, step) == s)
    ensures var t := Do(ttl, s, step); t.entries == s.entries && t.grants == s.grants && s.now <= t.now
  {
    hide KeyOf, LiveDecision, LiveGrants;
  }

  lemma FinishKeepsSlots(ttl: nat, before: seq<Step>, s: State, id: nat)
    requires Inv(ttl, before, s) && id in s.calls && s.calls[id].Walked?
    ensures var t := Do(ttl, s, Finish(id));
            && (forall k :: k in t.entries ==> SlotOk(ttl, before, t.now, k, t.entries[k], true))
            && (forall k :: k in t.grants ==> SlotOk(ttl, before, t.now, k, t.grants[k], false))
  {
    hide CallOk, LiveDecision, LiveGrants;
    FinishOk(ttl, before, s, id);
  }

  lemma StepKeepsInv(ttl: nat, before: seq<Step>, s: State, step: Step)
    requires Inv(ttl, before, s)
    ensures Inv(ttl, before + [step], Advance(ttl, s, step))
  {
    var steps := before + [step];
    var t := Do(ttl, s, step);
    assert steps[..|before|] == before;
    StepKeepsCalls(ttl, before, s, step);
    forall id | id in t.calls ensures CallOk(ttl, steps, t.calls[id]) {
      CallStaysOk(ttl, before, steps, t.calls[id]);
    }
    if step != Invalidate {
      StepKeepsSlots(ttl, before, s, step);
      forall k | k in t.entries ensures SlotOk(ttl, steps, t.now, k, t.entries[k], true) {
        SlotStaysOk(ttl, before, steps, t.now, t.now, k, t.entries[k], true);
      }
      forall k | k in t.grants ensures SlotOk(ttl, steps, t.now, k, t.grants[k], false) {
        SlotStaysOk(ttl, before, steps, t.now, t.now, k, t.grants[k], false);
      }
    }
  }

  lemma {:induction false} RunKeepsInv(ttl: nat, steps: seq<Step>)
    ensures Inv(ttl, steps, Run(ttl, steps))
    decreases |steps|
  {
    if steps != [] {
      hide Inv, Advance;
      var before, last := steps[..|steps| - 1], steps[|steps| - 1];
      RunKeepsInv(ttl, before);
      StepKeepsInv(ttl, before, Run(ttl, before), last);
      assert before + [last] == steps;
      assert Run(ttl, steps) == Advance(ttl, Run(ttl, before), last);
    }
  }

  // Where values come from.

  predicate EndsWalkOf(step: Step, id: nat) {
    (step.EndWalk? || step.FailWalk?) && step.id == id
  }

  /** This call's walk began there and is still going on. */
  ghost predicate WalksFrom(steps: seq<Step>, id: nat, from: nat) {
    && from < |steps| && steps[from] == StartWalk(id)
    && forall i :: from < i < |steps| ==> !EndsWalkOf(steps[i], id)
  }

  /** This call's walk, begun there, first ended there, and found this value. */
  ghost predicate Found(steps: seq<Step>, id: nat, from: nat, to: nat, value: int) {
    && from < to < |steps| && steps[from] == StartWalk(id) && steps[to] == EndWalk(id, value)
    && forall i :: from < i < to ==> !EndsWalkOf(steps[i], id)
  }

  ghost predicate AnswerFound(steps: seq<Step>, a: Answer) {
    Found(steps, a.walker, a.readFrom, a.readTo, a.value)
  }

  ghost predicate CallFound(steps: seq<Step>, id: nat, c: Call) {
    match c
    case Walking(_, _, _, _, from) => WalksFrom(steps, id, from)
    case Walked(_, _, _, _, from, to, value) => Found(steps, id, from, to, value)
    case Returned(_, _, _, a, _, _) => AnswerFound(steps, a)
    case _ => true
  }

  ghost predicate AllFound(steps: seq<Step>, s: State) {
    && s.step == |steps|
    && (forall id :: id in s.calls ==> CallFound(steps, id, s.calls[id]))
    && (forall k :: k in s.entries ==> AnswerFound(steps, s.entries[k].value))
    && (forall k :: k in s.grants ==> AnswerFound(steps, s.grants[k].value))
  }

  lemma FoundStays(before: seq<Step>, step: Step, id: nat, c: Call)
    requires CallFound(before, id, c) && (c.Walking? ==> !EndsWalkOf(step, id))
    ensures CallFound(before + [step], id, c)
  {
  }

  lemma AnswerStaysFound(before: seq<Step>, step: Step, a: Answer)
    requires AnswerFound(before, a)
    ensures AnswerFound(before + [step], a)
  {
  }

  lemma StepFinds(ttl: nat, before: seq<Step>, s: State, step: Step, id: nat)
    requires AllFound(before, s) && id in Do(ttl, s, step).calls
    ensures CallFound(before + [step], id, Do(ttl, s, step).calls[id])
  {
    hide KeyOf, Remembered, CallFound;
    if id in s.calls && Do(ttl, s, step).calls[id] == s.calls[id] {
      if s.calls[id].Walking? {
        WalkingGoesOn(ttl, s, step, id);
      }
      FoundStays(before, step, id, s.calls[id]);
    } else {
      MovedFinds(ttl, before, s, step, id);
    }
  }

  lemma WalkingGoesOn(ttl: nat, s: State, step: Step, id: nat)
    requires id in s.calls && Do(ttl, s, step).calls[id] == s.calls[id] && s.calls[id].Walking?
    ensures !EndsWalkOf(step, id)
  {
    hide KeyOf, Remembered, LiveDecision, LiveGrants;
  }

  lemma MovedFinds(ttl: nat, before: seq<Step>, s: State, step: Step, id: nat)
    requires AllFound(before, s) && id in Do(ttl, s, step).calls
    requires id !in s.calls || Do(ttl, s, step).calls[id] != s.calls[id]
    ensures CallFound(before + [step], id, Do(ttl, s, step).calls[id])
  {
    hide KeyOf, Remembered;
    assert (before + [step])[|before|] == step;
    if step.LookUp? && Do(ttl, s, step).calls[id].Returned? {
      AnswerStaysFound(before, step, Do(ttl, s, step).calls[id].answer);
    } else if step.Finish? {
      FoundStays(before, step, id, s.calls[id]);
    }
  }

  lemma StepKeepsFound(ttl: nat, before: seq<Step>, s: State, step: Step)
    requires AllFound(before, s)
    ensures AllFound(before + [step], Advance(ttl, s, step))
  {
    var t, steps := Do(ttl, s, step), before + [step];
    forall id | id in t.calls ensures CallFound(steps, id, t.calls[id]) {
      StepFinds(ttl, before, s, step, id);
    }
    if step.Finish? && t != s {
      FinishKeepsFound(ttl, before, s, step.id);
    } else if step != Invalidate {
      OthersKeepTables(ttl, s, step);
      hide Do;
      SlotsStayFound(before, step, s);
    }
  }

  lemma SlotsStayFound(before: seq<Step>, step: Step, s: State)
    requires AllFound(before, s)
    ensures forall k :: k in s.entries ==> AnswerFound(before + [step], s.entries[k].value)
    ensures forall k :: k in s.grants ==> AnswerFound(before + [step], s.grants[k].value)
  {
    forall k | k in s.entries ensures AnswerFound(before + [step], s.entries[k].value) {
      AnswerStaysFound(before, step, s.entries[k].value);
    }
    forall k | k in s.grants ensures AnswerFound(before + [step], s.grants[k].value) {
      AnswerStaysFound(before, step, s.grants[k].value);
    }
  }

  lemma FinishKeepsFound(ttl: nat, before: seq<Step>, s: State, id: nat)
    requires AllFound(before, s) && id in s.calls && s.calls[id].Walked?
    ensures var t := Do(ttl, s, Finish(id));
            && (forall k :: k in t.entries ==> AnswerFound(before + [Finish(id)], t.entries[k].value))
            && (forall k :: k in t.grants ==> AnswerFound(before + [Finish(id)], t.grants[k].value))
  {
    SlotsStayFound(before, Finish(id), s);
    FinishStoresFound(ttl, before, s, id);
    hide KeyOf, AnswerFound, CallFound;
  }

  lemma FinishStoresFound(ttl: nat, before: seq<Step>, s: State, id: nat)
    requires AllFound(before, s) && id in s.calls && s.calls[id].Walked?
    ensures var k := s.calls[id];
            var a := Answer(k.value, k.question, k.generation, id, k.readFrom, k.readTo, s.now);
            AnswerFound(before + [Finish(id)], a)
  {
    FoundStays(before, Finish(id), id, s.calls[id]);
  }

  /** Over every run, everything remembered or returned is what the walk on record for it found. */
  lemma {:induction false} RunKeepsFound(ttl: nat, steps: seq<Step>)
    ensures AllFound(steps, Run(ttl, steps))
    decreases |steps|
  {
    if steps != [] {
      var before, last := steps[..|steps| - 1], steps[|steps| - 1];
      RunKeepsFound(ttl, before);
      StepKeepsFound(ttl, before, Run(ttl, before), last);
      assert before + [last] == steps;
    }
  }

  /** Ids are UUIDs: none of the characters the keys separate their parts with. */
  predicate PlainQuestion(q: Question) {
    match q
    case Asks(r) => PlainRequest(r)
    case Stands(subject, target) =>
      && PlainSubject(subject) && '|' !in subject.Render()
      && target.objectType != "" && ':' !in target.objectType && target.id != ""
  }

  lemma PlainKeysInjective(p: Question, g: nat, q: Question, g': nat)
    requires PlainQuestion(p) && PlainQuestion(q) && p.Asks? == q.Asks? && KeyOf(p, g) == KeyOf(q, g')
    ensures p == q
  {
    match p
    case Asks(r) => RequestRenderInjective(r, q.request);
    case Stands(subject, target) =>
      forall s: Subject, o: Object, n: nat | '|' !in s.Render() && ':' !in o.objectType
        ensures Cut(GrantKey(n, s, o), '|') == (Decimal(n), Some(s.Render() + ['|'] + RenderObject(o)))
        ensures Cut(s.Render() + ['|'] + RenderObject(o), '|') == (s.Render(), Some(RenderObject(o)))
        ensures Cut(RenderObject(o), ':') == (o.objectType, Some(o.id))
      {
        assert '|' !in Decimal(n) by {
          assert forall i :: 0 <= i < |Decimal(n)| ==> IsDigit(Decimal(n)[i]);
        }
        assert GrantKey(n, s, o) == Decimal(n) + ['|'] + (s.Render() + ['|'] + RenderObject(o));
        assert RenderObject(o) == o.objectType + [':'] + o.id;
        CutAt(Decimal(n), '|', s.Render() + ['|'] + RenderObject(o));
        CutAt(s.Render(), '|', RenderObject(o));
        CutAt(o.objectType, ':', o.id);
      }
      assert Cut(GrantKey(g, subject, target), '|') == Cut(GrantKey(g', q.subject, q.target), '|');
      RenderInjective(subject, q.subject);
  }

  /** No stale decision after a write. Whatever the interleaving, a Check or Grants that began after an
      Invalidate answers from a walk of the graph that began after it too, whether it hit or missed;
      the value is the one that walk found; and what it hit was stored for the same question, less than a
      TTL ago for a decision and no more than a TTL ago for a standing. */
  lemma NoAnswerPredatesInvalidate(ttl: nat, steps: seq<Step>, id: nat, write: nat)
    requires id in Run(ttl, steps).calls && Run(ttl, steps).calls[id].Returned?
    ensures var c := Run(ttl, steps).calls[id];
            && (write < c.begunAt <= |steps| && steps[write] == Invalidate ==> write < c.answer.readFrom)
            && Found(steps, c.answer.walker, c.answer.readFrom, c.answer.readTo, c.answer.value)
            && (!c.hit ==> c.answer.question == c.question && c.begunAt <= c.answer.readFrom)
            && (c.hit ==> c.answer.storedAt <= c.at <= c.answer.storedAt + ttl)
            && (c.hit && c.question.Asks? ==> c.at < c.answer.storedAt + ttl)
            && (PlainQuestion(c.question) && PlainQuestion(c.answer.question) ==> c.answer.question == c.question)
  {
    RunKeepsInv(ttl, steps);
    var c := Run(ttl, steps).calls[id];
    assert CallOk(ttl, steps, c);
    RunKeepsFound(ttl, steps);
    assert CallFound(steps, id, c);
    if c.hit && PlainQuestion(c.question) && PlainQuestion(c.answer.question) {
      PlainKeysInjective(c.question, c.generation, c.answer.question, c.answer.generation);
    }
  }

  // And it does answer.

  lemma RunMore(ttl: nat, steps: seq<Step>, step: Step)
    ensures Run(ttl, steps + [step]) == Advance(ttl, Run(ttl, steps), step)
  {
    assert (steps + [step])[..|steps|] == steps;
  }

  /** An answer is remembered under the key, at least until then. */
  ghost predicate Remembers(s: State, decision: bool, key: string, until: int) {
    if decision then key in s.entries && until <= s.entries[key].expires
    else key in s.grants && until <= s.grants[key].expires
  }

  lemma StepRemembers(ttl: nat, s: State, step: Step, decision: bool, key: string, until: int)
    requires Remembers(s, decision, key, until) && step != Invalidate && until <= s.now + ttl
    ensures var t := Advance(ttl, s, step);
            Remembers(t, decision, key, until) && t.generation == s.generation && s.now <= t.now
  {
    hide KeyOf, LiveDecision, LiveGrants;
  }

  lemma {:induction false} StaysRemembered(
    ttl: nat, steps: seq<Step>, more: seq<Step>, decision: bool, key: string, until: int)
    requires Remembers(Run(ttl, steps), decision, key, until) && until <= Run(ttl, steps).now + ttl
    requires Invalidate !in more
    ensures var s, t := Run(ttl, steps), Run(ttl, steps + more);
            Remembers(t, decision, key, until) && t.generation == s.generation && s.now <= t.now
    decreases |more|
  {
    hide Run, Remembers, Advance;
    if more == [] {
      assert steps + more == steps;
    } else {
      var init, last := more[..|more| - 1], more[|more| - 1];
      assert last in more;
      StaysRemembered(ttl, steps, init, decision, key, until);
      assert steps + more == (steps + init) + [last];
      RunMore(ttl, steps + init, last);
      StepRemembers(ttl, Run(ttl, steps + init), last, decision, key, until);
    }
  }

  lemma FinishRemembers(ttl: nat, steps: seq<Step>, id: nat)
    requires var s := Run(ttl, steps); id in s.calls && s.calls[id].Walked? && s.calls[id].generation == s.generation
    ensures var s, t := Run(ttl, steps), Run(ttl, steps + [Finish(id)]);
            var k := s.calls[id];
            && t.now == s.now && t.generation == s.generation
            && Remembers(t, k.question.Asks?, KeyOf(k.question, s.generation), s.now + ttl)
  {
    hide Run, KeyOf, Remembers, Advance, Do;
    var s := Run(ttl, steps);
    RunKeepsInv(ttl, steps);
    assert CallOk(ttl, steps, s.calls[id]);
    RunMore(ttl, steps, Finish(id));
    FinishRemembersKey(ttl, s, id);
  }

  lemma FinishRemembersKey(ttl: nat, s: State, id: nat)
    requires id in s.calls && s.calls[id].Walked? && s.calls[id].generation == s.generation
    ensures var t, k := Advance(ttl, s, Finish(id)), s.calls[id];
            t.now == s.now && t.generation == s.generation && Remembers(t, k.question.Asks?, k.key, s.now + ttl)
  {
  }

  /** A call is answered at once exactly when an answer is remembered under its key that has not expired. */
  lemma HitsExactlyWhenRemembered(ttl: nat, s: State, id: nat, q: Question)
    requires id !in s.calls
    ensures var t := Advance(ttl, Advance(ttl, s, Begin(id, q)), LookUp(id));
            var until := if q.Asks? then s.now + 1 else s.now;
            && id in t.calls
            && (Remembers(s, q.Asks?, KeyOf(q, s.generation), until) ==>
                  && t.calls[id].Returned? && t.calls[id].hit && t.calls[id].question == q
                  && t.calls[id].answer == (if q.Asks? then s.entries else s.grants)[KeyOf(q, s.generation)].value)
            && (!Remembers(s, q.Asks?, KeyOf(q, s.generation), until) ==> t.calls[id].Missed?)
  {
    hide KeyOf;
  }

  /** An answer saves the next walk: once a walk under the current generation has been stored, the same question
      is answered without one for less than a TTL, whatever else happens short of an invalidation. */
  lemma AskedAgainIsAnswered(ttl: nat, steps: seq<Step>, id: nat, more: seq<Step>, again: nat)
    requires var s := Run(ttl, steps); id in s.calls && s.calls[id].Walked? && s.calls[id].generation == s.generation
    requires Invalidate !in more
    requires var t := Run(ttl, steps + [Finish(id)] + more); again !in t.calls && t.now < Run(ttl, steps).now + ttl
    ensures var s, t := Run(ttl, steps), Run(ttl, steps + [Finish(id)] + more);
            var u := Advance(ttl, Advance(ttl, t, Begin(again, s.calls[id].question)), LookUp(again));
            again in u.calls && u.calls[again].Returned? && u.calls[again].hit
  {
    hide Run, Remembers, Advance, KeyOf;
    var s, t := Run(ttl, steps), Run(ttl, steps + [Finish(id)] + more);
    var q := s.calls[id].question;
    FinishRemembers(ttl, steps, id);
    StaysRemembered(ttl, steps + [Finish(id)], more, q.Asks?, KeyOf(q, s.generation), s.now + ttl);
    RemembersLess(t, q.Asks?, KeyOf(q, s.generation), s.now + ttl, if q.Asks? then t.now + 1 else t.now);
    HitsExactlyWhenRemembered(ttl, t, again, q);
  }

  lemma RemembersLess(s: State, decision: bool, key: string, until: int, sooner: int)
    requires Remembers(s, decision, key, until) && sooner <= until
    ensures Remembers(s, decision, key, sooner)
  {
  }
}
