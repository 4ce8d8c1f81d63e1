/** Authorization over the group graph: the bounded breadth-first closure of a user's groups, and the
    decision and the standing drawn from it. Groups are nested by a parent pointer, so cycles can be
    stored. */
module GroupGraph {
  import opened Common
  import opened AuthzModel
  import opened Sorting

  const MAX_GROUP_DEPTH := 10

  datatype Tuple = Tuple(subject: Subject, relation: Relation)

  /** What the resolver reads: None is a read that failed. A parent of "" is no parent. */
  datatype Store = Store(
    uuid: string -> bool,
    groups: string -> Option<seq<string>>,
    parent: string -> Option<string>,
    tuples: Object -> Option<seq<Tuple>>)

  datatype Failure = StoreFailed | TooDeep | UnknownPermission

  // The graph.

  /** The group n parent links above g, when there is one. */
  ghost function Ancestor(st: Store, g: string, n: nat): Option<string> {
    if n == 0 then Some(g)
    else
      match Ancestor(st, g, n - 1)
      case None => None
      case Some(a) => if st.parent(a).Some? && st.parent(a).value != "" then st.parent(a) else None
  }

  /** g is at most n links above one of the groups. */
  ghost predicate Within(st: Store, direct: seq<string>, g: string, n: nat) {
    exists d: string, m: nat :: d in direct && m <= n && Ancestor(st, d, m) == Some(g)
  }

  /** The reflexive-transitive closure of the parent relation. */
  ghost predicate Reachable(st: Store, direct: seq<string>, g: string) {
    exists d: string, m: nat :: d in direct && Ancestor(st, d, m) == Some(g)
  }

  lemma WithinIsReachable(st: Store, direct: seq<string>, g: string, n: nat)
    requires Within(st, direct, g, n)
    ensures Reachable(st, direct, g)
  {
    var d: string, m: nat :| d in direct && m <= n && Ancestor(st, d, m) == Some(g);
  }

  lemma ParentWithin(st: Store, direct: seq<string>, g: string, n: nat)
    requires Within(st, direct, g, n) && st.parent(g).Some? && st.parent(g).value != ""
    ensures Within(st, direct, st.parent(g).value, n + 1)
  {
    var d: string, m: nat :| d in direct && m <= n && Ancestor(st, d, m) == Some(g);
    assert Ancestor(st, d, m + 1) == st.parent(g);
  }

  lemma WithinGrows(st: Store, direct: seq<string>, g: string, n: nat)
    requires Within(st, direct, g, n)
    ensures Within(st, direct, g, n + 1)
  {
    var d: string, m: nat :| d in direct && m <= n && Ancestor(st, d, m) == Some(g);
  }

  /** What is within n + 1 links is within n, or is the parent of something that is. */
  lemma WithinStep(st: Store, direct: seq<string>, g: string, n: nat) returns (child: string)
    requires Within(st, direct, g, n + 1) && !Within(st, direct, g, n)
    ensures Within(st, direct, child, n) && st.parent(child) == Some(g) && g != ""
  {
    var d: string, m: nat :| d in direct && m <= n + 1 && Ancestor(st, d, m) == Some(g);
    assert m == n + 1;
    child := Ancestor(st, d, n).value;
  }

  lemma WithinNone(st: Store, direct: seq<string>, g: string)
    ensures Within(st, direct, g, 0) <==> g in direct
  {
    if g in direct {
      assert Ancestor(st, g, 0) == Some(g);
    }
  }

  /** When a level adds nothing, everything reachable has been reached. */
  lemma ClosedLevelIsAll(st: Store, direct: seq<string>, n: nat)
    requires forall g :: Within(st, direct, g, n + 1) ==> Within(st, direct, g, n)
    ensures forall g :: Reachable(st, direct, g) ==> Within(st, direct, g, n)
  {
    forall d: string, m: nat, g | d in direct && Ancestor(st, d, m) == Some(g) ensures Within(st, direct, g, n) {
      AncestorWithin(st, direct, n, d, m, g);
    }
  }

  lemma {:induction false} AncestorWithin(st: Store, direct: seq<string>, n: nat, d: string, m: nat, g: string)
    requires forall x :: Within(st, direct, x, n + 1) ==> Within(st, direct, x, n)
    requires d in direct && Ancestor(st, d, m) == Some(g)
    ensures Within(st, direct, g, n)
  {
    if m > n {
      var below := Ancestor(st, d, m - 1).value;
      AncestorWithin(st, direct, n, d, m - 1, below);
      ParentWithin(st, direct, below, n);
    }
  }

  // expand.

  ghost predicate Distinct<T>(xs: seq<T>) {
    forall i, j :: 0 <= i < j < |xs| ==> xs[i] != xs[j]
  }

  lemma DistinctAppend<T>(xs: seq<T>, x: T)
    requires Distinct(xs) && x !in xs
    ensures Distinct(xs + [x])
  {
  }

  /** The user, then the member-userset of each listed group. */
  ghost predicate Lists(subjects: seq<Subject>, subject: Subject, listed: seq<string>) {
    && |subjects| == |listed| + 1 && subjects[0] == subject
    && forall i :: 0 <= i < |listed| ==> subjects[i + 1] == GroupMembers(listed[i])
  }

  /** Every group the walk can meet before it gives up has a parent that can be read. */
  ghost predicate Readable(st: Store, direct: seq<string>, n: nat) {
    forall g :: Within(st, direct, g, n) ==> st.parent(g).Some?
  }

  /** Exactly the reachable groups, each once, after the subject. */
  ghost predicate IsClosure(st: Store, subject: Subject, direct: seq<string>, subjects: seq<Subject>) {
    exists listed: seq<string> ::
      && Lists(subjects, subject, listed) && Distinct(listed)
      && forall g :: g in listed <==> Reachable(st, direct, g)
  }

  function Direct(st: Store, subject: Subject): Option<seq<string>> {
    if st.uuid(subject.id) then st.groups(subject.id) else None
  }

  method Dedupe(direct: seq<string>) returns (queue: seq<string>, seen: set<string>)
    ensures seen == set g | g in direct
    ensures Distinct(queue) && seen == set g | g in queue
  {
    queue, seen := [], {};
    for i := 0 to |direct|
      invariant seen == set g | g in direct[..i]
      invariant Distinct(queue) && seen == set g | g in queue
    {
      if direct[i] !in seen {
        seen := seen + {direct[i]};
        queue := queue + [direct[i]];
      }
    }
  }

  /** One level of the walk: lists every group of the level, and collects the parents nobody has seen.
      None is a parent that could not be read. */
  method Level(st: Store, ghost direct: seq<string>, ghost depth: nat, queue: seq<string>, seen: set<string>,
               subjects: seq<Subject>, ghost subject: Subject, ghost listed: seq<string>)
    returns (next: Option<seq<string>>, seen': set<string>, subjects': seq<Subject>)
    requires forall g :: g in seen <==> Within(st, direct, g, depth)
    requires forall g :: g in seen <==> g in listed || g in queue
    requires Lists(subjects, subject, listed) && Distinct(listed + queue)
    requires forall g :: g in listed ==> st.parent(g).Some? && (st.parent(g).value != "" ==> st.parent(g).value in seen)
    ensures next.None? <==> exists g :: g in queue && st.parent(g).None?
    ensures next.Some? ==>
              && Lists(subjects', subject, listed + queue)
              && Distinct(listed + queue + next.value)
              && (forall g :: g in seen' <==> g in seen || g in next.value)
              && (forall g :: g in seen' <==> Within(st, direct, g, depth + 1))
              && (forall g :: g in listed + queue ==>
                    st.parent(g).Some? && (st.parent(g).value != "" ==> st.parent(g).value in seen'))
  {
    subjects', seen' := subjects, seen;
    var found: seq<string> := [];
    for i := 0 to |queue|
      invariant Lists(subjects', subject, listed + queue[..i])
      invariant Distinct(listed + queue + found)
      invariant forall g :: g in seen' <==> g in seen || g in found
      invariant forall g :: g in found ==> Within(st, direct, g, depth + 1)
      invariant forall g :: g in queue[..i] ==>
                  st.parent(g).Some? && (st.parent(g).value != "" ==> st.parent(g).value in seen')
    {
      subjects' := subjects' + [GroupMembers(queue[i])];
      assert listed + queue[..i + 1] == listed + queue[..i] + [queue[i]];
      assert queue[i] in queue;
      var parent := st.parent(queue[i]);
      if parent.None? {
        return None, seen', subjects';
      }
      if parent.value != "" && parent.value !in seen' {
        ParentWithin(st, direct, queue[i], depth);
        DistinctAppend(listed + queue + found, parent.value);
        assert listed + queue + (found + [parent.value]) == listed + queue + found + [parent.value];
        seen' := seen' + {parent.value};
        found := found + [parent.value];
      }
    }
    assert queue[..|queue|] == queue;
    LevelIsComplete(st, direct, depth, seen, seen', listed + queue);
    return Some(found), seen', subjects';
  }

  /** All parents of a level and of what was before it make the next one. */
  lemma LevelIsComplete(st: Store, direct: seq<string>, depth: nat, seen: set<string>, seen': set<string>,
                          listed: seq<string>)
    requires forall g :: g in seen <==> Within(st, direct, g, depth)
    requires forall g :: g in seen <==> g in listed
    requires forall g :: g in seen' ==> Within(st, direct, g, depth) || Within(st, direct, g, depth + 1)
    requires seen <= seen'
    requires forall g :: g in listed ==>
               st.parent(g).Some? && (st.parent(g).value != "" ==> st.parent(g).value in seen')
    ensures forall g :: g in seen' <==> Within(st, direct, g, depth + 1)
  {
    forall g | g in seen' ensures Within(st, direct, g, depth + 1) {
      if Within(st, direct, g, depth) { WithinGrows(st, direct, g, depth); }
    }
    forall g | Within(st, direct, g, depth + 1) ensures g in seen' {
      if !Within(st, direct, g, depth) {
        var child := WithinStep(st, direct, g, depth);
        assert child in listed;
      }
    }
  }

  /** The walk ends on every graph, cyclic or not. It succeeds exactly when the groups can be read, no
      reachable group is ten links or more from the direct ones, and every reachable group's parent can
      be read; the answer is then the user and each reachable group's members, once. */
  method Expand(st: Store, subject: Subject) returns (r: Result<seq<Subject>, Failure>)
    ensures subject.subjectType != "user" ==> r == Ok([subject])
    ensures subject.subjectType == "user" ==>
              (r == Err(StoreFailed) <==>
                 Direct(st, subject).None? || !Readable(st, Direct(st, subject).value, MAX_GROUP_DEPTH - 1))
    ensures subject.subjectType == "user" && Direct(st, subject).Some? ==>
              var direct := Direct(st, subject).value;
              && (r.Ok? <==>
                    forall g :: Reachable(st, direct, g) ==>
                      st.parent(g).Some? && Within(st, direct, g, MAX_GROUP_DEPTH - 1))
              && (r.Ok? ==> IsClosure(st, subject, direct, r.value))
    ensures r.Err? ==> r.error == StoreFailed || r.error == TooDeep
  {
    var subjects := [subject];
    if subject.subjectType != "user" {
      return Ok(subjects);
    }
    if !st.uuid(subject.id) || st.groups(subject.id).None? {
      return Err(StoreFailed);
    }
    var direct := st.groups(subject.id).value;
    var queue, seen := Dedupe(direct);
    ghost var listed: seq<string> := [];
    forall g ensures g in seen <==> Within(st, direct, g, 0) {
      WithinNone(st, direct, g);
    }
    var depth := 0;
    while queue != []
      invariant depth <= MAX_GROUP_DEPTH
      invariant forall g :: g in seen <==> Within(st, direct, g, depth)
      invariant forall g :: g in seen <==> g in listed || g in queue
      invariant Lists(subjects, subject, listed) && Distinct(listed + queue)
      invariant forall g :: g in listed ==>
                  st.parent(g).Some? && (st.parent(g).value != "" ==> st.parent(g).value in seen)
      invariant depth > 0 ==> forall g :: g in listed <==> Within(st, direct, g, depth - 1)
      decreases MAX_GROUP_DEPTH - depth
    {
      if depth >= MAX_GROUP_DEPTH {
        assert queue[0] in queue && queue[0] !in listed by {
          var all := listed + queue;
          assert forall i :: 0 <= i < |listed| ==> all[i] == listed[i] && all[i] != all[|listed|];
        }
        WithinIsReachable(st, direct, queue[0], depth);
        return Err(TooDeep);
      }
      var next, seen', subjects' := Level(st, direct, depth, queue, seen, subjects, subject, listed);
      if next.None? {
        var g :| g in queue && st.parent(g).None?;
        WithinAtMost(st, direct, g, depth, MAX_GROUP_DEPTH - 1);
        WithinIsReachable(st, direct, g, depth);
        return Err(StoreFailed);
      }
      listed := listed + queue;
      queue, seen, subjects, depth := next.value, seen', subjects', depth + 1;
    }
    Finished(st, direct, depth, listed);
    assert listed + [] == listed;
    return Ok(subjects);
  }

  lemma {:induction false} WithinAtMost(st: Store, direct: seq<string>, g: string, n: nat, m: nat)
    requires Within(st, direct, g, n) && n <= m
    ensures Within(st, direct, g, m)
    decreases m - n
  {
    if n < m {
      WithinGrows(st, direct, g, n);
      WithinAtMost(st, direct, g, n + 1, m);
    }
  }

  /** With an empty queue, what has been listed is closed under parents. */
  lemma Finished(st: Store, direct: seq<string>, depth: nat, listed: seq<string>)
    requires depth <= MAX_GROUP_DEPTH
    requires forall g :: g in listed <==> Within(st, direct, g, depth)
    requires depth > 0 ==> forall g :: g in listed <==> Within(st, direct, g, depth - 1)
    requires forall g :: g in listed ==>
               st.parent(g).Some? && (st.parent(g).value != "" ==> st.parent(g).value in listed)
    ensures forall g :: Reachable(st, direct, g) <==> g in listed
    ensures forall g :: g in listed ==> Within(st, direct, g, MAX_GROUP_DEPTH - 1)
    ensures Readable(st, direct, MAX_GROUP_DEPTH - 1)
  {
    var n := if depth > 0 then depth - 1 else 0;
    forall g | Within(st, direct, g, n + 1) ensures Within(st, direct, g, n) {
      if !Within(st, direct, g, n) {
        var child := WithinStep(st, direct, g, n);
      }
    }
    ClosedLevelIsAll(st, direct, n);
    forall g | g in listed ensures Reachable(st, direct, g) && Within(st, direct, g, MAX_GROUP_DEPTH - 1) {
      WithinIsReachable(st, direct, g, n);
      WithinAtMost(st, direct, g, n, MAX_GROUP_DEPTH - 1);
    }
    forall g | Within(st, direct, g, MAX_GROUP_DEPTH - 1) ensures st.parent(g).Some? {
      WithinIsReachable(st, direct, g, MAX_GROUP_DEPTH - 1);
    }
  }

  // RelationsOn: a widened read, narrowed in memory.

  /** What the store's query returns: the one user's own grants, and every group's. */
  predicate Fetched(t: Tuple, user: Option<string>) {
    (t.subject.subjectType == "user" && user == Some(t.subject.id)) || t.subject.subjectType == "group"
  }

  function FetchedRows(tuples: seq<Tuple>, user: Option<string>): (rows: seq<Tuple>)
    ensures forall t :: t in rows <==> t in tuples && Fetched(t, user)
  {
    if tuples == [] then []
    else if Fetched(tuples[0], user) then [tuples[0]] + FetchedRows(tuples[1..], user)
    else FetchedRows(tuples[1..], user)
  }

  /** The one user the query is for: the first that is named himself and not as a userset. */
  function FirstUser(subjects: seq<Subject>): Option<string> {
    if subjects == [] then None
    else
      var before, last := FirstUser(subjects[..|subjects| - 1]), subjects[|subjects| - 1];
      if before.Some? then before
      else if last.subjectType == "user" && !last.IsUserset() then Some(last.id)
      else None
  }

  /** Some fetched row's subject reads as one of these, and carries the relation. */
  ghost predicate Matched(tuples: seq<Tuple>, subjects: seq<Subject>, user: Option<string>, relation: Relation) {
    exists s, t :: s in subjects && t in tuples && Fetched(t, user) && t.relation == relation
        && t.subject.Render() == s.Render()
  }

  /** A read widened to every group's grants, and narrowed in memory by textual form. */
  method RelationsOn(st: Store, subjects: seq<Subject>, target: Object) returns (r: Option<seq<Relation>>)
    ensures r.Some? <==>
              && st.uuid(target.id) && st.tuples(target).Some?
              && (FirstUser(subjects).Some? ==> st.uuid(FirstUser(subjects).value))
    ensures r.Some? ==>
              forall rel :: rel in r.value <==> Matched(st.tuples(target).value, subjects, FirstUser(subjects), rel)
  {
    if !st.uuid(target.id) {
      return None;
    }
    var user: Option<string> := None;
    var allowed: set<string> := {};
    for i := 0 to |subjects|
      invariant allowed == set s | s in subjects[..i] :: s.Render()
      invariant user == FirstUser(subjects[..i])
      invariant user.Some? ==> st.uuid(user.value)
    {
      assert subjects[..i + 1] == subjects[..i] + [subjects[i]];
      assert subjects[..i + 1][..i] == subjects[..i];
      allowed := allowed + {subjects[i].Render()};
      if subjects[i].subjectType == "user" && !subjects[i].IsUserset() && user.None? {
        if !st.uuid(subjects[i].id) {
          FirstUserStays(subjects, i + 1);
          return None;
        }
        user := Some(subjects[i].id);
      }
    }
    assert subjects[..|subjects|] == subjects;
    if st.tuples(target).None? {
      return None;
    }
    var rows := FetchedRows(st.tuples(target).value, user);
    var relations := Narrow(rows, allowed);
    forall rel ensures rel in relations <==> Matched(st.tuples(target).value, subjects, user, rel) {
      NarrowedIsMatched(st.tuples(target).value, subjects, user, rows, allowed, rel);
    }
    return Some(relations);
  }

  /** The relations of the rows whose subject's textual form is allowed. */
  method Narrow(rows: seq<Tuple>, allowed: set<string>) returns (relations: seq<Relation>)
    ensures forall rel :: rel in relations <==>
                exists t :: t in rows && t.relation == rel && t.subject.Render() in allowed
  {
    relations := [];
    for i := 0 to |rows|
      invariant forall rel :: rel in relations <==>
                  exists t :: t in rows[..i] && t.relation == rel && t.subject.Render() in allowed
    {
      assert rows[..i + 1] == rows[..i] + [rows[i]];
      assert rows[i] in rows[..i + 1];
      if rows[i].subject.Render() in allowed {
        relations := relations + [rows[i].relation];
      }
    }
    assert rows[..|rows|] == rows;
  }

  lemma {:induction false} FirstUserStays(subjects: seq<Subject>, n: nat)
    requires n <= |subjects| && FirstUser(subjects[..n]).Some?
    ensures FirstUser(subjects) == FirstUser(subjects[..n])
    decreases |subjects|
  {
    if n < |subjects| {
      var init := subjects[..|subjects| - 1];
      assert init[..n] == subjects[..n];
      FirstUserStays(init, n);
    } else {
      assert subjects[..n] == subjects;
    }
  }

  lemma NarrowedIsMatched(tuples: seq<Tuple>, subjects: seq<Subject>, user: Option<string>, rows: seq<Tuple>,
                          allowed: set<string>, rel: Relation)
    requires rows == FetchedRows(tuples, user) && allowed == set s | s in subjects :: s.Render()
    ensures (exists t :: t in rows && t.relation == rel && t.subject.Render() in allowed) <==>
              Matched(tuples, subjects, user, rel)
  {
    if t :| t in rows && t.relation == rel && t.subject.Render() in allowed {
      var s :| s in subjects && s.Render() == t.subject.Render();
      assert t in tuples && Fetched(t, user);
    }
    if Matched(tuples, subjects, user, rel) {
      var s, t :| s in subjects && t in tuples && Fetched(t, user) && t.relation == rel
                    && t.subject.Render() == s.Render();
      assert t in rows && s.Render() in allowed;
    }
  }

  predicate AllPlain(subjects: seq<Subject>) {
    forall i :: 0 <= i < |subjects| ==> PlainSubject(subjects[i])
  }

  predicate PlainTuples(tuples: seq<Tuple>) {
    forall i :: 0 <= i < |tuples| ==> PlainSubject(tuples[i].subject)
  }

  /** Where ids carry no separator, comparing textual forms over the rows fetched gives exactly the relations
      held by the subjects whose own rows are fetched: the groups, and the one user named himself. */
  lemma NarrowingIsExact(tuples: seq<Tuple>, subjects: seq<Subject>, user: Option<string>, rel: Relation)
    requires AllPlain(subjects) && PlainTuples(tuples)
    ensures Matched(tuples, subjects, user, rel) <==>
              exists s :: s in subjects && Tuple(s, rel) in tuples && Fetched(Tuple(s, rel), user)
  {
    if Matched(tuples, subjects, user, rel) {
      var s, t :| s in subjects && t in tuples && Fetched(t, user) && t.relation == rel
                    && t.subject.Render() == s.Render();
      RenderInjective(s, t.subject);
      assert t == Tuple(s, rel);
    }
    if s :| s in subjects && Tuple(s, rel) in tuples && Fetched(Tuple(s, rel), user) {
      assert Tuple(s, rel).subject.Render() == s.Render();
    }
  }

  // The decision and the standing.

  datatype Explanation = Explanation(allowed: bool, via: Relation, subjects: seq<Subject>, relations: seq<Relation>,
                                     granting: seq<Relation>)

  /** Every identity that speaks for the subject: itself, and the members of each group it is in,
      directly or through nesting. */
  ghost predicate SpeaksFor(st: Store, s: Subject, subject: Subject) {
    || s == subject
    || (subject.subjectType == "user" && Direct(st, subject).Some?
        && exists g :: s == GroupMembers(g) && Reachable(st, Direct(st, subject).value, g))
  }

  /** The user whose own rows are fetched when this subject is asked about. */
  function Self(subject: Subject): Option<string> {
    if subject.subjectType == "user" && !subject.IsUserset() then Some(subject.id) else None
  }

  /** The relations the subject stands on the object with, by itself or through any group, rows being told
      apart by their textual form. */
  ghost predicate StandsAs(st: Store, subject: Subject, target: Object, role: Relation) {
    && st.tuples(target).Some?
    && exists s, t ::
         && SpeaksFor(st, s, subject) && t in st.tuples(target).value && Fetched(t, Self(subject))
         && t.relation == role && t.subject.Render() == s.Render()
  }

  /** Ids carry none of the separators, and neither does what is stored. */
  ghost predicate PlainStore(st: Store, subject: Subject, target: Object) {
    && PlainSubject(subject)
    && (Direct(st, subject).Some? ==>
          forall g :: Reachable(st, Direct(st, subject).value, g) ==> PlainSubject(GroupMembers(g)))
    && (st.tuples(target).Some? ==> PlainTuples(st.tuples(target).value))
  }

  /** With plain ids, standing is holding: some identity that speaks for the subject, a group's or the user's
      own, holds the relation itself. A subject of any other kind stands only through its groups. */
  lemma StandingIsHolding(st: Store, subject: Subject, target: Object, role: Relation)
    requires PlainStore(st, subject, target)
    ensures StandsAs(st, subject, target, role) <==>
              && st.tuples(target).Some?
              && exists s :: SpeaksFor(st, s, subject) && Tuple(s, role) in st.tuples(target).value
                             && Fetched(Tuple(s, role), Self(subject))
  {
    if StandsAs(st, subject, target, role) {
      var s, t :| && SpeaksFor(st, s, subject) && t in st.tuples(target).value && Fetched(t, Self(subject))
                  && t.relation == role && t.subject.Render() == s.Render();
      SpeakersArePlain(st, subject, target, s);
      RenderInjective(s, t.subject);
      assert t == Tuple(s, role);
    }
    if st.tuples(target).Some? {
      if s :| SpeaksFor(st, s, subject) && Tuple(s, role) in st.tuples(target).value
              && Fetched(Tuple(s, role), Self(subject)) {
        assert Tuple(s, role).subject.Render() == s.Render();
      }
    }
  }

  lemma SpeakersArePlain(st: Store, subject: Subject, target: Object, s: Subject)
    requires PlainStore(st, subject, target) && SpeaksFor(st, s, subject)
    ensures PlainSubject(s)
  {
  }

  lemma ExpansionSpeaksFor(st: Store, subject: Subject, subjects: seq<Subject>)
    requires subject.subjectType != "user" ==> subjects == [subject]
    requires subject.subjectType == "user" ==>
               Direct(st, subject).Some? && IsClosure(st, subject, Direct(st, subject).value, subjects)
    ensures forall s :: s in subjects <==> SpeaksFor(st, s, subject)
    ensures FirstUser(subjects) == Self(subject)
  {
    if subject.subjectType == "user" {
      var direct := Direct(st, subject).value;
      var listed :| && Lists(subjects, subject, listed) && Distinct(listed)
                    && forall g :: g in listed <==> Reachable(st, direct, g);
      forall s | SpeaksFor(st, s, subject) ensures s in subjects {
        if s != subject {
          var g :| s == GroupMembers(g) && Reachable(st, direct, g);
          var i :| 0 <= i < |listed| && listed[i] == g;
          assert subjects[i + 1] == s;
        }
      }
      forall s | s in subjects ensures SpeaksFor(st, s, subject) {
        var i :| 0 <= i < |subjects| && subjects[i] == s;
        if i > 0 {
          assert subjects[(i - 1) + 1] == GroupMembers(listed[i - 1]);
          assert listed[i - 1] in listed;
        }
      }
      OneUser(subjects, |subjects|, subject, listed);
      assert subjects[..|subjects|] == subjects;
    } else {
      assert subjects[..0] == [];
    }
  }

  lemma {:induction false} OneUser(subjects: seq<Subject>, n: nat, subject: Subject, listed: seq<string>)
    requires Lists(subjects, subject, listed) && 1 <= n <= |subjects|
    ensures FirstUser(subjects[..n]) == Self(subject)
  {
    assert subjects[..n][..n - 1] == subjects[..n - 1];
    if n > 1 {
      OneUser(subjects, n - 1, subject, listed);
      assert subjects[(n - 2) + 1] == GroupMembers(listed[n - 2]);
    } else {
      assert subjects[..0] == [];
    }
  }

  /** Everything the answer depends on can be read, and the nesting is less than ten links deep. */
  ghost predicate Resolvable(st: Store, subject: Subject, target: Object) {
    && st.uuid(target.id) && st.tuples(target).Some?
    && (subject.subjectType == "user" ==>
          && Direct(st, subject).Some?
          && forall g :: Reachable(st, Direct(st, subject).value, g) ==>
               st.parent(g).Some? && Within(st, Direct(st, subject).value, g, MAX_GROUP_DEPTH - 1))
  }

  /** A role that allows the request, and none before it in the order of privilege does. */
  ghost predicate Allows(st: Store, request: Request, role: Relation) {
    RoleGrants(role, request.permission) && StandsAs(st, request.subject, request.target, role)
  }

  ghost predicate Strongest(st: Store, request: Request, role: Relation) {
    exists k :: 0 <= k < |BUILTIN_ROLES| && BUILTIN_ROLES[k] == role && Allows(st, request, role)
                && forall j :: 0 <= j < k ==> !Allows(st, request, BUILTIN_ROLES[j])
  }

  lemma FirstIsStrongest(st: Store, request: Request, relations: seq<Relation>, via: Relation)
    requires forall rel :: rel in relations <==> StandsAs(st, request.subject, request.target, rel)
    requires var granting := RolesGranting(request.permission);
             exists i :: 0 <= i < |granting| && granting[i] == via && via in relations
                         && forall j :: 0 <= j < i ==> granting[j] !in relations
    ensures Strongest(st, request, via)
  {
    hide StandsAs, RoleGrants, RolesGranting;
    var granting := RolesGranting(request.permission);
    var i :| 0 <= i < |granting| && granting[i] == via && via in relations
             && forall j :: 0 <= j < i ==> granting[j] !in relations;
    OnlyGranting(request.permission, via, i);
    var k, n := GrantingBefore(request.permission, via);
    assert forall m :: 0 <= m < n ==> granting[m] in granting[..n];
    assert i == n;
    assert BUILTIN_ROLES[k] == via && Allows(st, request, via);
  }

  lemma OnlyGranting(p: Permission, via: Relation, i: nat)
    requires i < |RolesGranting(p)| && RolesGranting(p)[i] == via
    ensures via in BUILTIN_ROLES && RoleGrants(via, p)
  {
    assert via in RolesGranting(p);
  }

  /** A request is allowed exactly when some identity speaking for the subject holds, on the object, a
      role that carries the permission; and Via is the most privileged role any of them holds there. An
      unregistered permission is an error, and so is a graph that cannot be read or is too deep. */
  method Explain(st: Store, request: Request) returns (r: Result<Explanation, Failure>)
    ensures r == Err(UnknownPermission) <==> !KnownPermission(request.permission)
    ensures r.Ok? <==> KnownPermission(request.permission) && Resolvable(st, request.subject, request.target)
    ensures r.Ok? ==>
              (r.value.allowed <==>
                 exists role :: RoleGrants(role, request.permission) && role in BUILTIN_ROLES
                                && StandsAs(st, request.subject, request.target, role))
    ensures r.Ok? && r.value.allowed ==> Strongest(st, request, r.value.via)
    ensures r.Ok? && !r.value.allowed ==> r.value.via == ""
    ensures r.Ok? ==>
              && (forall s :: s in r.value.subjects <==> SpeaksFor(st, s, request.subject))
              && (forall rel :: rel in r.value.relations <==> StandsAs(st, request.subject, request.target, rel))
              && (forall role :: role in r.value.granting <==>
                    role in BUILTIN_ROLES && RoleGrants(role, request.permission))
  {
    var granting := RolesGranting(request.permission);
    NobodyGrantsOnlyUnknown(request.permission);
    if granting == [] {
      return Err(UnknownPermission);
    }
    var expanded := Expand(st, request.subject);
    if expanded.Err? {
      return Err(expanded.error);
    }
    ExpansionSpeaksFor(st, request.subject, expanded.value);
    var relations := RelationsOn(st, expanded.value, request.target);
    if relations.None? {
      return Err(StoreFailed);
    }
    forall rel ensures rel in relations.value <==> StandsAs(st, request.subject, request.target, rel) {
      MatchedIsStanding(st, request.subject, request.target, expanded.value, rel);
    }
    var via := FirstHeld(granting, relations.value);
    match via
    case Some(role) =>
      FirstIsStrongest(st, request, relations.value, role);
      return Ok(Explanation(true, role, expanded.value, relations.value, granting));
    case None => return Ok(Explanation(false, "", expanded.value, relations.value, granting));
  }

  method FirstHeld(granting: seq<Relation>, relations: seq<Relation>) returns (via: Option<Relation>)
    ensures via.None? ==> forall role :: role in granting ==> role !in relations
    ensures via.Some? ==>
              exists i :: 0 <= i < |granting| && granting[i] == via.value && via.value in relations
                          && forall j :: 0 <= j < i ==> granting[j] !in relations
  {
    var held := set rel | rel in relations;
    for i := 0 to |granting|
      invariant forall j :: 0 <= j < i ==> granting[j] !in held
    {
      if granting[i] in held {
        return Some(granting[i]);
      }
    }
    return None;
  }

  lemma MatchedIsStanding(st: Store, subject: Subject, target: Object, subjects: seq<Subject>, rel: Relation)
    requires st.tuples(target).Some?
    requires forall s :: s in subjects <==> SpeaksFor(st, s, subject)
    ensures Matched(st.tuples(target).value, subjects, Self(subject), rel) <==> StandsAs(st, subject, target, rel)
  {
    var tuples := st.tuples(target).value;
    if Matched(tuples, subjects, Self(subject), rel) {
      var s, t :| s in subjects && t in tuples && Fetched(t, Self(subject)) && t.relation == rel
                    && t.subject.Render() == s.Render();
      assert SpeaksFor(st, s, subject);
    }
    if StandsAs(st, subject, target, rel) {
      var s, t :| && SpeaksFor(st, s, subject) && t in tuples && Fetched(t, Self(subject))
                  && t.relation == rel && t.subject.Render() == s.Render();
      assert s in subjects;
    }
  }

  /** The standing is every relation held, each once and in order, however the store listed them. */
  method Grants(st: Store, subject: Subject, target: Object) returns (r: Result<seq<Relation>, Failure>)
    ensures r.Ok? ==>
              && Ascending(r.value)
              && forall rel :: rel in r.value <==> StandsAs(st, subject, target, rel)
    ensures r.Ok? <==> Resolvable(st, subject, target)
  {
    var expanded := Expand(st, subject);
    if expanded.Err? {
      return Err(expanded.error);
    }
    ExpansionSpeaksFor(st, subject, expanded.value);
    var relations := RelationsOn(st, expanded.value, target);
    if relations.None? {
      return Err(StoreFailed);
    }
    forall rel ensures rel in relations.value <==> StandsAs(st, subject, target, rel) {
      MatchedIsStanding(st, subject, target, expanded.value, rel);
    }
    var seen: set<Relation> := {};
    var out: seq<Relation> := [];
    for i := 0 to |relations.value|
      invariant seen == set rel | rel in relations.value[..i]
      invariant forall rel :: rel in out <==> rel in seen
    {
      if relations.value[i] !in seen {
        seen := seen + {relations.value[i]};
        out := out + [relations.value[i]];
      }
    }
    SortedSorts(out);
    return Ok(Sorted(out));
  }
}
