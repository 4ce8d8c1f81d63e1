/** Relationships through a sync: recorded a column at a time, reported a relationship at a time, and
    counted both ways. */
module Relationships {
  import opened CatalogModel
  import opened Common
  import opened LengthPrefix

  /** One column of one relationship, as the source reports it. */
  datatype ForeignKey = ForeignKey(
    name: string, fromSchema: string, fromTable: string, ordinal: int, fromColumn: string, target: Target)

  datatype Target = Target(schema: string, table: string, column: string)

  datatype KeyIdentity = KeyIdentity(schema: string, table: string, constraint: string, ordinal: int)

  datatype Relation = Relation(schema: string, table: string, constraint: string)

  datatype StoredKey = StoredKey(fromColumn: string, target: Target, removedAt: Option<int>, lastSeen: int)

  /** `NoForeignKeys` is a source that cannot be asked; `Broken` one that failed to answer. */
  datatype KeyError = NoForeignKeys | Broken(message: string)

  datatype RelationReport = RelationReport(seen: nat, unavailable: bool, changes: seq<Change>)

  type Keys = map<KeyIdentity, StoredKey>

  function Identity(key: ForeignKey): KeyIdentity {
    KeyIdentity(key.fromSchema, key.fromTable, key.name, key.ordinal)
  }

  function RelationOf(id: KeyIdentity): Relation {
    Relation(id.schema, id.table, id.constraint)
  }

  function Identities(keys: seq<ForeignKey>): set<KeyIdentity> {
    set key | key in keys :: Identity(key)
  }

  predicate Live(s: Keys, id: KeyIdentity) {
    id in s && s[id].removedAt.None?
  }

  /** The time of a sync is after every sync before it. */
  ghost predicate Older(s: Keys, at: int) {
    forall id :: id in s ==> s[id].lastSeen < at
  }

  function Recorded(s: Keys, key: ForeignKey, at: int): Keys {
    s[Identity(key) := StoredKey(key.fromColumn, key.target, None, at)]
  }

  function AfterKeys(s: Keys, keys: seq<ForeignKey>, at: int): Keys {
    if keys == [] then s else Recorded(AfterKeys(s, keys[..|keys| - 1], at), keys[|keys| - 1], at)
  }

  /** What the sweep marks: live, and not stamped by this sync. */
  function Stale(s: Keys, at: int): set<KeyIdentity> {
    set id | id in s && s[id].removedAt.None? && s[id].lastSeen < at
  }

  function Swept(s: Keys, at: int): Keys {
    map id | id in s :: if id in Stale(s, at) then s[id].(removedAt := Some(at)) else s[id]
  }

  function Reconciled(s: Keys, keys: seq<ForeignKey>, at: int): Keys {
    Swept(AfterKeys(s, keys, at), at)
  }

  /** Relationships some column of which was not live and is reported. */
  function Appeared(s: Keys, keys: seq<ForeignKey>): set<Relation> {
    set key | key in keys && !Live(s, Identity(key)) :: RelationOf(Identity(key))
  }

  /** Columns that were live and are not reported. */
  function GoneKeys(s: Keys, keys: seq<ForeignKey>): set<KeyIdentity> {
    set id | id in s && s[id].removedAt.None? && id !in Identities(keys)
  }

  /** Relationships that lost a column. */
  function Vanished(s: Keys, keys: seq<ForeignKey>): set<Relation> {
    set id | id in GoneKeys(s, keys) :: RelationOf(id)
  }

  /** Every live column of a set of relationships. */
  function ColumnsOf(s: Keys, relations: set<Relation>): set<KeyIdentity> {
    set id | id in s && s[id].removedAt.None? && RelationOf(id) in relations
  }

  function ChangeTo(kind: Kind, relation: Relation): Change {
    Change(kind, relation.schema, relation.table, OfRelationship(relation.constraint), "")
  }

  function RelationChanges(appeared: set<Relation>, vanished: set<Relation>): set<Change> {
    (set r | r in appeared :: ChangeTo(Added, r)) + (set r | r in vanished :: ChangeTo(Removed, r))
  }

  function Disagreement(marked: nat, named: nat): Change {
    Change(Changed, "", "", OfSweep,
           "the sweep marked " + Decimal(marked) + " foreign key columns gone and " + Decimal(named)
           + " were named; another sync may be running against this connection")
  }

  function CrossCheck(marked: nat, named: nat): seq<Change> {
    if named != marked then [Disagreement(marked, named)] else []
  }

  /** The stored keys of one connection, behind the interface a sync uses. */
  class Store {
    var keys: Keys

    constructor ()
      ensures keys == map[]
    {
      keys := map[];
    }

    method RecordForeignKey(key: ForeignKey, at: int)
      modifies this`keys
      ensures keys == Recorded(old(keys), key, at)
    {
      keys := keys[Identity(key) := StoredKey(key.fromColumn, key.target, None, at)];
    }

    method MarkForeignKeysGone(at: int) returns (gone: nat)
      modifies this`keys
      ensures keys == Swept(old(keys), at) && gone == |Stale(old(keys), at)|
    {
      gone := |Stale(keys, at)|;
      keys := Swept(keys, at);
    }
  }

  /** Relationships that were stored, live and not seen. */
  method MissingRelationships(before: Keys, seen: set<KeyIdentity>) returns (gone: set<Relation>)
    ensures gone == set id | id in before && before[id].removedAt.None? && id !in seen :: RelationOf(id)
  {
    gone := {};
    var left := before.Keys;
    while left != {}
      invariant left <= before.Keys
      invariant gone ==
                set id | id in before && id !in left && before[id].removedAt.None? && id !in seen :: RelationOf(id)
      decreases left
    {
      var id :| id in left;
      left := left - {id};
      if id !in seen && before[id].removedAt.None? {
        gone := gone + {RelationOf(id)};
      }
    }
  }

  method CountColumnsOf(before: Keys, relations: set<Relation>) returns (n: nat)
    ensures n == |ColumnsOf(before, relations)|
  {
    n := 0;
    var left := before.Keys;
    ghost var counted: set<KeyIdentity> := {};
    while left != {}
      invariant left <= before.Keys
      invariant counted == set id | id in ColumnsOf(before, relations) && id !in left
      invariant n == |counted|
      decreases left
    {
      var id :| id in left;
      left := left - {id};
      if before[id].removedAt.None? && RelationOf(id) in relations {
        counted := counted + {id};
        n := n + 1;
      }
    }
    assert counted == ColumnsOf(before, relations);
  }

  /** One change to each of a set of relationships. */
  method ListChanges(kind: Kind, relations: set<Relation>) returns (changes: seq<Change>)
    ensures multiset(changes) == multiset(set r | r in relations :: ChangeTo(kind, r))
  {
    changes := [];
    var left := relations;
    ghost var done: set<Change> := {};
    while left != {}
      invariant left <= relations
      invariant done == set r | r in relations && r !in left :: ChangeTo(kind, r)
      invariant multiset(changes) == multiset(done)
      decreases left
    {
      var relation :| relation in left;
      left := left - {relation};
      assert ChangeTo(kind, relation) !in done;
      changes := changes + [ChangeTo(kind, relation)];
      done := done + {ChangeTo(kind, relation)};
    }
    assert done == set r | r in relations :: ChangeTo(kind, r);
  }

  /** Both sets as changes, in order. */
  method ListRelationChanges(appeared: set<Relation>, vanished: set<Relation>) returns (changes: seq<Change>)
    ensures Lists(changes, RelationChanges(appeared, vanished))
  {
    var added := ListChanges(Added, appeared);
    var removed := ListChanges(Removed, vanished);
    ghost var a := set r | r in appeared :: ChangeTo(Added, r);
    ghost var b := set r | r in vanished :: ChangeTo(Removed, r);
    assert multiset(added + removed) == multiset(a + b) by {
      assert a !! b;
    }
    OrderedSorts(added + removed);
    changes := Ordered(added + removed);
  }

  /** Records what the source declares, sweeps what it does not, and reports what moved. A source that
      cannot be asked leaves everything as it was. */
  method Reconcile(store: Store, source: Result<seq<ForeignKey>, KeyError>, at: int)
    returns (report: Result<RelationReport, KeyError>)
    modifies store`keys
    ensures source.Err? ==> store.keys == old(store.keys)
    ensures source.Err? ==>
              report == if source.error.NoForeignKeys? then Ok(RelationReport(0, true, [])) else Err(source.error)
    ensures source.Ok? ==> store.keys == Reconciled(old(store.keys), source.value, at)
    ensures source.Ok? ==> report.Ok? && Reports(report.value, old(store.keys), source.value, at)
  {
    hide Lists, CrossCheck, RelationChanges, Swept, Stale;
    if source.Err? {
      if source.error.NoForeignKeys? {
        return Ok(RelationReport(0, true, []));
      }
      return Err(source.error);
    }
    var keys := source.value;
    var before := store.keys;
    var seen, appeared, present := {}, {}, {};
    for i := 0 to |keys|
      invariant store.keys == AfterKeys(before, keys[..i], at)
      invariant seen == Identities(keys[..i])
      invariant present == set id | id in seen :: RelationOf(id)
      invariant appeared == Appeared(before, keys[..i])
    {
      var key := keys[i];
      assert keys[..i + 1] == keys[..i] + [key];
      assert keys[..i + 1][..i] == keys[..i];
      var id := Identity(key);
      seen, present := seen + {id}, present + {RelationOf(id)};
      if id !in before || before[id].removedAt.Some? {
        appeared := appeared + {RelationOf(id)};
      }
      store.RecordForeignKey(key, at);
    }
    assert keys[..|keys|] == keys;
    var gone := store.MarkForeignKeysGone(at);
    var removed := MissingRelationships(before, seen);
    assert removed == Vanished(before, keys);
    var named := CountColumnsOf(before, removed);
    var changes := ListRelationChanges(appeared, removed);
    report := Ok(RelationReport(|present|, false, CrossCheck(gone, named) + changes));
    assert Lists(report.value.changes[|CrossCheck(gone, named)|..], RelationChanges(appeared, removed)) by {
      assert report.value.changes[|CrossCheck(gone, named)|..] == changes;
    }
  }

  /** What a report of relationships has to say: how many the source declares, a disagreement if the two
      counts differ, and then every relationship that gained a column and every one that lost one. */
  ghost predicate Reports(report: RelationReport, before: Keys, keys: seq<ForeignKey>, at: int) {
    var check := CrossCheck(|Stale(AfterKeys(before, keys, at), at)|, |ColumnsOf(before, Vanished(before, keys))|);
    && report.seen == |set id | id in Identities(keys) :: RelationOf(id)|
    && !report.unavailable
    && |check| <= |report.changes| && report.changes[..|check|] == check
    && Lists(report.changes[|check|..], RelationChanges(Appeared(before, keys), Vanished(before, keys)))
  }

  // What it amounts to.

  /** Recording stamps exactly what the source reports, and the last report of a column is what is kept. */
  lemma {:induction false} RecordingStampsTheReported(s: Keys, keys: seq<ForeignKey>, at: int, id: KeyIdentity)
    ensures id in AfterKeys(s, keys, at) <==> id in s || id in Identities(keys)
    ensures id in Identities(keys) ==>
              AfterKeys(s, keys, at)[id].removedAt.None? && AfterKeys(s, keys, at)[id].lastSeen == at
    ensures id in s && id !in Identities(keys) ==> AfterKeys(s, keys, at)[id] == s[id]
  {
    if keys != [] {
      var init := keys[..|keys| - 1];
      assert keys == init + [keys[|keys| - 1]];
      assert Identities(keys) == Identities(init) + {Identity(keys[|keys| - 1])};
      RecordingStampsTheReported(s, init, at, id);
    }
  }

  /** Key k is the last report of its column. */
  ghost predicate LastReport(keys: seq<ForeignKey>, k: nat) {
    k < |keys| && forall j :: k < j < |keys| ==> Identity(keys[j]) != Identity(keys[k])
  }

  /** A reported column is stored as it was last reported; an unreported one keeps what it was, marked with the
      time of the sync if it had been live. */
  lemma {:induction false} StoredAsReported(s: Keys, keys: seq<ForeignKey>, at: int)
    requires Older(s, at)
    ensures forall k :: 0 <= k < |keys| && LastReport(keys, k) ==>
              && Identity(keys[k]) in Reconciled(s, keys, at)
              && Reconciled(s, keys, at)[Identity(keys[k])] == StoredKey(keys[k].fromColumn, keys[k].target, None, at)
    ensures forall id :: id in s && id !in Identities(keys) ==>
              && id in Reconciled(s, keys, at)
              && Reconciled(s, keys, at)[id] ==
                 if s[id].removedAt.None? then s[id].(removedAt := Some(at)) else s[id]
  {
    forall k | 0 <= k < |keys| && LastReport(keys, k)
      ensures Identity(keys[k]) in AfterKeys(s, keys, at)
      ensures AfterKeys(s, keys, at)[Identity(keys[k])] == StoredKey(keys[k].fromColumn, keys[k].target, None, at)
    {
      LastReportIsKept(s, keys, at, k);
    }
    forall id | id in s && id !in Identities(keys)
      ensures id in AfterKeys(s, keys, at) && AfterKeys(s, keys, at)[id] == s[id]
    {
      RecordingStampsTheReported(s, keys, at, id);
    }
  }

  lemma {:induction false} LastReportIsKept(s: Keys, keys: seq<ForeignKey>, at: int, k: nat)
    requires LastReport(keys, k)
    ensures Identity(keys[k]) in AfterKeys(s, keys, at)
    ensures AfterKeys(s, keys, at)[Identity(keys[k])] == StoredKey(keys[k].fromColumn, keys[k].target, None, at)
    decreases |keys|
  {
    if k < |keys| - 1 {
      LastReportIsKept(s, keys[..|keys| - 1], at, k);
    }
  }

  /** After a sync the live columns of relationships are exactly those the source reported, and the sweep
      marked exactly the ones that were live and are not. */
  lemma LiveKeysAreTheReported(s: Keys, keys: seq<ForeignKey>, at: int)
    requires Older(s, at)
    ensures forall id :: Live(Reconciled(s, keys, at), id) <==> id in Identities(keys)
    ensures Stale(AfterKeys(s, keys, at), at) == GoneKeys(s, keys)
  {
    forall id
      ensures Live(Reconciled(s, keys, at), id) <==> id in Identities(keys)
      ensures id in Stale(AfterKeys(s, keys, at), at) <==> id in GoneKeys(s, keys)
    {
      RecordingStampsTheReported(s, keys, at, id);
    }
  }

  /** A relationship the sweep names as removed and the source still declares a column of. */
  ghost predicate HalfGone(s: Keys, keys: seq<ForeignKey>, id: KeyIdentity) {
    Live(s, id) && id in Identities(keys) && RelationOf(id) in Vanished(s, keys)
  }

  /** The cross-check is meant to reveal another sync at work. Alone, it still fires: exactly when some
      relationship lost one of its columns and kept another. */
  lemma CrossCheckFiresExactlyWhen(s: Keys, keys: seq<ForeignKey>, at: int)
    requires Older(s, at)
    ensures |ColumnsOf(s, Vanished(s, keys))| != |Stale(AfterKeys(s, keys, at), at)| <==>
              exists id :: HalfGone(s, keys, id)
  {
    LiveKeysAreTheReported(s, keys, at);
    var named, gone := ColumnsOf(s, Vanished(s, keys)), GoneKeys(s, keys);
    assert gone <= named;
    var half := named - gone;
    assert named == gone + half;
    assert |named| == |gone| + |half|;
    if id :| HalfGone(s, keys, id) {
      assert id in half;
    }
    if half != {} {
      var id :| id in half;
      assert HalfGone(s, keys, id);
    }
  }

  /** For relationships the source reports wholly or not at all, it never fires. */
  lemma WholeRelationshipsAgree(s: Keys, keys: seq<ForeignKey>, at: int)
    requires Older(s, at)
    requires forall id, other :: id in s && other in s && RelationOf(id) == RelationOf(other) ==>
               (id in Identities(keys) <==> other in Identities(keys))
    ensures |ColumnsOf(s, Vanished(s, keys))| == |Stale(AfterKeys(s, keys, at), at)|
  {
    CrossCheckFiresExactlyWhen(s, keys, at);
    forall id ensures !HalfGone(s, keys, id) {
      forall other | other in GoneKeys(s, keys) && Live(s, id) && id in Identities(keys)
        ensures RelationOf(other) != RelationOf(id)
      {
      }
    }
  }

  /** A two-column key that loses its second column, with nobody else syncing, is reported as a
      disagreement. */
  lemma CompositeKeyTripsIt(first: ForeignKey, second: StoredKey, at: int)
    requires second.removedAt.None? && second.lastSeen < at
    ensures var other := Identity(first).(ordinal := first.ordinal + 1);
            var s := map[Identity(first) := StoredKey(first.fromColumn, first.target, None, at - 1), other := second];
            && |ColumnsOf(s, Vanished(s, [first]))| == 2
            && |Stale(AfterKeys(s, [first], at), at)| == 1
  {
    var other := Identity(first).(ordinal := first.ordinal + 1);
    var s := map[Identity(first) := StoredKey(first.fromColumn, first.target, None, at - 1), other := second];
    LiveKeysAreTheReported(s, [first], at);
    assert Identities([first]) == {Identity(first)};
    assert GoneKeys(s, [first]) == {other};
    assert RelationOf(other) in Vanished(s, [first]);
    assert ColumnsOf(s, Vanished(s, [first])) == {Identity(first), other};
  }

  function Declared(keys: seq<ForeignKey>): set<Relation> {
    set id | id in Identities(keys) :: RelationOf(id)
  }

  function LiveRelations(s: Keys): set<Relation> {
    set id | id in s && s[id].removedAt.None? :: RelationOf(id)
  }

  /** Applying what was reported to the relationships there were gives the ones there are, exactly when no
      relationship reported as removed is still declared. */
  lemma ReportAccountsForTheDifferenceExactlyWhen(s: Keys, keys: seq<ForeignKey>, at: int)
    requires Older(s, at)
    ensures LiveRelations(Reconciled(s, keys, at)) == Declared(keys)
    ensures Vanished(s, keys) !! Declared(keys) <==>
              LiveRelations(Reconciled(s, keys, at)) == LiveRelations(s) + Appeared(s, keys) - Vanished(s, keys)
  {
    var t := Reconciled(s, keys, at);
    LiveKeysAreTheReported(s, keys, at);
    forall r ensures r in LiveRelations(t) <==> r in Declared(keys) {
      if id :| Live(t, id) && RelationOf(id) == r {
        assert id in Identities(keys);
      }
      if id :| id in Identities(keys) && RelationOf(id) == r {
        assert Live(t, id);
      }
    }
    forall r ensures r in LiveRelations(s) + Appeared(s, keys) <==> r in Declared(keys) + Vanished(s, keys) {
      if key :| key in keys && RelationOf(Identity(key)) == r {
        assert Live(s, Identity(key)) || r in Appeared(s, keys);
        assert Identity(key) in Identities(keys);
      }
      if id :| Live(s, id) && RelationOf(id) == r {
        assert id in Identities(keys) || id in GoneKeys(s, keys);
      }
      if id :| id in GoneKeys(s, keys) && RelationOf(id) == r {
        assert Live(s, id);
      }
    }
    assert LiveRelations(s) + Appeared(s, keys) == Declared(keys) + Vanished(s, keys);
    if r :| r in Vanished(s, keys) && r in Declared(keys) {
      assert r in LiveRelations(t) && r !in LiveRelations(s) + Appeared(s, keys) - Vanished(s, keys);
    }
  }

  /** The listing of relationships does not depend on the order the maps are walked in exactly when none
      is reported both ways: an addition and a removal at one place sort as equals. */
  lemma ListedOnceExactlyWhenApart(changes: seq<Change>, appeared: set<Relation>, vanished: set<Relation>)
    requires Lists(changes, RelationChanges(appeared, vanished))
    ensures (forall other :: Lists(other, RelationChanges(appeared, vanished)) ==> other == changes) <==>
              appeared !! vanished
  {
    hide Lists, RelationChanges, SamePlace;
    ListsExactly(changes, RelationChanges(appeared, vanished));
    ListedOnceExactlyWhen(changes, RelationChanges(appeared, vanished));
    if appeared !! vanished {
      forall a, b | a in changes && b in changes && SamePlace(a, b) ensures a == b {
        OneChangePerPlace(appeared, vanished, a, b);
      }
    } else {
      BothWaysShareAPlace(appeared, vanished);
    }
  }

  lemma OneChangePerPlace(appeared: set<Relation>, vanished: set<Relation>, a: Change, b: Change)
    requires appeared !! vanished && SamePlace(a, b)
    requires a in RelationChanges(appeared, vanished) && b in RelationChanges(appeared, vanished)
    ensures a == b
  {
    assert Label(a.place)[1..] == a.place.constraint && Label(b.place)[1..] == b.place.constraint;
    var r := Relation(a.schema, a.table, a.place.constraint);
    assert a == ChangeTo(a.kind, r) && b == ChangeTo(b.kind, r);
  }

  lemma BothWaysShareAPlace(appeared: set<Relation>, vanished: set<Relation>)
    requires !(appeared !! vanished)
    ensures exists a, b ::
              && a in RelationChanges(appeared, vanished) && b in RelationChanges(appeared, vanished)
              && SamePlace(a, b) && a != b
  {
    var r :| r in appeared && r in vanished;
    assert SamePlace(ChangeTo(Added, r), ChangeTo(Removed, r));
  }

  /** A key whose one column moved to another ordinal is reported both ways. */
  lemma RenumberedKeyIsListedBothWays(key: ForeignKey, at: int)
    ensures var was := Identity(key).(ordinal := key.ordinal + 1);
            var s := map[was := StoredKey(key.fromColumn, key.target, None, at - 1)];
            && RelationOf(Identity(key)) in Appeared(s, [key]) && RelationOf(Identity(key)) in Vanished(s, [key])
  {
    var was := Identity(key).(ordinal := key.ordinal + 1);
    var s := map[was := StoredKey(key.fromColumn, key.target, None, at - 1)];
    assert key in [key] && !Live(s, Identity(key));
    assert was in GoneKeys(s, [key]);
  }

  /** A second sync of the same declarations has nothing to report. */
  lemma SecondSyncIsQuiet(s: Keys, keys: seq<ForeignKey>, at: int, later: int)
    requires Older(s, at) && at < later
    ensures var t := Reconciled(s, keys, at);
            && Older(t, later)
            && Appeared(t, keys) == {} && Vanished(t, keys) == {}
            && |ColumnsOf(t, Vanished(t, keys))| == |Stale(AfterKeys(t, keys, later), later)|
  {
    var t := Reconciled(s, keys, at);
    forall id | id in t ensures t[id].lastSeen < later {
      RecordingStampsTheReported(s, keys, at, id);
    }
    LiveKeysAreTheReported(s, keys, at);
    forall key | key in keys ensures Live(t, Identity(key)) {
      assert Identity(key) in Identities(keys);
    }
    assert GoneKeys(t, keys) == {} by {
      forall id | id in GoneKeys(t, keys) ensures false {
        assert Live(t, id);
      }
    }
    LiveKeysAreTheReported(t, keys, later);
  }
}
