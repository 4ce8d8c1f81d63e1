/** Reading a source's structure: its rows gathered into tables as they arrive, and its foreign key columns
    gathered into relationships. */
module Introspection {
  import opened Common
  import Catalog
  import opened Relationships

  /** One row of an introspection query: a column and whose it is. */
  datatype SourceRow = SourceRow(schema: string, table: string, column: Column)

  function KeyOf(row: SourceRow): Catalog.TableKey {
    Catalog.TableKey(row.schema, row.table)
  }

  function RowsOf(t: Catalog.Table): (rows: seq<SourceRow>)
    ensures |rows| == |t.columns|
  {
    seq(|t.columns|, i requires 0 <= i < |t.columns| => SourceRow(t.schema, t.name, t.columns[i]))
  }

  /** The rows some tables stand for. */
  function Flat(tables: seq<Catalog.Table>): seq<SourceRow> {
    if tables == [] then [] else Flat(tables[..|tables| - 1]) + RowsOf(tables[|tables| - 1])
  }

  /** No table is empty, and none goes on in the next. */
  ghost predicate Gathered(tables: seq<Catalog.Table>) {
    && (forall i :: 0 <= i < |tables| ==> tables[i].columns != [])
    && (forall i :: 0 < i < |tables| ==> Catalog.KeyOf(tables[i - 1]) != Catalog.KeyOf(tables[i]))
  }

  lemma FlatAppend(tables: seq<Catalog.Table>, t: Catalog.Table)
    ensures Flat(tables + [t]) == Flat(tables) + RowsOf(t)
  {
    assert (tables + [t])[..|tables|] == tables;
  }

  /** How many columns some tables have. */
  function Width(tables: seq<Catalog.Table>): nat {
    if tables == [] then 0 else Width(tables[..|tables| - 1]) + |tables[|tables| - 1].columns|
  }

  /** The row a column of a table came from: after those of the tables before, and the columns before. */
  ghost predicate CameFrom(tables: seq<Catalog.Table>, a: nat, b: nat, rows: seq<SourceRow>)
    requires a < |tables| && b < |tables[a].columns|
  {
    && Width(tables[..a]) + b < |rows|
    && rows[Width(tables[..a]) + b] == SourceRow(tables[a].schema, tables[a].name, tables[a].columns[b])
  }

  lemma {:induction false} ColumnsInPlace(tables: seq<Catalog.Table>, a: nat, b: nat)
    requires a < |tables| && b < |tables[a].columns|
    ensures CameFrom(tables, a, b, Flat(tables))
    decreases |tables|
  {
    var init := tables[..|tables| - 1];
    FlatWidth(tables);
    FlatWidth(init);
    if a < |init| {
      ColumnsInPlace(init, a, b);
      assert init[..a] == tables[..a];
    }
  }

  lemma {:induction false} FlatWidth(tables: seq<Catalog.Table>)
    ensures |Flat(tables)| == Width(tables)
  {
    if tables != [] {
      FlatWidth(tables[..|tables| - 1]);
    }
  }

  method Introspect(rows: seq<SourceRow>) returns (tables: seq<Catalog.Table>)
    ensures Flat(tables) == rows && Gathered(tables)
    ensures |rows| == Width(tables)
    ensures forall a, b :: 0 <= a < |tables| && 0 <= b < |tables[a].columns| ==> CameFrom(tables, a, b, rows)
  {
    tables := [];
    for i := 0 to |rows|
      invariant Flat(tables) == rows[..i] && Gathered(tables)
    {
      hide Flat;
      var row := rows[i];
      assert rows[..i + 1] == rows[..i] + [row];
      if tables == [] || Catalog.KeyOf(tables[|tables| - 1]) != KeyOf(row) {
        var started := Catalog.Table(row.schema, row.table, [row.column]);
        FlatAppend(tables, started);
        assert RowsOf(started) == [row];
        tables := tables + [started];
      } else {
        var init, current := tables[..|tables| - 1], tables[|tables| - 1];
        var more := current.(columns := current.columns + [row.column]);
        FlatAppend(init, more);
        assert RowsOf(more) == RowsOf(current) + [row];
        tables := init + [more];
      }
    }
    assert rows[..|rows|] == rows;
    FlatWidth(tables);
    forall a, b | 0 <= a < |tables| && 0 <= b < |tables[a].columns|
      ensures CameFrom(tables, a, b, rows)
    {
      ColumnsInPlace(tables, a, b);
    }
  }

  /** Each table's rows arrive together. */
  ghost predicate Together(rows: seq<SourceRow>) {
    forall i, j, k :: 0 <= i < j < k < |rows| && KeyOf(rows[i]) == KeyOf(rows[k]) ==> KeyOf(rows[j]) == KeyOf(rows[k])
  }

  lemma {:induction false} FlatNames(tables: seq<Catalog.Table>, key: Catalog.TableKey)
    requires Gathered(tables)
    ensures (exists r :: r in Flat(tables) && KeyOf(r) == key) <==> exists t :: t in tables && Catalog.KeyOf(t) == key
    ensures tables != [] ==>
              Flat(tables) != [] && KeyOf(Flat(tables)[|Flat(tables)| - 1]) == Catalog.KeyOf(tables[|tables| - 1])
  {
    if tables != [] {
      var init, last := tables[..|tables| - 1], tables[|tables| - 1];
      FlatNames(init, key);
      assert tables == init + [last];
      var rows := RowsOf(last);
      assert rows[0] in Flat(tables) && KeyOf(rows[0]) == Catalog.KeyOf(last);
      assert forall r :: r in rows ==> KeyOf(r) == Catalog.KeyOf(last);
      assert forall r :: r in Flat(tables) <==> r in Flat(init) || r in rows;
    }
  }

  lemma MoreTogether(before: seq<SourceRow>, more: seq<SourceRow>, key: Catalog.TableKey)
    requires more != [] && forall r :: r in more ==> KeyOf(r) == key
    requires before != [] ==> KeyOf(before[|before| - 1]) != key
    ensures Together(before + more) <==> Together(before) && forall r :: r in before ==> KeyOf(r) != key
  {
    var all := before + more;
    if Together(all) {
      forall i, j, k | 0 <= i < j < k < |before| && KeyOf(before[i]) == KeyOf(before[k])
        ensures KeyOf(before[j]) == KeyOf(before[k])
      {
        assert all[i] == before[i] && all[j] == before[j] && all[k] == before[k];
      }
      forall r | r in before ensures KeyOf(r) != key {
        var i :| 0 <= i < |before| && before[i] == r;
        assert all[i] == r && all[|before| - 1] == before[|before| - 1] && all[|before|] == more[0];
        assert more[0] in more;
      }
    }
    if Together(before) && forall r :: r in before ==> KeyOf(r) != key {
      forall i, j, k | 0 <= i < j < k < |all| && KeyOf(all[i]) == KeyOf(all[k]) ensures KeyOf(all[j]) == KeyOf(all[k]) {
        assert forall n :: |before| <= n < |all| ==> all[n] in more;
        assert forall n :: 0 <= n < |before| ==> all[n] in before;
      }
    }
  }

  /** What a catalog sync needs, that no table is reported twice, holds exactly when the query delivers
      each table's rows together. */
  lemma {:induction false} DistinctExactlyWhenTogether(tables: seq<Catalog.Table>)
    requires Gathered(tables)
    ensures Catalog.DistinctTables(tables) <==> Together(Flat(tables))
  {
    if tables != [] {
      var init, last := tables[..|tables| - 1], tables[|tables| - 1];
      DistinctExactlyWhenTogether(init);
      FlatNames(init, Catalog.KeyOf(last));
      MoreTogether(Flat(init), RowsOf(last), Catalog.KeyOf(last));
      assert Catalog.DistinctTables(tables) <==>
             Catalog.DistinctTables(init) && forall t :: t in init ==> Catalog.KeyOf(t) != Catalog.KeyOf(last);
    }
  }

  /** Where a run of one table's rows begins. */
  ghost predicate EndsWith(rows: seq<SourceRow>, at: nat, key: Catalog.TableKey) {
    && at < |rows|
    && (forall n :: at <= n < |rows| ==> KeyOf(rows[n]) == key)
    && (at > 0 ==> KeyOf(rows[at - 1]) != key)
  }

  lemma OneEnding(rows: seq<SourceRow>, i: nat, j: nat, key: Catalog.TableKey, other: Catalog.TableKey)
    requires EndsWith(rows, i, key) && EndsWith(rows, j, other)
    ensures i == j && key == other
  {
    assert KeyOf(rows[|rows| - 1]) == key == other;
  }

  lemma RunOf(before: seq<SourceRow>, last: Catalog.Table)
    requires last.columns != [] && (before != [] ==> KeyOf(before[|before| - 1]) != Catalog.KeyOf(last))
    ensures EndsWith(before + RowsOf(last), |before|, Catalog.KeyOf(last))
  {
    var rows := before + RowsOf(last);
    assert forall n :: |before| <= n < |rows| ==> rows[n] == RowsOf(last)[n - |before|];
  }

  lemma LastRun(tables: seq<Catalog.Table>)
    requires Gathered(tables) && tables != []
    ensures EndsWith(Flat(tables), |Flat(tables[..|tables| - 1])|, Catalog.KeyOf(tables[|tables| - 1]))
  {
    var init, last := tables[..|tables| - 1], tables[|tables| - 1];
    FlatNames(init, Catalog.KeyOf(last));
    assert Flat(tables) == Flat(init) + RowsOf(last);
    RunOf(Flat(init), last);
    hide Flat;
  }

  lemma RowsDetermine(x: Catalog.Table, y: Catalog.Table)
    requires Catalog.KeyOf(x) == Catalog.KeyOf(y) && RowsOf(x) == RowsOf(y)
    ensures x == y
  {
    assert |x.columns| == |y.columns|;
    forall i | 0 <= i < |x.columns| ensures x.columns[i] == y.columns[i] {
      assert RowsOf(x)[i] == RowsOf(y)[i];
    }
    assert x.columns == y.columns;
  }

  /** Two gatherings of the same rows end in the same table. */
  lemma LastTablesAgree(a: seq<Catalog.Table>, b: seq<Catalog.Table>)
    requires Gathered(a) && Gathered(b) && Flat(a) == Flat(b) && a != [] && b != []
    ensures a[|a| - 1] == b[|b| - 1] && Flat(a[..|a| - 1]) == Flat(b[..|b| - 1])
  {
    var p, x, q, y := a[..|a| - 1], a[|a| - 1], b[..|b| - 1], b[|b| - 1];
    var rows := Flat(a);
    assert rows == Flat(p) + RowsOf(x) == Flat(q) + RowsOf(y);
    LastRun(a);
    LastRun(b);
    OneEnding(rows, |Flat(p)|, |Flat(q)|, Catalog.KeyOf(x), Catalog.KeyOf(y));
    hide Flat, RowsOf, EndsWith, Gathered;
    assert Flat(p) == rows[..|Flat(p)|] == Flat(q);
    assert RowsOf(x) == rows[|Flat(p)|..] == RowsOf(y);
    RowsDetermine(x, y);
  }

  lemma NoRowsNoTables(tables: seq<Catalog.Table>)
    requires Gathered(tables)
    ensures Flat(tables) == [] <==> tables == []
  {
    FlatNames(tables, Catalog.TableKey("", ""));
  }

  /** Rows determine the tables gathered from them. */
  lemma {:induction false} GatheringIsUnique(a: seq<Catalog.Table>, b: seq<Catalog.Table>)
    requires Gathered(a) && Gathered(b) && Flat(a) == Flat(b)
    ensures a == b
    decreases |a|
  {
    hide Flat;
    NoRowsNoTables(a);
    NoRowsNoTables(b);
    if a != [] {
      LastTablesAgree(a, b);
      GatheringIsUnique(a[..|a| - 1], b[..|b| - 1]);
      assert a == a[..|a| - 1] + [a[|a| - 1]] && b == b[..|b| - 1] + [b[|b| - 1]];
    }
  }

  // Relationships.

  /** A whole relationship: its columns, paired, in the order they arrived. The target is that of the first. */
  datatype Relationship = Relationship(of: Relation, toSchema: string, toTable: string, columns: seq<(string, string)>)

  function RelationIn(key: ForeignKey): Relation {
    RelationOf(Identity(key))
  }

  /** The column pairs of one relationship, in order. */
  function PairsOf(keys: seq<ForeignKey>, r: Relation): seq<(string, string)> {
    if keys == [] then []
    else
      var last := keys[|keys| - 1];
      PairsOf(keys[..|keys| - 1], r) + if RelationIn(last) == r then [(last.fromColumn, last.target.column)] else []
  }

  /** The relationships, in the order they first appear. */
  function FirstSeen(keys: seq<ForeignKey>): seq<Relation> {
    if keys == [] then []
    else
      var before := FirstSeen(keys[..|keys| - 1]);
      if RelationIn(keys[|keys| - 1]) in before then before else before + [RelationIn(keys[|keys| - 1])]
  }

  /** The first key of a relationship. */
  function FirstOf(keys: seq<ForeignKey>, r: Relation): Option<ForeignKey> {
    if keys == [] then None
    else
      var last := keys[|keys| - 1];
      var before := FirstOf(keys[..|keys| - 1], r);
      if before.None? && RelationIn(last) == r then Some(last) else before
  }

  lemma GroupsStart()
    ensures FirstSeen([]) == [] && forall r :: PairsOf([], r) == [] && FirstOf([], r).None?
  {
  }

  lemma GroupsGrow(keys: seq<ForeignKey>, i: nat)
    requires i < |keys|
    ensures var key, r := keys[i], RelationIn(keys[i]);
            && FirstSeen(keys[..i + 1]) ==
               (if r in FirstSeen(keys[..i]) then FirstSeen(keys[..i]) else FirstSeen(keys[..i]) + [r])
            && (forall q :: PairsOf(keys[..i + 1], q) ==
                 PairsOf(keys[..i], q) + if q == r then [(key.fromColumn, key.target.column)] else [])
            && forall q :: FirstOf(keys[..i + 1], q) ==
                 if FirstOf(keys[..i], q).None? && q == r then Some(key) else FirstOf(keys[..i], q)
  {
    assert keys[..i + 1][..i] == keys[..i] && keys[..i + 1][i] == keys[i];
  }

  /** How many of some keys are columns of a relationship. */
  function CountOf(keys: seq<ForeignKey>, r: Relation): nat {
    if keys == [] then 0
    else CountOf(keys[..|keys| - 1], r) + if RelationIn(keys[|keys| - 1]) == r then 1 else 0
  }

  lemma {:induction false} AsManyPairs(keys: seq<ForeignKey>, r: Relation)
    ensures |PairsOf(keys, r)| == CountOf(keys, r)
  {
    if keys != [] {
      AsManyPairs(keys[..|keys| - 1], r);
    }
  }

  /** Each key's columns are paired in its relationship, after the pairs of the keys before it. */
  lemma {:induction false} PairsInPlace(keys: seq<ForeignKey>, i: nat)
    requires i < |keys|
    ensures var key, r := keys[i], RelationIn(keys[i]);
            && CountOf(keys[..i], r) < |PairsOf(keys, r)|
            && PairsOf(keys, r)[CountOf(keys[..i], r)] == (key.fromColumn, key.target.column)
    decreases |keys|
  {
    var init := keys[..|keys| - 1];
    AsManyPairs(init, RelationIn(keys[i]));
    if i < |init| {
      PairsInPlace(init, i);
      assert init[..i] == keys[..i];
    }
  }

  /** Key i is the first of its relationship. */
  ghost predicate Opens(keys: seq<ForeignKey>, i: nat) {
    i < |keys| && forall j :: 0 <= j < i ==> RelationIn(keys[j]) != RelationIn(keys[i])
  }

  lemma {:induction false} SeenOnce(keys: seq<ForeignKey>, r: Relation)
    ensures r in FirstSeen(keys) <==> exists key :: key in keys && RelationIn(key) == r
  {
    if keys != [] {
      SeenOnce(keys[..|keys| - 1], r);
      assert keys == keys[..|keys| - 1] + [keys[|keys| - 1]];
    }
  }

  /** The relationships by name and table, and the order they were first seen in. */
  method GatherForeignKeys(keys: seq<ForeignKey>) returns (order: seq<Relation>, byGroup: map<Relation, Relationship>)
    ensures order == FirstSeen(keys) && forall r :: r in byGroup <==> r in order
    ensures forall r :: r in byGroup ==>
              byGroup[r].of == r && byGroup[r].columns == PairsOf(keys, r) && Targets(byGroup[r], FirstOf(keys, r))
  {
    hide PairsOf, FirstSeen, FirstOf;
    GroupsStart();
    order, byGroup := [], map[];
    for i := 0 to |keys|
      invariant order == FirstSeen(keys[..i])
      invariant forall r :: r in byGroup <==> r in order
      invariant forall r :: r in byGroup ==> byGroup[r].of == r
      invariant forall r :: PairsOf(keys[..i], r) == if r in byGroup then byGroup[r].columns else []
      invariant forall r :: FirstOf(keys[..i], r).Some? <==> r in byGroup
      invariant forall r :: r in byGroup ==> Targets(byGroup[r], FirstOf(keys[..i], r))
    {
      var key := keys[i];
      var r := RelationIn(key);
      GroupsGrow(keys, i);
      if r !in byGroup {
        byGroup := byGroup[r := Relationship(r, key.target.schema, key.target.table, [])];
        order := order + [r];
      }
      byGroup := byGroup[r := byGroup[r].(columns := byGroup[r].columns + [(key.fromColumn, key.target.column)])];
    }
    assert keys[..|keys|] == keys;
  }

  method GroupForeignKeys(keys: seq<ForeignKey>) returns (out: seq<Relationship>)
    ensures |out| == |FirstSeen(keys)|
    ensures forall i :: 0 <= i < |out| ==> out[i].of == FirstSeen(keys)[i] && out[i].columns == PairsOf(keys, out[i].of)
    ensures forall i, k :: 0 <= i < |out| && 0 <= k < |keys| && Opens(keys, k) && RelationIn(keys[k]) == out[i].of ==>
              out[i].toSchema == keys[k].target.schema && out[i].toTable == keys[k].target.table
    ensures forall k :: 0 <= k < |keys| ==> Paired(out, keys, k)
  {
    hide PairsOf, FirstSeen, FirstOf, Opens, Paired;
    var order, byGroup := GatherForeignKeys(keys);
    out := [];
    for i := 0 to |order|
      invariant |out| == i
      invariant forall j :: 0 <= j < i ==> out[j] == byGroup[order[j]]
    {
      assert order[i] in order;
      out := out + [byGroup[order[i]]];
    }
    assert forall i :: 0 <= i < |order| ==> order[i] in order;
    AllPaired(out, keys);
    forall i, k | 0 <= i < |out| && 0 <= k < |keys| && Opens(keys, k) && RelationIn(keys[k]) == out[i].of
      ensures out[i].toSchema == keys[k].target.schema && out[i].toTable == keys[k].target.table
    {
      OpensIsFirst(keys, k);
    }
  }

  /** A relationship leads where its first key does. */
  predicate Targets(r: Relationship, first: Option<ForeignKey>) {
    first.Some? && r.toSchema == first.value.target.schema && r.toTable == first.value.target.table
  }

  lemma {:induction false} OpensIsFirst(keys: seq<ForeignKey>, k: nat)
    requires Opens(keys, k)
    ensures FirstOf(keys, RelationIn(keys[k])) == Some(keys[k])
    decreases |keys|
  {
    var init := keys[..|keys| - 1];
    if k < |init| {
      OpensIsFirst(init, k);
    } else {
      NotYetSeen(init, RelationIn(keys[k]));
    }
  }

  lemma {:induction false} NotYetSeen(keys: seq<ForeignKey>, r: Relation)
    requires forall j :: 0 <= j < |keys| ==> RelationIn(keys[j]) != r
    ensures FirstOf(keys, r).None?
  {
    if keys != [] {
      NotYetSeen(keys[..|keys| - 1], r);
    }
  }

  lemma AllPaired(out: seq<Relationship>, keys: seq<ForeignKey>)
    requires |out| == |FirstSeen(keys)|
    requires forall i :: 0 <= i < |out| ==>
               out[i].of == FirstSeen(keys)[i] && out[i].columns == PairsOf(keys, out[i].of)
    ensures forall k :: 0 <= k < |keys| ==> Paired(out, keys, k)
  {
    forall k | 0 <= k < |keys| ensures Paired(out, keys, k) {
      PairsInPlace(keys, k);
      SeenOnce(keys, RelationIn(keys[k]));
      var i :| 0 <= i < |out| && FirstSeen(keys)[i] == RelationIn(keys[k]);
      assert HoldsPair(out[i], keys, k);
    }
  }

  ghost predicate Paired(out: seq<Relationship>, keys: seq<ForeignKey>, k: nat)
    requires k < |keys|
  {
    exists i :: 0 <= i < |out| && HoldsPair(out[i], keys, k)
  }

  /** Key k is in this relationship, in its place. */
  ghost predicate HoldsPair(r: Relationship, keys: seq<ForeignKey>, k: nat)
    requires k < |keys|
  {
    && r.of == Relation(keys[k].fromSchema, keys[k].fromTable, keys[k].name)
    && CountOf(keys[..k], r.of) < |r.columns|
    && r.columns[CountOf(keys[..k], r.of)] == (keys[k].fromColumn, keys[k].target.column)
  }

  /** Some key of the one comes before any of the other. */
  ghost predicate SeenBefore(keys: seq<ForeignKey>, a: Relation, b: Relation) {
    exists p :: 0 <= p < |keys| && RelationIn(keys[p]) == a && forall q :: 0 <= q <= p ==> RelationIn(keys[q]) != b
  }

  lemma StaysBefore(keys: seq<ForeignKey>, key: ForeignKey, a: Relation, b: Relation)
    requires SeenBefore(keys, a, b)
    ensures SeenBefore(keys + [key], a, b)
  {
    var p :| 0 <= p < |keys| && RelationIn(keys[p]) == a && forall q :: 0 <= q <= p ==> RelationIn(keys[q]) != b;
    assert (keys + [key])[p] == keys[p];
  }

  lemma NewIsLast(keys: seq<ForeignKey>, key: ForeignKey, a: Relation)
    requires a in FirstSeen(keys) && RelationIn(key) !in FirstSeen(keys)
    ensures SeenBefore(keys + [key], a, RelationIn(key))
  {
    SeenOnce(keys, a);
    SeenOnce(keys, RelationIn(key));
    var p :| 0 <= p < |keys| && RelationIn(keys[p]) == a;
    assert (keys + [key])[p] == keys[p];
    assert forall q :: 0 <= q <= p ==> (keys + [key])[q] in keys;
  }

  /** Grouping keeps every column pair in exactly one relationship, and never merges two. */
  lemma {:induction false} GroupsAreTheRelations(keys: seq<ForeignKey>)
    ensures forall r :: r in FirstSeen(keys) <==> exists key :: key in keys && RelationIn(key) == r
    ensures forall i, j :: 0 <= i < j < |FirstSeen(keys)| ==> FirstSeen(keys)[i] != FirstSeen(keys)[j]
    ensures forall r :: PairsOf(keys, r) != [] <==> r in FirstSeen(keys)
    ensures forall i, j :: 0 <= i < j < |FirstSeen(keys)| ==> SeenBefore(keys, FirstSeen(keys)[i], FirstSeen(keys)[j])
  {
    SeenInOrder(keys);
    hide SeenBefore;
    if keys != [] {
      var init, last := keys[..|keys| - 1], keys[|keys| - 1];
      GroupsAreTheRelations(init);
      assert keys == init + [last];
      var before := FirstSeen(init);
      assert forall i :: 0 <= i < |before| ==> before[i] in before;
    }
  }

  lemma {:induction false} SeenInOrder(keys: seq<ForeignKey>)
    ensures forall i, j :: 0 <= i < j < |FirstSeen(keys)| ==> SeenBefore(keys, FirstSeen(keys)[i], FirstSeen(keys)[j])
  {
    hide SeenBefore;
    if keys != [] {
      var init, last := keys[..|keys| - 1], keys[|keys| - 1];
      SeenInOrder(init);
      assert keys == init + [last];
      var before := FirstSeen(init);
      forall i, j | 0 <= i < j < |FirstSeen(keys)| ensures SeenBefore(keys, FirstSeen(keys)[i], FirstSeen(keys)[j]) {
        if j < |before| {
          StaysBefore(init, last, before[i], before[j]);
        } else {
          NewIsLast(init, last, before[i]);
        }
      }
    }
  }
}
