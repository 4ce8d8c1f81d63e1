/** What a catalog sync reports: changes, the order removals are listed in, and counting by naming. */
module CatalogModel {
  import opened Sorting

  datatype Kind = Added | Removed | Changed

  /** Where a change is: a table, one of its columns, a relationship declared on it, or the sweep as a
      whole. */
  datatype Place = OfTable | OfColumn(column: string) | OfRelationship(constraint: string) | OfSweep

  datatype Change = Change(kind: Kind, schema: string, table: string, place: Place, detail: string)

  const CAME_BACK := "was marked gone and has come back"

  function Label(place: Place): string {
    match place
    case OfTable => ""
    case OfColumn(column) => "." + column
    case OfRelationship(constraint) => "(" + constraint
    case OfSweep => "!"
  }

  /** By schema, then table, then what it is: the order both sorts of the source use. */
  predicate Precedes(a: Change, b: Change) {
    || Less(a.schema, b.schema)
    || (a.schema == b.schema &&
        (Less(a.table, b.table) || (a.table == b.table && Less(Label(a.place), Label(b.place)))))
  }

  predicate SamePlace(a: Change, b: Change) {
    a.schema == b.schema && a.table == b.table && Label(a.place) == Label(b.place)
  }

  lemma PrecedesTrichotomy(a: Change, b: Change)
    ensures Precedes(a, b) || Precedes(b, a) || SamePlace(a, b)
    ensures !(Precedes(a, b) && Precedes(b, a))
    ensures SamePlace(a, b) ==> !Precedes(a, b)
  {
    LessTrichotomy(a.schema, b.schema);
    LessTrichotomy(a.table, b.table);
    LessTrichotomy(Label(a.place), Label(b.place));
  }

  lemma PrecedesTransitive(a: Change, b: Change, c: Change)
    requires Precedes(a, b) && !Precedes(c, b)
    ensures Precedes(a, c)
  {
    LessTrichotomy(b.schema, c.schema);
    LessTrichotomy(b.table, c.table);
    LessTrichotomy(Label(b.place), Label(c.place));
    if Less(a.schema, b.schema) && Less(b.schema, c.schema) {
      LessTransitive(a.schema, b.schema, c.schema);
    } else if Less(a.table, b.table) && Less(b.table, c.table) {
      LessTransitive(a.table, b.table, c.table);
    } else if Less(Label(a.place), Label(b.place)) && Less(Label(b.place), Label(c.place)) {
      LessTransitive(Label(a.place), Label(b.place), Label(c.place));
    }
  }

  ghost predicate InOrder(changes: seq<Change>) {
    forall i, j :: 0 <= i < j < |changes| ==> !Precedes(changes[j], changes[i])
  }

  function Insert(x: Change, xs: seq<Change>): seq<Change> {
    if xs == [] || Precedes(x, xs[0]) then [x] + xs else [xs[0]] + Insert(x, xs[1..])
  }

  function Ordered(changes: seq<Change>): seq<Change> {
    if changes == [] then [] else Insert(changes[0], Ordered(changes[1..]))
  }

  lemma {:induction false} InsertKeepsOrder(x: Change, xs: seq<Change>)
    requires InOrder(xs)
    ensures InOrder(Insert(x, xs)) && multiset(Insert(x, xs)) == multiset(xs) + multiset{x}
  {
    if xs != [] {
      if Precedes(x, xs[0]) {
        forall j | 0 <= j < |xs| ensures !Precedes(xs[j], x) {
          if j > 0 { PrecedesTransitive(x, xs[0], xs[j]); }
          PrecedesTrichotomy(x, xs[j]);
        }
      } else {
        InsertKeepsOrder(x, xs[1..]);
        var r := Insert(x, xs[1..]);
        assert xs == [xs[0]] + xs[1..];
        forall j | 0 <= j < |r| ensures !Precedes(r[j], xs[0]) {
          assert r[j] in multiset(r);
          if r[j] != x {
            assert r[j] in xs[1..];
          }
        }
      }
    }
  }

  lemma {:induction false} OrderedSorts(changes: seq<Change>)
    ensures InOrder(Ordered(changes)) && multiset(Ordered(changes)) == multiset(changes)
  {
    if changes != [] {
      OrderedSorts(changes[1..]);
      InsertKeepsOrder(changes[0], Ordered(changes[1..]));
      assert changes == [changes[0]] + changes[1..];
    }
  }

  /** A listing of a set, in order. */
  ghost predicate Lists(changes: seq<Change>, what: set<Change>) {
    InOrder(changes) && multiset(changes) == multiset(what)
  }

  lemma ListsExactly(changes: seq<Change>, what: set<Change>)
    requires Lists(changes, what)
    ensures |changes| == |what| && forall c :: c in changes <==> c in what
  {
    assert |multiset(changes)| == |changes|;
    forall c ensures c in changes <==> c in what {
      assert c in changes <==> c in multiset(changes);
    }
  }

  /** No two different changes at one place. */
  ghost predicate OnePerPlace(changes: seq<Change>) {
    forall a, b :: a in changes && b in changes && SamePlace(a, b) ==> a == b
  }

  lemma FirstIsLeast(xs: seq<Change>, c: Change)
    requires InOrder(xs) && c in xs
    ensures !Precedes(c, xs[0])
  {
    PrecedesTrichotomy(c, c);
  }

  lemma HeadsAgree(xs: seq<Change>, ys: seq<Change>)
    requires InOrder(xs) && InOrder(ys) && multiset(xs) == multiset(ys) && xs != [] && ys != []
    requires OnePerPlace(xs)
    ensures xs[0] == ys[0]
  {
    assert xs[0] in multiset(ys) && ys[0] in multiset(xs);
    FirstIsLeast(xs, ys[0]);
    FirstIsLeast(ys, xs[0]);
    PrecedesTrichotomy(xs[0], ys[0]);
  }

  /** When no two changes are at the same place, there is only one listing: what a report says does not
      depend on the order a map was walked in. */
  lemma {:induction false} ListingIsUnique(xs: seq<Change>, ys: seq<Change>)
    requires InOrder(xs) && InOrder(ys) && multiset(xs) == multiset(ys)
    requires OnePerPlace(xs)
    ensures xs == ys
  {
    assert |xs| == |multiset(xs)| == |multiset(ys)| == |ys|;
    if xs != [] {
      HeadsAgree(xs, ys);
      assert xs == [xs[0]] + xs[1..] && ys == [ys[0]] + ys[1..];
      assert multiset(xs[1..]) == multiset(xs) - multiset{xs[0]} == multiset(ys[1..]);
      ListingIsUnique(xs[1..], ys[1..]);
    }
  }

  lemma InOrderSwap(xs: seq<Change>, i: nat, j: nat)
    requires InOrder(xs) && i < j < |xs| && SamePlace(xs[i], xs[j])
    ensures InOrder(xs[i := xs[j]][j := xs[i]]) && multiset(xs[i := xs[j]][j := xs[i]]) == multiset(xs)
  {
    var ys := xs[i := xs[j]][j := xs[i]];
    forall a, b | 0 <= a < b < |ys| ensures !Precedes(ys[b], ys[a]) {
      assert SamePlace(ys[a], xs[a]) && SamePlace(ys[b], xs[b]);
    }
  }

  /** The order decides the listing exactly when no two of the changes are at one place. */
  lemma ListedOnceExactlyWhen(xs: seq<Change>, what: set<Change>)
    requires Lists(xs, what)
    ensures (forall ys :: Lists(ys, what) ==> ys == xs) <==> OnePerPlace(xs)
  {
    if OnePerPlace(xs) {
      hide InOrder, OnePerPlace;
      forall ys | Lists(ys, what) ensures ys == xs {
        ListingIsUnique(xs, ys);
      }
    } else {
      var ys := AnotherListing(xs);
      assert Lists(ys, what);
    }
  }

  /** Two different changes at one place can be listed the other way round. */
  lemma AnotherListing(xs: seq<Change>) returns (ys: seq<Change>)
    requires InOrder(xs) && !OnePerPlace(xs)
    ensures InOrder(ys) && multiset(ys) == multiset(xs) && ys != xs
  {
    var a, b :| a in xs && b in xs && SamePlace(a, b) && a != b;
    var i :| 0 <= i < |xs| && xs[i] == a;
    var j :| 0 <= j < |xs| && xs[j] == b;
    hide InOrder, OnePerPlace;
    var lo, hi := if i < j then i else j, if i < j then j else i;
    InOrderSwap(xs, lo, hi);
    ys := xs[lo := xs[hi]][hi := xs[lo]];
    assert ys[lo] == xs[hi] != xs[lo];
  }

  /** Naming things one to one does not change how many there are. */
  lemma {:induction false} NamesCount<A, B>(names: map<A, B>)
    requires forall x, y :: x in names && y in names && names[x] == names[y] ==> x == y
    ensures |names.Values| == |names|
    decreases |names|
  {
    if names.Keys != {} {
      var x :| x in names;
      var rest := names - {x};
      assert |rest.Keys| == |names.Keys| - 1 by { assert rest.Keys == names.Keys - {x}; }
      NamesCount(rest);
      assert names.Values == rest.Values + {names[x]} by {
        forall y | y in names.Values ensures y in rest.Values + {names[x]} {
          var k :| k in names && names[k] == y;
          assert k != x ==> k in rest && rest[k] == y;
        }
      }
      assert names[x] !in rest.Values;
    } else {
      assert names == map[];
    }
  }
}
