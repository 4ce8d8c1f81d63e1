/** Readers of one cached result, at the level of the memory they share. A stored row is an array that
    every reader is served from; each reader hands out a buffer of its own. */
module Replay {
  import opened Common
  import opened ResultCache

  type Cells = array<Cell>

  class Replay {
    const entry: Entry<Cells>
    var index: nat
    var done: bool
    var cells: Cells
    var width: nat

    constructor (entry: Entry<Cells>)
      ensures this.entry == entry && index == 0 && !done && fresh(cells) && width == 0
    {
      this.entry := entry;
      index, done, width := 0, false, 0;
      cells := new Cell[0];
    }

    /** The reader's buffer is none of the stored rows. */
    ghost predicate Valid()
      reads this
    {
      && index <= |entry.rows|
      && width <= cells.Length
      && cells !in entry.rows
    }

    /** What Row returns: the filled part of the reader's own buffer. */
    function Current(): Row
      reads this, cells
      requires Valid()
    {
      cells[..width]
    }

    method Next() returns (more: bool)
      requires Valid()
      modifies this`index, this`cells, this`width, cells
      ensures Valid()
      ensures more <==> !done && old(index) < |entry.rows|
      ensures more ==> index == old(index) + 1 && Current() == old(entry.rows[index][..])
      ensures !more ==> index == old(index) && cells == old(cells) && cells[..] == old(cells[..]) && width == old(width)
      ensures cells == old(cells) || fresh(cells)
    {
      if done || index >= |entry.rows| {
        return false;
      }
      var row := entry.rows[index];
      assert row in entry.rows;
      if cells.Length < row.Length {
        cells := new Cell[row.Length];
      }
      width := row.Length;
      forall i | 0 <= i < row.Length {
        cells[i] := row[i];
      }
      index := index + 1;
      return true;
    }

    method Close()
      modifies this`done
      ensures done
    {
      done := true;
    }
  }

  /** What readers do to each other's memory: advance, write into any slice anybody was ever handed, close. */
  datatype Act = Advance(reader: nat) | Scribble(slice: nat, at: nat, cell: Cell) | Leave(reader: nat)

  /** The reader an act is of; a write need not come from the reader that was handed the slice. */
  predicate OfSome(act: Act, readers: nat) {
    act.Scribble? || act.reader < readers
  }

  /** A reader as it would be alone: the rows it was opened over, how far it is, whether it left. */
  datatype View = View(rows: seq<Row>, index: nat, done: bool)

  function StepView(views: seq<View>, act: Act): (r: (seq<View>, seq<Option<Row>>))
    requires OfSome(act, |views|)
    ensures |r.0| == |views|
  {
    match act
    case Advance(r) =>
      var v := views[r];
      if v.done || v.index >= |v.rows| then (views, [None])
      else (views[r := v.(index := v.index + 1)], [Some(v.rows[v.index])])
    case Scribble(_, _, _) => (views, [])
    case Leave(r) => (views[r := views[r].(done := true)], [])
  }

  /** What the readers see if nobody's writes reach anybody else: a function of the stored rows and of
      who advanced when. Scribbles are not in it. */
  function Seen(views: seq<View>, acts: seq<Act>): seq<Option<Row>>
    requires forall i :: 0 <= i < |acts| ==> OfSome(acts[i], |views|)
    decreases |acts|
  {
    if acts == [] then []
    else
      var (after, saw) := StepView(views, acts[0]);
      saw + Seen(after, acts[1..])
  }

  lemma SeenAdvances(views: seq<View>, acts: seq<Act>, k: nat, seen: seq<Option<Row>>)
    requires k < |acts| && forall i :: 0 <= i < |acts| ==> OfSome(acts[i], |views|)
    ensures var (after, saw) := StepView(views, acts[k]);
            seen + Seen(views, acts[k..]) == (seen + saw) + Seen(after, acts[k + 1..])
  {
    hide StepView, OfSome;
    var rest := acts[k..];
    assert forall i :: 0 <= i < |rest| ==> rest[i] == acts[k + i];
    var (after, saw) := StepView(views, rest[0]);
    var tail := Seen(after, rest[1..]);
    assert Seen(views, rest) == saw + tail;
    assert rest[1..] == acts[k + 1..];
    assert seen + (saw + tail) == (seen + saw) + tail;
  }

  /** How often anybody, and how often one reader, has asked for a row. */
  function Asked(acts: seq<Act>): nat {
    if acts == [] then 0 else (if acts[0].Advance? then 1 else 0) + Asked(acts[1..])
  }

  function AskedBy(acts: seq<Act>, reader: nat): nat {
    if acts == [] then 0 else (if acts[0] == Advance(reader) then 1 else 0) + AskedBy(acts[1..], reader)
  }

  /** What a reader that has asked so often before is due: the next of its rows, and nothing after the last or
      once it has left. */
  function Due(v: View, asked: nat, left: bool): Option<Row> {
    if v.done || left || v.index + asked >= |v.rows| then None else Some(v.rows[v.index + asked])
  }

  /** Whoever else does what, the answer to each asking is the row that is due. */
  lemma {:induction false} EachSeesItsNext(views: seq<View>, acts: seq<Act>, i: nat)
    requires forall k :: 0 <= k < |acts| ==> OfSome(acts[k], |views|)
    requires i < |acts| && acts[i].Advance?
    ensures Asked(acts[..i]) < |Seen(views, acts)|
    ensures var r := acts[i].reader;
            Seen(views, acts)[Asked(acts[..i])] == Due(views[r], AskedBy(acts[..i], r), Leave(r) in acts[..i])
    decreases |acts|
  {
    var r := acts[i].reader;
    if i > 0 {
      var (after, saw) := StepView(views, acts[0]);
      EachSeesItsNext(after, acts[1..], i - 1);
      assert acts[..i][1..] == acts[1..][..i - 1];
      assert acts[..i] == [acts[0]] + acts[1..][..i - 1];
      assert |saw| == if acts[0].Advance? then 1 else 0;
    }
  }

  ghost predicate Holds(stored: seq<Cells>, rows: seq<Row>)
    reads stored
  {
    |stored| == |rows| && forall j :: 0 <= j < |rows| ==> stored[j][..] == rows[j]
  }

  /** The view a reader has of the rows it is being served. */
  ghost predicate Mirrors(reader: Replay, v: View)
    reads reader, reader.entry.rows
  {
    Holds(reader.entry.rows, v.rows) && reader.index == v.index && reader.done == v.done
  }

  /** Every reader has its own buffer, no reader's current buffer is a row of any result being read, and
      neither is any buffer handed out before. */
  ghost predicate Apart(readers: seq<Replay>, handed: seq<Cells>)
    reads readers
  {
    && (forall i :: 0 <= i < |readers| ==> readers[i].Valid())
    && (forall i, j :: 0 <= i < j < |readers| ==> readers[i] != readers[j] && readers[i].cells != readers[j].cells)
    && (forall i, j :: 0 <= i < |readers| && 0 <= j < |readers| ==> readers[i].cells !in readers[j].entry.rows)
    && (forall k, j :: 0 <= k < |handed| && 0 <= j < |readers| ==> handed[k] !in readers[j].entry.rows)
  }

  ghost function Buffers(readers: seq<Replay>): set<object>
    reads readers
  {
    set r | r in readers :: r.cells as object
  }

  ghost function StoredRows(readers: seq<Replay>): (rows: set<object>)
    ensures forall r, a: Cells :: r in readers && a in r.entry.rows ==> a in rows
  {
    set r, a | r in readers && a in r.entry.rows :: a as object
  }

  /** Every reader mirrors its view, and the views are over the rows the first ones were over. */
  ghost predicate AllMirror(readers: seq<Replay>, views: seq<View>, first: seq<View>)
    reads readers, StoredRows(readers)
  {
    && |readers| == |views| == |first|
    && forall i :: 0 <= i < |readers| ==> Mirrors(readers[i], views[i]) && views[i].rows == first[i].rows
  }

  /** Any number of readers, of the same or different results, advancing and closing, while anybody writes
      into any slice any of them was ever handed, current or kept from before, in any order: every read sees
      the stored row it would have seen alone, and no stored row changes. */
  method Interleave(readers: seq<Replay>, ghost views: seq<View>, acts: seq<Act>) returns (seen: seq<Option<Row>>)
    requires Apart(readers, []) && AllMirror(readers, views, views)
    requires forall i :: 0 <= i < |acts| ==> OfSome(acts[i], |readers|)
    modifies readers, Buffers(readers)
    ensures Apart(readers, [])
    ensures forall i :: 0 <= i < |readers| ==> Holds(readers[i].entry.rows, views[i].rows)
    ensures seen == Seen(views, acts)
  {
    hide StepView, Seen;
    seen := [];
    var handed: seq<Cells> := [];
    ghost var current := views;
    for k := 0 to |acts|
      invariant Apart(readers, handed) && AllMirror(readers, current, views)
      invariant forall r :: r in readers ==> r.cells in old(Buffers(readers)) || fresh(r.cells)
      invariant forall b :: b in handed ==> b as object in old(Buffers(readers)) || fresh(b)
      invariant seen + Seen(current, acts[k..]) == Seen(views, acts)
    {
      SeenAdvances(current, acts, k, seen);
      var saw;
      saw, handed := Act1(readers, current, views, handed, acts[k]);
      seen, current := seen + saw, StepView(current, acts[k]).0;
    }
    SeenNothing(current);
  }

  lemma SeenNothing(views: seq<View>)
    ensures Seen(views, []) == []
  {
  }

  /** One act. */
  method Act1(readers: seq<Replay>, ghost views: seq<View>, ghost first: seq<View>, handed: seq<Cells>, act: Act)
    returns (saw: seq<Option<Row>>, handed': seq<Cells>)
    requires Apart(readers, handed) && OfSome(act, |readers|) && AllMirror(readers, views, first)
    modifies readers, Buffers(readers), set b | b in handed :: b as object
    ensures Apart(readers, handed')
    ensures forall r :: r in readers ==> r.cells == old(r.cells) || fresh(r.cells)
    ensures forall b :: b in handed' ==> b in handed || b as object in Buffers(readers)
    ensures saw == StepView(views, act).1
    ensures AllMirror(readers, StepView(views, act).0, first)
  {
    saw, handed' := [], handed;
    match act
    case Advance(reader) =>
      var row := AdvanceOne(readers, views, first, handed, reader);
      handed', saw := handed + [readers[reader].cells], [row];
      assert readers[reader] in readers;
    case Scribble(slice, at, cell) =>
      ScribbleOne(readers, views, first, handed, slice, at, cell);
    case Leave(reader) =>
      LeaveOne(readers, views, first, handed, reader);
  }

  method LeaveOne(readers: seq<Replay>, ghost views: seq<View>, ghost first: seq<View>, ghost handed: seq<Cells>,
                  reader: nat)
    requires Apart(readers, handed) && reader < |readers| && AllMirror(readers, views, first)
    modifies readers[reader]
    ensures forall r :: r in readers ==> r.cells == old(r.cells)
    ensures Apart(readers, handed)
    ensures AllMirror(readers, StepView(views, Leave(reader)).0, first)
  {
    assert Mirrors(readers[reader], views[reader]);
    readers[reader].Close();
  }

  method AdvanceOne(readers: seq<Replay>, ghost views: seq<View>, ghost first: seq<View>, ghost handed: seq<Cells>,
                    reader: nat) returns (row: Option<Row>)
    requires Apart(readers, handed) && reader < |readers| && AllMirror(readers, views, first)
    modifies readers[reader], readers[reader].cells
    ensures Apart(readers, handed + [readers[reader].cells])
    ensures forall r :: r in readers ==> r.cells == old(r.cells) || fresh(r.cells)
    ensures StepView(views, Advance(reader)).1 == [row]
    ensures AllMirror(readers, StepView(views, Advance(reader)).0, first)
  {
    assert Mirrors(readers[reader], views[reader]);
    var more := readers[reader].Next();
    row := if more then Some(readers[reader].Current()) else None;
  }

  method ScribbleOne(readers: seq<Replay>, ghost views: seq<View>, ghost first: seq<View>, handed: seq<Cells>,
                     slice: nat, at: nat, cell: Cell)
    requires Apart(readers, handed) && AllMirror(readers, views, first)
    modifies set b | b in handed :: b as object
    ensures forall r :: r in readers ==> r.cells == old(r.cells)
    ensures Apart(readers, handed) && AllMirror(readers, views, first)
  {
    if slice < |handed| {
      var b := handed[slice];
      assert b in handed;
      if at < b.Length {
        b[at] := cell;
      }
    }
  }

  /** The copy a tee keeps of each row outlives the driver's buffer: every row arrives in the same
      array, and what is kept at the end is each row as it arrived. */
  method TeeFromReusedBuffer(buffer: Cells, arriving: seq<Row>) returns (pending: seq<Cells>)
    requires forall i :: 0 <= i < |arriving| ==> |arriving[i]| == buffer.Length
    modifies buffer
    ensures Holds(pending, arriving)
    ensures forall i :: 0 <= i < |pending| ==> fresh(pending[i])
  {
    pending := [];
    for k := 0 to |arriving|
      invariant |pending| == k
      invariant forall i :: 0 <= i < k ==> fresh(pending[i]) && pending[i] != buffer && pending[i][..] == arriving[i]
    {
      forall i | 0 <= i < buffer.Length {
        buffer[i] := arriving[k][i];
      }
      var clone := new Cell[buffer.Length];
      forall i | 0 <= i < buffer.Length {
        clone[i] := buffer[i];
      }
      assert clone[..] == arriving[k];
      pending := pending + [clone];
    }
  }
}
