/** CSV and TSV export, against a reader of section 2 of RFC 4180 with one convention of its own: an
    unquoted empty field is NULL, a quoted empty field is the empty string. */
module Delimited {
  import opened Common
  import opened ByteStrings

  const QUOTE: byte := 34
  const CR: byte := 13
  const LF: byte := 10
  const CRLF: Bytes := [CR, LF]

  /** A delimiter the format can be written with: a comma or a tab, say. */
  predicate Separates(d: byte) {
    d != QUOTE && d != CR && d != LF
  }

  // The writer.

  predicate NeedsQuoting(value: Bytes, d: byte) {
    value == [] || d in value || QUOTE in value || CR in value || LF in value
  }

  /** Every quote doubled. */
  function Doubled(value: Bytes): Bytes {
    if value == [] then []
    else if value[0] == QUOTE then [QUOTE, QUOTE] + Doubled(value[1..])
    else [value[0]] + Doubled(value[1..])
  }

  function Field(value: Bytes, d: byte): Bytes {
    if NeedsQuoting(value, d) then [QUOTE] + Doubled(value) + [QUOTE] else value
  }

  function Cell(cell: Option<Bytes>, d: byte): Bytes {
    match cell
    case None => []
    case Some(value) => Field(value, d)
  }

  /** The cells, separated. */
  function Line(cells: seq<Option<Bytes>>, d: byte): Bytes {
    if cells == [] then []
    else if |cells| == 1 then Cell(cells[0], d) else Cell(cells[0], d) + [d] + Line(cells[1..], d)
  }

  function Document(table: seq<seq<Option<Bytes>>>, d: byte): Bytes {
    if table == [] then [] else Line(table[0], d) + CRLF + Document(table[1..], d)
  }

  /** A row as wide as the header: what is missing is NULL, what is beyond is not written. */
  function Padded(row: seq<Option<Bytes>>, width: nat): (out: seq<Option<Bytes>>)
    ensures |out| == width
  {
    seq(width, i requires 0 <= i < width => if i < |row| then row[i] else None)
  }

  function PaddedAll(rows: seq<seq<Option<Bytes>>>, width: nat): (out: seq<seq<Option<Bytes>>>)
    ensures |out| == |rows| && forall i :: 0 <= i < |out| ==> |out[i]| == width
  {
    if rows == [] then [] else [Padded(rows[0], width)] + PaddedAll(rows[1..], width)
  }

  /** A header is a value, never a NULL. */
  function Header(names: seq<Bytes>): (out: seq<Option<Bytes>>)
    ensures |out| == |names|
  {
    seq(|names|, i requires 0 <= i < |names| => Some(names[i]))
  }

  class Buffer {
    var bytes: Bytes

    constructor ()
      ensures bytes == []
    {
      bytes := [];
    }

    method Write(more: Bytes)
      modifies this
      ensures bytes == old(bytes) + more
    {
      bytes := bytes + more;
    }

    method WriteField(value: Bytes, d: byte)
      modifies this
      ensures bytes == old(bytes) + Field(value, d)
    {
      hide Doubled;
      if !NeedsQuoting(value, d) {
        Write(value);
        return;
      }
      Write([QUOTE]);
      var rest := value;
      ghost var start := bytes;
      while QUOTE in rest
        invariant bytes + Doubled(rest) == start + Doubled(value)
        decreases |rest|
      {
        var at := IndexQuote(rest);
        DoubledAt(rest, at);
        ghost var before := bytes;
        Write(rest[..at]);
        Write([QUOTE, QUOTE]);
        assert bytes + Doubled(rest[at + 1..]) == before + Doubled(rest);
        rest := rest[at + 1..];
      }
      DoubledPlain(rest);
      Write(rest);
      assert bytes == start + Doubled(value);
      Write([QUOTE]);
    }

    /** One record: the cells the header has room for, separated. */
    method WriteRow(row: seq<Option<Bytes>>, width: nat, d: byte)
      modifies this
      ensures bytes == old(bytes) + Line(Padded(row, width), d) + CRLF
    {
      assert Line([], d) == [];
      hide Line, Field;
      ghost var cells := Padded(row, width);
      ghost var start := bytes;
      for i := 0 to width
        invariant bytes == start + Line(cells[..i], d)
      {
        if i > 0 {
          Write([d]);
        }
        var cell := if i < |row| then row[i] else None;
        if cell.Some? {
          WriteField(cell.value, d);
        }
        assert cells[..i + 1] == cells[..i] + [cells[i]];
        if i > 0 {
          LineAppend(cells[..i], cells[i], d);
        } else {
          LineOne(cells[0], d);
          assert cells[..1] == [cells[0]];
        }
      }
      assert cells[..width] == cells;
      Write(CRLF);
    }
  }

  method IndexQuote(value: Bytes) returns (at: nat)
    requires QUOTE in value
    ensures at < |value| && value[at] == QUOTE && QUOTE !in value[..at]
  {
    at := 0;
    while value[at] != QUOTE
      invariant at < |value| && QUOTE !in value[..at] && QUOTE in value[at..]
      decreases |value| - at
    {
      at := at + 1;
    }
  }

  /** The whole document: the header, then every row the source delivers, as wide as the header. */
  method WriteDelimited(names: seq<Bytes>, rows: seq<seq<Option<Bytes>>>, d: byte) returns (out: Bytes, written: nat)
    ensures out == Document([Header(names)] + PaddedAll(rows, |names|), d)
    ensures Separates(d) ==> (FileHolds(ReadFile(out, d), names, rows) <==> names != [])
    ensures written == |rows|
  {
    hide Document, Line, Padded, PaddedAll, Header, FileHolds, ReadFile;
    var buffer := new Buffer();
    HeaderIsPadded(names);
    buffer.WriteRow(Header(names), |names|, d);
    ghost var table := [Header(names)] + PaddedAll(rows, |names|);
    assert table[..1] == [Header(names)];
    DocumentOne(Header(names), d);
    written := 0;
    while written < |rows|
      invariant written <= |rows|
      invariant fresh(buffer) && buffer.bytes == Document(table[..written + 1], d)
    {
      PaddedAt(rows, |names|, written);
      buffer.WriteRow(rows[written], |names|, d);
      assert table[..written + 2] == table[..written + 1] + [Padded(rows[written], |names|)];
      DocumentAppend(table[..written + 1], Padded(rows[written], |names|), d);
      written := written + 1;
    }
    assert table[..|rows| + 1] == table;
    out := buffer.bytes;
    if Separates(d) {
      ExportReadsBack(names, rows, d);
    }
  }

  lemma HeaderIsPadded(names: seq<Bytes>)
    ensures Padded(Header(names), |names|) == Header(names)
  {
  }

  lemma {:induction false} PaddedAt(rows: seq<seq<Option<Bytes>>>, width: nat, k: nat)
    requires k < |rows|
    ensures PaddedAll(rows, width)[k] == Padded(rows[k], width)
  {
    if k > 0 { PaddedAt(rows[1..], width, k - 1); }
  }

  lemma {:induction false} DoubledPlain(value: Bytes)
    requires QUOTE !in value
    ensures Doubled(value) == value
  {
    if value != [] { DoubledPlain(value[1..]); }
  }

  lemma {:induction false} DoubledGrows(value: Bytes)
    ensures |Doubled(value)| >= |value|
  {
    if value != [] { DoubledGrows(value[1..]); }
  }

  /** A value is written as it is exactly when it is not empty and holds nothing that could end it. */
  lemma BareExactlyWhen(value: Bytes, d: byte)
    ensures Field(value, d) == value <==> value != [] && forall b :: b in value ==> TextData(b, d)
  {
    DoubledGrows(value);
  }

  lemma {:induction false} DoubledAt(value: Bytes, at: nat)
    requires at < |value| && value[at] == QUOTE && QUOTE !in value[..at]
    ensures Doubled(value) == value[..at] + [QUOTE, QUOTE] + Doubled(value[at + 1..])
  {
    if at > 0 {
      assert value[0] in value[..at];
      assert value[1..][..at - 1] == value[..at][1..];
      DoubledAt(value[1..], at - 1);
      assert value[1..][at..] == value[at + 1..];
      assert value[..at] == [value[0]] + value[1..][..at - 1];
    }
  }

  lemma {:induction false} LineAppend(cells: seq<Option<Bytes>>, cell: Option<Bytes>, d: byte)
    requires cells != []
    ensures Line(cells + [cell], d) == Line(cells, d) + [d] + Cell(cell, d)
  {
    hide Cell;
    var longer := cells + [cell];
    assert longer[1..] == cells[1..] + [cell] && longer[0] == cells[0];
    if |cells| > 1 {
      LineAppend(cells[1..], cell, d);
    } else {
      assert longer[1..] == [cell];
    }
  }

  lemma LineOne(cell: Option<Bytes>, d: byte)
    ensures Line([cell], d) == Cell(cell, d)
  {
  }

  lemma DocumentOne(row: seq<Option<Bytes>>, d: byte)
    ensures Document([row], d) == Line(row, d) + CRLF
  {
    assert [row][1..] == [];
  }

  lemma {:induction false} DocumentAppend(table: seq<seq<Option<Bytes>>>, row: seq<Option<Bytes>>, d: byte)
    ensures Document(table + [row], d) == Document(table, d) + Line(row, d) + CRLF
  {
    if table == [] {
      DocumentOne(row, d);
      assert table + [row] == [row];
    } else {
      DocumentAppend(table[1..], row, d);
      assert (table + [row])[1..] == table[1..] + [row];
    }
  }

  // The reader.

  predicate TextData(b: byte, d: byte) {
    b != d && b != QUOTE && b != CR && b != LF
  }

  /** The longest run of plain text. */
  function PlainRun(s: Bytes, d: byte): (n: nat)
    ensures n <= |s|
  {
    if s == [] || !TextData(s[0], d) then 0 else 1 + PlainRun(s[1..], d)
  }

  /** The inside of a quoted field, up to its closing quote; and what follows it. */
  function ReadQuoted(s: Bytes): (r: Option<(Bytes, Bytes)>)
    ensures r.Some? ==> |r.value.1| < |s|
  {
    if s == [] then None
    else if s[0] != QUOTE then
      match ReadQuoted(s[1..])
      case None => None
      case Some((value, rest)) => Some(([s[0]] + value, rest))
    else if |s| > 1 && s[1] == QUOTE then
      match ReadQuoted(s[2..])
      case None => None
      case Some((value, rest)) => Some(([QUOTE] + value, rest))
    else Some(([], s[1..]))
  }

  function ReadField(s: Bytes, d: byte): (r: Option<(Option<Bytes>, Bytes)>)
    ensures r.Some? ==> |r.value.1| <= |s|
  {
    if s != [] && s[0] == QUOTE then
      match ReadQuoted(s[1..])
      case None => None
      case Some((value, rest)) => Some((Some(value), rest))
    else
      var n := PlainRun(s, d);
      Some((if n == 0 then None else Some(s[..n]), s[n..]))
  }

  /** One record, through its line break or the end of the file. */
  function ReadRecord(s: Bytes, d: byte): (r: Option<(seq<Option<Bytes>>, Bytes)>)
    ensures r.Some? ==> |r.value.1| <= |s| && (s != [] ==> |r.value.1| < |s|)
    decreases |s|
  {
    match ReadField(s, d)
    case None => None
    case Some((cell, rest)) =>
      if rest == [] then Some(([cell], []))
      else if rest[0] == d then
        (match ReadRecord(rest[1..], d)
         case None => None
         case Some((cells, after)) => Some(([cell] + cells, after)))
      else if |rest| > 1 && rest[..2] == CRLF then Some(([cell], rest[2..]))
      else None
  }

  function ReadFile(s: Bytes, d: byte): Option<seq<seq<Option<Bytes>>>>
    decreases |s|
  {
    if s == [] then Some([])
    else
      match ReadRecord(s, d)
      case None => None
      case Some((record, rest)) =>
        match ReadFile(rest, d)
        case None => None
        case Some(records) => Some([record] + records)
  }

  // The round trip.

  lemma {:induction false} ReadDoubled(value: Bytes, rest: Bytes)
    requires rest == [] || rest[0] != QUOTE
    ensures ReadQuoted(Doubled(value) + [QUOTE] + rest) == Some((value, rest))
  {
    var s := Doubled(value) + [QUOTE] + rest;
    if value == [] {
      assert s[1..] == rest;
    } else {
      ReadDoubled(value[1..], rest);
      var tail := Doubled(value[1..]) + [QUOTE] + rest;
      if value[0] == QUOTE {
        assert s[2..] == tail;
      } else {
        assert s[1..] == tail;
      }
      assert [value[0]] + value[1..] == value;
    }
  }

  lemma {:induction false} ReadPlain(value: Bytes, rest: Bytes, d: byte)
    requires forall i :: 0 <= i < |value| ==> TextData(value[i], d)
    requires rest != [] ==> !TextData(rest[0], d)
    ensures PlainRun(value + rest, d) == |value|
  {
    if value == [] {
      assert value + rest == rest;
    } else {
      assert (value + rest)[1..] == value[1..] + rest;
      ReadPlain(value[1..], rest, d);
    }
  }

  lemma ReadUnquoted(value: Bytes, rest: Bytes, d: byte)
    requires forall i :: 0 <= i < |value| ==> TextData(value[i], d)
    requires rest != [] && !TextData(rest[0], d) && rest[0] != QUOTE
    ensures ReadField(value + rest, d) == Some((if value == [] then None else Some(value), rest))
  {
    var s := value + rest;
    ReadPlain(value, rest, d);
    assert s[..|value|] == value && s[|value|..] == rest;
  }

  lemma ReadQuotedField(value: Bytes, rest: Bytes, d: byte)
    requires rest == [] || rest[0] != QUOTE
    ensures ReadField([QUOTE] + Doubled(value) + [QUOTE] + rest, d) == Some((Some(value), rest))
  {
    var s := [QUOTE] + Doubled(value) + [QUOTE] + rest;
    ReadDoubled(value, rest);
    assert s[1..] == Doubled(value) + [QUOTE] + rest;
  }

  lemma ReadCell(cell: Option<Bytes>, rest: Bytes, d: byte)
    requires Separates(d)
    requires rest != [] && (rest[0] == d || rest[0] == CR)
    ensures ReadField(Cell(cell, d) + rest, d) == Some((cell, rest))
  {
    if cell.None? {
      ReadUnquoted([], rest, d);
    } else if NeedsQuoting(cell.value, d) {
      ReadQuotedField(cell.value, rest, d);
    } else {
      ReadUnquoted(cell.value, rest, d);
    }
  }

  lemma ReadLastCell(cell: Option<Bytes>, rest: Bytes, d: byte)
    requires Separates(d)
    ensures ReadRecord(Cell(cell, d) + (CRLF + rest), d) == Some(([cell], rest))
  {
    hide Cell, ReadField;
    ReadCell(cell, CRLF + rest, d);
    assert (CRLF + rest)[..2] == CRLF && (CRLF + rest)[2..] == rest;
  }

  lemma ReadMore(cell: Option<Bytes>, tail: Bytes, cells: seq<Option<Bytes>>, rest: Bytes, d: byte)
    requires Separates(d) && ReadRecord(tail, d) == Some((cells, rest))
    ensures ReadRecord(Cell(cell, d) + ([d] + tail), d) == Some(([cell] + cells, rest))
  {
    hide Cell, ReadField;
    ReadCell(cell, [d] + tail, d);
    assert ([d] + tail)[1..] == tail;
  }

  lemma {:induction false} ReadLine(cells: seq<Option<Bytes>>, rest: Bytes, d: byte)
    requires Separates(d) && cells != []
    ensures ReadRecord(Line(cells, d) + CRLF + rest, d) == Some((cells, rest))
    decreases |cells|
  {
    hide Cell, ReadField, ReadRecord;
    var s := Line(cells, d) + CRLF + rest;
    if |cells| == 1 {
      ReadLastCell(cells[0], rest, d);
      assert s == Cell(cells[0], d) + (CRLF + rest) && [cells[0]] == cells;
    } else {
      var tail := Line(cells[1..], d) + CRLF + rest;
      assert s == Cell(cells[0], d) + ([d] + tail);
      ReadLine(cells[1..], rest, d);
      ReadMore(cells[0], tail, cells[1..], rest, d);
      assert [cells[0]] + cells[1..] == cells;
    }
  }

  /** A line of no cells cannot be told from a line of one NULL. */
  function Legible(row: seq<Option<Bytes>>): seq<Option<Bytes>> {
    if row == [] then [None] else row
  }

  function LegibleAll(table: seq<seq<Option<Bytes>>>): seq<seq<Option<Bytes>>> {
    if table == [] then [] else [Legible(table[0])] + LegibleAll(table[1..])
  }

  lemma {:induction false} LegibleIsItself(table: seq<seq<Option<Bytes>>>)
    ensures LegibleAll(table) == table <==> forall i :: 0 <= i < |table| ==> table[i] != []
  {
    if table != [] {
      LegibleIsItself(table[1..]);
      assert table == [table[0]] + table[1..];
      assert LegibleAll(table)[1..] == LegibleAll(table[1..]);
      if LegibleAll(table[1..]) != table[1..] {
        var i :| 0 <= i < |table[1..]| && table[1..][i] == [];
        assert table[i + 1] == [];
      }
    }
  }

  /** Reading any written document gives back the table that was written, but for its empty rows. */
  lemma {:induction false} ReadDocument(table: seq<seq<Option<Bytes>>>, d: byte)
    requires Separates(d)
    ensures ReadFile(Document(table, d), d) == Some(LegibleAll(table))
    decreases |table|
  {
    if table != [] {
      var tail := Document(table[1..], d);
      assert Line(Legible(table[0]), d) == Line(table[0], d);
      ReadLine(Legible(table[0]), tail, d);
      ReadDocument(table[1..], d);
    }
  }

  /** So it is the table itself exactly when no row is empty. */
  lemma TableReadsBackExactlyWhen(table: seq<seq<Option<Bytes>>>, d: byte)
    requires Separates(d)
    ensures ReadFile(Document(table, d), d) == Some(table) <==> forall i :: 0 <= i < |table| ==> table[i] != []
  {
    ReadDocument(table, d);
    LegibleIsItself(table);
  }

  /** What was read is the header and then every row: as many cells as there are columns, each the cell that was
      in its place, and NULL where the row had none. */
  ghost predicate FileHolds(read: Option<seq<seq<Option<Bytes>>>>, names: seq<Bytes>, rows: seq<seq<Option<Bytes>>>) {
    && read.Some? && |read.value| == |rows| + 1
    && |read.value[0]| == |names| && (forall i :: 0 <= i < |names| ==> read.value[0][i] == Some(names[i]))
    && forall r :: 0 <= r < |rows| ==> RowHolds(read.value[r + 1], rows[r], |names|)
  }

  ghost predicate RowHolds(read: seq<Option<Bytes>>, row: seq<Option<Bytes>>, width: nat) {
    |read| == width && forall i :: 0 <= i < width ==> read[i] == if i < |row| then row[i] else None
  }

  /** The exported file reads back as the header and the rows, exactly when there is a column: whatever
      bytes the values hold, NULL stays NULL and the empty string stays the empty string, and a short row
      comes back padded. */
  lemma ExportReadsBack(names: seq<Bytes>, rows: seq<seq<Option<Bytes>>>, d: byte)
    requires Separates(d)
    ensures var table := [Header(names)] + PaddedAll(rows, |names|);
            FileHolds(ReadFile(Document(table, d), d), names, rows) <==> names != []
  {
    var table := [Header(names)] + PaddedAll(rows, |names|);
    ReadDocument(table, d);
    if names == [] {
      assert LegibleAll(table)[0] == [None];
    } else {
      LegibleIsItself(table);
      forall r | 0 <= r < |rows| ensures RowHolds(table[r + 1], rows[r], |names|) {
        PaddedAt(rows, |names|, r);
      }
    }
    hide ReadFile, Document;
  }

  /** Two tables are written as the same bytes exactly when they are the same but for an empty row standing
      against one of one NULL. */
  lemma SameFileExactlyWhen(a: seq<seq<Option<Bytes>>>, b: seq<seq<Option<Bytes>>>, d: byte)
    requires Separates(d)
    ensures Document(a, d) == Document(b, d) <==> LegibleAll(a) == LegibleAll(b)
  {
    ReadDocument(a, d);
    ReadDocument(b, d);
    LegibleIsWritten(a, d);
    LegibleIsWritten(b, d);
  }

  lemma {:induction false} LegibleIsWritten(table: seq<seq<Option<Bytes>>>, d: byte)
    ensures Document(LegibleAll(table), d) == Document(table, d)
  {
    if table != [] {
      LegibleIsWritten(table[1..], d);
      assert Line(Legible(table[0]), d) == Line(table[0], d);
      assert LegibleAll(table)[1..] == LegibleAll(table[1..]);
    }
  }

  /** So tables without empty rows that differ anywhere, were it only a NULL against an empty string, are
      never written as the same bytes. */
  lemma DifferentTablesDifferentFiles(a: seq<seq<Option<Bytes>>>, b: seq<seq<Option<Bytes>>>, d: byte)
    requires Separates(d) && Document(a, d) == Document(b, d)
    requires forall i :: 0 <= i < |a| ==> a[i] != []
    requires forall i :: 0 <= i < |b| ==> b[i] != []
    ensures a == b
  {
    TableReadsBackExactlyWhen(a, d);
    TableReadsBackExactlyWhen(b, d);
  }
}
