/** JSON export: the document writer, and what a reader of RFC 8259 makes of what it writes. */
module JsonExport {
  import opened Common
  import opened ByteStrings
  import opened JsonStrings
  import opened JsonGrammar

  /** A cell once its kind and its Go type have decided how it is written. `Spelled` is a number the
      standard library renders; `NotFinite` is a NaN or an infinity; `Embedded` is a JSON column. */
  datatype Cell =
    | Missing
    | Logical(on: bool)
    | Spelled(spelling: Bytes)
    | NotFinite
    | Textual(text: Bytes)
    | Embedded(raw: Bytes)

  /** The validity check a JSON column's document is put through before it is written as it is. All it
      is relied on for is that what it accepts is a document. */
  ghost predicate Checks(valid: Bytes -> bool) {
    forall raw :: valid(raw) ==> ReadDocument(raw).Some?
  }

  ghost predicate WellSpelled(cell: Cell) {
    cell.Spelled? ==> NumberLen(cell.spelling) == Some(|cell.spelling|)
  }

  // The writer.

  function Written(cell: Cell, valid: Bytes -> bool): Bytes {
    match cell
    case Missing => NULL_LITERAL
    case NotFinite => NULL_LITERAL
    case Logical(on) => if on then TRUE_LITERAL else FALSE_LITERAL
    case Spelled(spelling) => spelling
    case Textual(text) => Quoted(text)
    case Embedded(raw) => if valid(raw) then raw else Quoted(raw)
  }

  /** A row as wide as the columns: what is missing is null, what is beyond is not written. */
  function Widened(row: seq<Cell>, width: nat): (out: seq<Cell>)
    ensures |out| == width
  {
    seq(width, i requires 0 <= i < width => if i < |row| then row[i] else Missing)
  }

  function MemberText(name: Bytes, cell: Cell, valid: Bytes -> bool): Bytes {
    Quoted(name) + [COLON] + Written(cell, valid)
  }

  /** Texts with commas between them. */
  function Join(parts: seq<Bytes>): Bytes {
    if parts == [] then []
    else if |parts| == 1 then parts[0]
    else parts[0] + [COMMA] + Join(parts[1..])
  }

  function MemberTexts(names: seq<Bytes>, cells: seq<Cell>, valid: Bytes -> bool): (out: seq<Bytes>)
    requires |names| == |cells|
    ensures |out| == |names|
  {
    seq(|names|, i requires 0 <= i < |names| => MemberText(names[i], cells[i], valid))
  }

  const ROW_OPEN: Bytes := [0x0A, 0x20, 0x20, OPEN_BRACE]

  function RowText(names: seq<Bytes>, row: seq<Cell>, valid: Bytes -> bool): Bytes {
    ROW_OPEN + Join(MemberTexts(names, Widened(row, |names|), valid)) + [CLOSE_BRACE]
  }

  function RowTexts(names: seq<Bytes>, rows: seq<seq<Cell>>, valid: Bytes -> bool): (out: seq<Bytes>)
    ensures |out| == |rows|
  {
    seq(|rows|, i requires 0 <= i < |rows| => RowText(names, rows[i], valid))
  }

  const TRAILER: Bytes := [0x0A, CLOSE_BRACKET, 0x0A]

  function DocumentText(names: seq<Bytes>, rows: seq<seq<Cell>>, valid: Bytes -> bool): Bytes {
    [OPEN_BRACKET] + Join(RowTexts(names, rows, valid)) + TRAILER
  }

  /** What a loop that writes a comma before every text but the first has written. */
  lemma {:induction false} JoinAppend(parts: seq<Bytes>, part: Bytes)
    ensures Join(parts + [part]) == Join(parts) + (if parts == [] then [] else [COMMA]) + part
    decreases |parts|
  {
    if |parts| > 1 {
      JoinAppend(parts[1..], part);
      assert (parts + [part])[1..] == parts[1..] + [part];
    } else if |parts| == 1 {
      assert (parts + [part])[1..] == [part];
    }
  }

  lemma JoinNothing()
    ensures Join([]) == []
  {
  }

  lemma {:induction false} JoinEncoding(parts: seq<Bytes>)
    ensures ValidUtf8(Join(parts)) <==> forall i :: 0 <= i < |parts| ==> ValidUtf8(parts[i])
    decreases |parts|
  {
    if |parts| > 1 {
      JoinEncoding(parts[1..]);
      ValidAround(parts[0], COMMA, Join(parts[1..]));
      assert forall i :: 1 <= i < |parts| ==> parts[i] == parts[1..][i - 1];
    }
  }

  method AppendValue(cell: Cell, valid: Bytes -> bool) returns (out: Bytes)
    ensures out == Written(cell, valid)
  {
    match cell
    case Missing => out := NULL_LITERAL;
    case NotFinite => out := NULL_LITERAL;
    case Logical(on) => out := if on then TRUE_LITERAL else FALSE_LITERAL;
    case Spelled(spelling) => out := spelling;
    case Textual(text) => out := AppendJsonString([], text);
    case Embedded(raw) =>
      if valid(raw) {
        out := raw;
      } else {
        out := AppendJsonString([], raw);
      }
  }

  method WriteObject(names: seq<Bytes>, quoted: seq<Bytes>, row: seq<Cell>, valid: Bytes -> bool) returns (out: Bytes)
    requires |quoted| == |names| && forall i :: 0 <= i < |names| ==> quoted[i] == Quoted(names[i])
    ensures out == RowText(names, row, valid)
  {
    hide Join, Quoted, Written;
    JoinNothing();
    ghost var texts := MemberTexts(names, Widened(row, |names|), valid);
    var members: Bytes := [];
    for i := 0 to |names|
      invariant members == Join(texts[..i])
    {
      var value := AppendValue(if i < |row| then row[i] else Missing, valid);
      JoinAppend(texts[..i], texts[i]);
      assert texts[..i + 1] == texts[..i] + [texts[i]];
      assert texts[i] == quoted[i] + [COLON] + value;
      if i > 0 {
        members := members + [COMMA];
      }
      members := members + (quoted[i] + [COLON] + value);
    }
    assert texts[..|names|] == texts;
    out := ROW_OPEN + members + [CLOSE_BRACE];
  }

  /** The whole document, a row at a time; names are escaped once. */
  method WriteJson(names: seq<Bytes>, rows: seq<seq<Cell>>, valid: Bytes -> bool) returns (out: Bytes, written: nat)
    ensures out == DocumentText(names, rows, valid) && written == |rows|
    ensures Checks(valid) && AllWellSpelled(rows) ==>
              ReadDocument(out).Some? && TableReads(ReadDocument(out).value, names, rows, valid)
  {
    hide RowText, Join, Quoted, ReadDocument, TableReads, AllWellSpelled;
    JoinNothing();
    var quoted: seq<Bytes> := [];
    for i := 0 to |names|
      invariant |quoted| == i && forall j :: 0 <= j < i ==> quoted[j] == Quoted(names[j])
    {
      var name := AppendJsonString([], names[i]);
      quoted := quoted + [name];
    }
    ghost var texts := RowTexts(names, rows, valid);
    var body: Bytes := [];
    written := 0;
    while written < |rows|
      invariant written <= |rows| && body == Join(texts[..written])
    {
      var text := WriteObject(names, quoted, rows[written], valid);
      JoinAppend(texts[..written], texts[written]);
      assert texts[..written + 1] == texts[..written] + [texts[written]];
      if written > 0 {
        body := body + [COMMA];
      }
      body := body + text;
      written := written + 1;
    }
    assert texts[..|rows|] == texts;
    out := [OPEN_BRACKET] + body + TRAILER;
    if Checks(valid) && AllWellSpelled(rows) {
      DocumentParses(names, rows, valid);
    }
  }

  // What a reader makes of it.

  /** The value a cell stands for. */
  ghost function Meaning(cell: Cell, valid: Bytes -> bool): Value
    requires Checks(valid)
  {
    match cell
    case Missing => Null
    case NotFinite => Null
    case Logical(on) => Bool(on)
    case Spelled(spelling) => Num(spelling)
    case Textual(text) => Str(Sanitized(text))
    case Embedded(raw) => if valid(raw) then ReadDocument(raw).value else Str(Sanitized(raw))
  }

  ghost function MemberOf(name: Bytes, cell: Cell, valid: Bytes -> bool): (Bytes, Value)
    requires Checks(valid)
  {
    (Sanitized(name), Meaning(cell, valid))
  }

  ghost function ObjectOf(names: seq<Bytes>, cells: seq<Cell>, valid: Bytes -> bool): seq<(Bytes, Value)>
    requires Checks(valid) && |names| == |cells|
  {
    seq(|names|, i requires 0 <= i < |names| => MemberOf(names[i], cells[i], valid))
  }

  ghost function ObjectsOf(names: seq<Bytes>, rows: seq<seq<Cell>>, valid: Bytes -> bool): seq<Value>
    requires Checks(valid)
  {
    seq(|rows|, i requires 0 <= i < |rows| => Obj(ObjectOf(names, Widened(rows[i], |names|), valid)))
  }

  lemma QuotedReads(s: Bytes, t: Bytes)
    ensures ReadValue(Quoted(s) + t) == Some((Str(Sanitized(s)), t))
    ensures ReadString((Quoted(s) + t)[1..]) == Some((Sanitized(s), t))
  {
    StringRoundTrip(s, t);
    assert (Quoted(s) + t)[1..] == Escaped(s) + [QUOTE] + t;
  }

  lemma NothingToSkip(s: Bytes)
    requires s != [] && !IsSpace(s[0])
    ensures SkipSpace(s) == s
  {
  }

  lemma LiteralReads(cell: Cell, valid: Bytes -> bool, t: Bytes)
    requires Checks(valid) && (cell.Missing? || cell.NotFinite? || cell.Logical?)
    ensures ReadValue(Written(cell, valid) + t) == Some((Meaning(cell, valid), t))
    ensures Written(cell, valid) != [] && !IsSpace(Written(cell, valid)[0])
  {
    hide ReadValue;
    match cell
    case Logical(on) => NameReads(Written(cell, valid), Bool(on), t);
    case _ => NameReads(NULL_LITERAL, Null, t);
  }

  lemma NumberReads(spelling: Bytes, valid: Bytes -> bool, t: Bytes)
    requires Checks(valid) && WellSpelled(Spelled(spelling))
    requires t != [] && (t[0] == COMMA || t[0] == CLOSE_BRACE)
    ensures var s := SkipSpace(spelling + t);
            ReadValue(s).Some? && ReadValue(s).value.0 == Meaning(Spelled(spelling), valid) && ReadValue(s).value.1 == t
  {
    hide ReadValue, ReadScalar, NumberLen;
    var s := spelling + t;
    NumberExtends(spelling, t);
    NumberStart(s);
    NothingToSkip(s);
    assert s[..|spelling|] == spelling && s[|spelling|..] == t;
  }

  /** A written cell reads as what it stands for, up to the separator that follows it. */
  lemma CellReads(cell: Cell, valid: Bytes -> bool, t: Bytes)
    requires Checks(valid) && WellSpelled(cell)
    requires t != [] && (t[0] == COMMA || t[0] == CLOSE_BRACE)
    ensures var s := SkipSpace(Written(cell, valid) + t);
            && ReadValue(s).Some? && ReadValue(s).value.0 == Meaning(cell, valid)
            && SkipSpace(ReadValue(s).value.1) == t
  {
    hide ReadValue, SkipSpace, ReadDocument;
    var s := Written(cell, valid) + t;
    NothingToSkip(t);
    match cell
    case Missing => LiteralReads(cell, valid, t); NothingToSkip(s);
    case NotFinite => LiteralReads(cell, valid, t); NothingToSkip(s);
    case Logical(on) => LiteralReads(cell, valid, t); NothingToSkip(s);
    case Spelled(spelling) => NumberReads(spelling, valid, t);
    case Textual(text) => QuotedReads(text, t); NothingToSkip(s);
    case Embedded(raw) =>
      if valid(raw) {
        EmbeddedReads(raw, t);
      } else {
        QuotedReads(raw, t);
        NothingToSkip(s);
      }
  }

  lemma NameReads(name: Bytes, v: Value, t: Bytes)
    requires (name == NULL_LITERAL && v == Null) || (name == TRUE_LITERAL && v == Bool(true))
             || (name == FALSE_LITERAL && v == Bool(false))
    ensures ReadValue(name + t) == Some((v, t))
  {
    var s := name + t;
    assert s[0] == name[0] && s[|name|..] == t;
    if name == NULL_LITERAL {
      assert StartsWith(s, NULL_LITERAL);
    } else if name == TRUE_LITERAL {
      assert StartsWith(s, TRUE_LITERAL) && s[0] != NULL_LITERAL[0];
    } else {
      assert StartsWith(s, FALSE_LITERAL) && s[0] != NULL_LITERAL[0] && s[0] != TRUE_LITERAL[0];
    }
  }

  /** A document put where a value goes reads as it did on its own. */
  lemma EmbeddedReads(raw: Bytes, t: Bytes)
    requires ReadDocument(raw).Some?
    requires t != [] && !IsSpace(t[0]) && EndsNumber(t)
    ensures var s := SkipSpace(raw + t);
            && ReadValue(s).Some? && ReadValue(s).value.0 == ReadDocument(raw).value
            && SkipSpace(ReadValue(s).value.1) == t
  {
    var inner := SkipSpace(raw);
    SkipSpaceExtends(raw, t);
    ValueExtends(inner, t);
    SkipSpaceExtends(ReadValue(inner).value.1, t);
  }

  lemma MemberValueReads(cell: Cell, valid: Bytes -> bool, t: Bytes)
    requires Checks(valid) && WellSpelled(cell)
    requires t != [] && (t[0] == COMMA || t[0] == CLOSE_BRACE)
    ensures var r := ReadMemberValue([COLON] + Written(cell, valid) + t);
            r.Some? && r.value.0 == Meaning(cell, valid) && SkipSpace(r.value.1) == t
  {
    hide ReadValue, Written, Meaning;
    var value := Written(cell, valid) + t;
    var s := [COLON] + Written(cell, valid) + t;
    NothingToSkip(s);
    assert s[1..] == value;
    CellReads(cell, valid, t);
  }

  lemma MemberReads(name: Bytes, cell: Cell, valid: Bytes -> bool, t: Bytes)
    requires Checks(valid) && WellSpelled(cell)
    requires t != [] && (t[0] == COMMA || t[0] == CLOSE_BRACE)
    ensures var r := ReadMember(MemberText(name, cell, valid) + t);
            r.Some? && r.value.0 == MemberOf(name, cell, valid) && SkipSpace(r.value.1) == t
  {
    hide SkipSpace, ReadValue, Written, Meaning, ReadMemberValue, ReadString, Sanitized, Escaped, Checks, WellSpelled;
    var after := [COLON] + Written(cell, valid) + t;
    var s := MemberText(name, cell, valid) + t;
    assert s == Quoted(name) + after;
    QuotedReads(name, after);
    MemberValueReads(cell, valid, t);
  }

  lemma {:induction false} MembersRead(names: seq<Bytes>, cells: seq<Cell>, valid: Bytes -> bool, rest: Bytes)
    requires Checks(valid) && |names| == |cells| > 0
    requires forall i :: 0 <= i < |cells| ==> WellSpelled(cells[i])
    ensures ReadMembers(Join(MemberTexts(names, cells, valid)) + [CLOSE_BRACE] + rest)
         == Some((ObjectOf(names, cells, valid), rest))
    decreases |names|
  {
    hide ReadMembers, ReadMember, SkipSpace, Join, MemberTexts, MemberText, MemberOf;
    if |names| == 1 {
      LastMemberReads(names, cells, valid, rest);
    } else {
      var tail := Join(MemberTexts(names[1..], cells[1..], valid)) + [CLOSE_BRACE] + rest;
      MembersSplit(names, cells, valid, rest);
      MemberReads(names[0], cells[0], valid, [COMMA] + tail);
      MembersRead(names[1..], cells[1..], valid, rest);
      MembersStart(names[1..], cells[1..], valid);
      MembersStep(Join(MemberTexts(names, cells, valid)) + [CLOSE_BRACE] + rest, [COMMA] + tail, tail);
      assert ObjectOf(names, cells, valid) ==
             [MemberOf(names[0], cells[0], valid)] + ObjectOf(names[1..], cells[1..], valid);
    }
  }

  lemma LastMemberReads(names: seq<Bytes>, cells: seq<Cell>, valid: Bytes -> bool, rest: Bytes)
    requires Checks(valid) && |names| == |cells| == 1 && WellSpelled(cells[0])
    ensures ReadMembers(Join(MemberTexts(names, cells, valid)) + [CLOSE_BRACE] + rest)
         == Some((ObjectOf(names, cells, valid), rest))
  {
    var t := [CLOSE_BRACE] + rest;
    MemberReads(names[0], cells[0], valid, t);
    assert Join(MemberTexts(names, cells, valid)) + [CLOSE_BRACE] + rest == MemberText(names[0], cells[0], valid) + t;
    assert t[1..] == rest;
    assert ObjectOf(names, cells, valid) == [MemberOf(names[0], cells[0], valid)];
  }

  lemma MembersSplit(names: seq<Bytes>, cells: seq<Cell>, valid: Bytes -> bool, rest: Bytes)
    requires |names| == |cells| > 1
    ensures Join(MemberTexts(names, cells, valid)) + [CLOSE_BRACE] + rest
         == MemberText(names[0], cells[0], valid)
            + ([COMMA] + (Join(MemberTexts(names[1..], cells[1..], valid)) + [CLOSE_BRACE] + rest))
  {
    assert MemberTexts(names, cells, valid)[1..] == MemberTexts(names[1..], cells[1..], valid);
  }

  /** One member, a comma, and the members after it. */
  lemma MembersStep(s: Bytes, after: Bytes, tail: Bytes)
    requires ReadMember(s).Some? && SkipSpace(ReadMember(s).value.1) == after && after == [COMMA] + tail
    requires tail != [] && !IsSpace(tail[0]) && ReadMembers(tail).Some?
    ensures ReadMembers(s) == Some(([ReadMember(s).value.0] + ReadMembers(tail).value.0, ReadMembers(tail).value.1))
  {
    assert after[1..] == tail;
  }

  /** An object's members start with the quote of the first name. */
  lemma MembersStart(names: seq<Bytes>, cells: seq<Cell>, valid: Bytes -> bool)
    requires |names| == |cells| > 0
    ensures Join(MemberTexts(names, cells, valid)) != [] && Join(MemberTexts(names, cells, valid))[0] == QUOTE
  {
    assert MemberTexts(names, cells, valid)[0] == MemberText(names[0], cells[0], valid);
  }

  /** An opening brace and what follows it. */
  lemma ObjectStep(inside: Bytes)
    requires inside != [] && inside[0] == QUOTE && ReadMembers(inside).Some?
    ensures ReadValue([OPEN_BRACE] + inside) == Some((Obj(ReadMembers(inside).value.0), ReadMembers(inside).value.1))
  {
    assert ([OPEN_BRACE] + inside)[1..] == inside;
    NothingToSkip(inside);
    hide SkipSpace, ReadMembers;
  }

  lemma EmptyObject(rest: Bytes)
    ensures ReadValue([OPEN_BRACE] + ([CLOSE_BRACE] + rest)) == Some((Obj([]), rest))
  {
    var inside := [CLOSE_BRACE] + rest;
    assert ([OPEN_BRACE] + inside)[1..] == inside && inside[1..] == rest;
    NothingToSkip(inside);
    hide SkipSpace, ReadMembers;
  }

  lemma ObjectReads(names: seq<Bytes>, cells: seq<Cell>, valid: Bytes -> bool, rest: Bytes)
    requires Checks(valid) && |names| == |cells| && forall i :: 0 <= i < |cells| ==> WellSpelled(cells[i])
    ensures ReadValue([OPEN_BRACE] + Join(MemberTexts(names, cells, valid)) + [CLOSE_BRACE] + rest)
         == Some((Obj(ObjectOf(names, cells, valid)), rest))
  {
    hide ReadValue, ReadMembers;
    if names == [] {
      NoMembers(names, cells, valid);
      EmptyObject(rest);
      assert [OPEN_BRACE] + [] + [CLOSE_BRACE] + rest == [OPEN_BRACE] + ([CLOSE_BRACE] + rest);
    } else {
      hide Join, MemberTexts, ObjectOf;
      var members := Join(MemberTexts(names, cells, valid));
      MembersStart(names, cells, valid);
      MembersRead(names, cells, valid, rest);
      ObjectStep(members + [CLOSE_BRACE] + rest);
      assert [OPEN_BRACE] + members + [CLOSE_BRACE] + rest == [OPEN_BRACE] + (members + [CLOSE_BRACE] + rest);
    }
  }

  lemma NoMembers(names: seq<Bytes>, cells: seq<Cell>, valid: Bytes -> bool)
    requires Checks(valid) && names == [] && cells == []
    ensures Join(MemberTexts(names, cells, valid)) == [] && ObjectOf(names, cells, valid) == []
  {
  }

  lemma SkipIndent(value: Bytes)
    requires value != [] && !IsSpace(value[0])
    ensures SkipSpace([0x0A, 0x20, 0x20] + value) == value
  {
    var space: Bytes := [0x0A, 0x20, 0x20];
    assert space[1..] == [0x20, 0x20] && [0x20, 0x20][1..] == [0x20] && [0x20][1..] == [];
    assert SkipSpace(space) == [];
    SkipSpaceExtends(space, value);
    NothingToSkip(value);
  }

  lemma RowReads(names: seq<Bytes>, row: seq<Cell>, valid: Bytes -> bool, rest: Bytes)
    requires Checks(valid) && forall i :: 0 <= i < |row| ==> WellSpelled(row[i])
    ensures var s := SkipSpace(RowText(names, row, valid) + rest);
            && s != [] && s[0] == OPEN_BRACE
            && ReadValue(s) == Some((Obj(ObjectOf(names, Widened(row, |names|), valid)), rest))
  {
    hide ReadValue, SkipSpace, ObjectOf, Join, MemberTexts;
    var members := Join(MemberTexts(names, Widened(row, |names|), valid));
    var value := [OPEN_BRACE] + members + [CLOSE_BRACE] + rest;
    ObjectReads(names, Widened(row, |names|), valid, rest);
    SkipIndent(value);
    Indented(members, rest);
  }

  lemma Indented(members: Bytes, rest: Bytes)
    ensures ROW_OPEN + members + [CLOSE_BRACE] + rest
         == [0x0A, 0x20, 0x20] + ([OPEN_BRACE] + members + [CLOSE_BRACE] + rest)
  {
  }

  ghost predicate AllWellSpelled(rows: seq<seq<Cell>>) {
    forall i :: 0 <= i < |rows| ==> forall j :: 0 <= j < |rows[i]| ==> WellSpelled(rows[i][j])
  }

  lemma TrailerReads()
    ensures SkipSpace(TRAILER) == [CLOSE_BRACKET, 0x0A]
            && [CLOSE_BRACKET, 0x0A][1..] == [0x0A] && SkipSpace([0x0A]) == []
  {
    assert TRAILER[1..] == [CLOSE_BRACKET, 0x0A];
    assert [0x0A][1..] == [];
  }

  lemma {:induction false} RowsRead(names: seq<Bytes>, rows: seq<seq<Cell>>, valid: Bytes -> bool)
    requires Checks(valid) && AllWellSpelled(rows) && rows != []
    ensures var s := SkipSpace(Join(RowTexts(names, rows, valid)) + TRAILER);
            && s != [] && s[0] == OPEN_BRACE
            && ReadElements(s) == Some((ObjectsOf(names, rows, valid), [0x0A]))
    decreases |rows|
  {
    hide SkipSpace, ReadValue, ReadElements, RowTexts, RowText, Join, ObjectOf;
    if |rows| == 1 {
      LastRowReads(names, rows, valid);
    } else {
      var tail := Join(RowTexts(names, rows[1..], valid)) + TRAILER;
      RowsSplit(names, rows, valid);
      RowReads(names, rows[0], valid, [COMMA] + tail);
      RowsRead(names, rows[1..], valid);
      ElementsStep(SkipSpace(Join(RowTexts(names, rows, valid)) + TRAILER), tail);
      assert ObjectsOf(names, rows, valid)
          == [Obj(ObjectOf(names, Widened(rows[0], |names|), valid))] + ObjectsOf(names, rows[1..], valid);
    }
  }

  lemma LastRowReads(names: seq<Bytes>, rows: seq<seq<Cell>>, valid: Bytes -> bool)
    requires Checks(valid) && AllWellSpelled(rows) && |rows| == 1
    ensures var s := SkipSpace(Join(RowTexts(names, rows, valid)) + TRAILER);
            && s != [] && s[0] == OPEN_BRACE
            && ReadElements(s) == Some((ObjectsOf(names, rows, valid), [0x0A]))
  {
    hide ReadValue, ObjectOf, RowText;
    TrailerReads();
    RowReads(names, rows[0], valid, TRAILER);
    assert ObjectsOf(names, rows, valid) == [Obj(ObjectOf(names, Widened(rows[0], |names|), valid))];
  }

  lemma RowsSplit(names: seq<Bytes>, rows: seq<seq<Cell>>, valid: Bytes -> bool)
    requires |rows| > 1
    ensures Join(RowTexts(names, rows, valid)) + TRAILER
         == RowText(names, rows[0], valid) + ([COMMA] + (Join(RowTexts(names, rows[1..], valid)) + TRAILER))
  {
    var texts := RowTexts(names, rows, valid);
    assert texts[0] == RowText(names, rows[0], valid) && texts[1..] == RowTexts(names, rows[1..], valid);
    JoinFirst(texts);
    Regroup(texts[0], [COMMA], Join(texts[1..]), TRAILER);
    hide RowText, RowTexts, Join;
  }

  lemma Regroup(a: Bytes, b: Bytes, c: Bytes, d: Bytes)
    ensures (a + b + c) + d == a + (b + (c + d))
  {
  }

  lemma JoinFirst(parts: seq<Bytes>)
    requires |parts| > 1
    ensures Join(parts) == parts[0] + [COMMA] + Join(parts[1..])
  {
  }

  /** One element, a comma, and the elements after it. */
  lemma ElementsStep(s: Bytes, tail: Bytes)
    requires ReadValue(s).Some? && ReadValue(s).value.1 == [COMMA] + tail
    requires ReadElements(SkipSpace(tail)).Some?
    ensures var (vs, end) := ReadElements(SkipSpace(tail)).value;
            ReadElements(s) == Some(([ReadValue(s).value.0] + vs, end))
  {
    assert ([COMMA] + tail)[1..] == tail;
  }

  lemma NoRowsParse(names: seq<Bytes>, valid: Bytes -> bool)
    requires Checks(valid)
    ensures ReadValue(DocumentText(names, [], valid)) == Some((Arr(ObjectsOf(names, [], valid)), [0x0A]))
  {
    hide ReadElements;
    var s := DocumentText(names, [], valid);
    TrailerReads();
    assert s[1..] == TRAILER;
    assert ObjectsOf(names, [], valid) == [];
  }

  lemma SomeRowsParse(names: seq<Bytes>, rows: seq<seq<Cell>>, valid: Bytes -> bool)
    requires Checks(valid) && AllWellSpelled(rows) && rows != []
    ensures ReadValue(DocumentText(names, rows, valid)) == Some((Arr(ObjectsOf(names, rows, valid)), [0x0A]))
  {
    hide ReadElements, SkipSpace, Join, RowTexts, ObjectsOf;
    var s := DocumentText(names, rows, valid);
    assert s[1..] == Join(RowTexts(names, rows, valid)) + TRAILER;
    RowsRead(names, rows, valid);
  }

  lemma DocumentIsObjects(names: seq<Bytes>, rows: seq<seq<Cell>>, valid: Bytes -> bool)
    requires Checks(valid) && AllWellSpelled(rows)
    ensures ReadDocument(DocumentText(names, rows, valid)) == Some(Arr(ObjectsOf(names, rows, valid)))
  {
    hide ReadValue, ObjectsOf, Join, RowTexts;
    var s := DocumentText(names, rows, valid);
    TrailerReads();
    NothingToSkip(s);
    if rows == [] {
      NoRowsParse(names, valid);
    } else {
      SomeRowsParse(names, rows, valid);
    }
  }

  /** One object: under the name of each column, in order, the value of the cell in its place, or null when the
      row has none there. */
  ghost predicate RowReadsAs(v: Value, names: seq<Bytes>, row: seq<Cell>, valid: Bytes -> bool)
    requires Checks(valid)
  {
    && v.Obj? && |v.members| == |names|
    && forall i :: 0 <= i < |names| ==>
         && v.members[i].0 == Sanitized(names[i])
         && v.members[i].1 == if i < |row| then Meaning(row[i], valid) else Null
  }

  /** An array of one such object per row, in order. */
  ghost predicate TableReads(v: Value, names: seq<Bytes>, rows: seq<seq<Cell>>, valid: Bytes -> bool)
    requires Checks(valid)
  {
    v.Arr? && |v.elements| == |rows| && forall r :: 0 <= r < |rows| ==> RowReadsAs(v.elements[r], names, rows[r], valid)
  }

  /** The document always parses, and cell by cell to what was exported. */
  lemma DocumentParses(names: seq<Bytes>, rows: seq<seq<Cell>>, valid: Bytes -> bool)
    requires Checks(valid) && AllWellSpelled(rows)
    ensures ReadDocument(DocumentText(names, rows, valid)).Some?
    ensures TableReads(ReadDocument(DocumentText(names, rows, valid)).value, names, rows, valid)
  {
    DocumentIsObjects(names, rows, valid);
    hide ReadDocument, DocumentText;
  }

  // Is it UTF-8?

  /** A document written through unchanged; the check that let it through does not look at its
      encoding. */
  ghost predicate WrittenThrough(cell: Cell, valid: Bytes -> bool) {
    cell.Embedded? && valid(cell.raw)
  }

  ghost predicate EncodedWell(cell: Cell, valid: Bytes -> bool) {
    WrittenThrough(cell, valid) ==> ValidUtf8(cell.raw)
  }

  lemma QuotedIsValid(s: Bytes)
    ensures ValidUtf8(Quoted(s))
  {
    EscapedIsValid(s);
    ValidAround([], QUOTE, Escaped(s) + [QUOTE]);
    assert Quoted(s) == [] + [QUOTE] + (Escaped(s) + [QUOTE]);
    ValidAround(Escaped(s), QUOTE, []);
    assert Escaped(s) + [QUOTE] == Escaped(s) + [QUOTE] + [];
  }

  lemma {:induction false} DigitsAreAscii(s: Bytes)
    ensures forall i :: 0 <= i < DigitRun(s) ==> s[i] < 0x80
  {
    if s != [] && IsDigit(s[0]) { DigitsAreAscii(s[1..]); }
  }

  lemma FracIsAscii(s: Bytes)
    requires FracLen(s).Some?
    ensures forall i :: 0 <= i < FracLen(s).value ==> s[i] < 0x80
  {
    if FracLen(s).value > 0 {
      DigitsAreAscii(s[1..]);
      assert forall i :: 0 < i < FracLen(s).value ==> s[i] == s[1..][i - 1];
    }
  }

  lemma ExpIsAscii(s: Bytes)
    requires ExpLen(s).Some?
    ensures forall i :: 0 <= i < ExpLen(s).value ==> s[i] < 0x80
  {
    if s != [] && (s[0] == 0x65 || s[0] == 0x45) {
      var sign := if |s| > 1 && (s[1] == 0x2B || s[1] == 0x2D) then 1 else 0;
      DigitsAreAscii(s[1 + sign..]);
      assert forall i :: 1 + sign <= i < ExpLen(s).value ==> s[i] == s[1 + sign..][i - 1 - sign];
    }
  }

  lemma PartsAreAscii(s: Bytes)
    requires PartsLen(s).Some?
    ensures forall i :: 0 <= i < PartsLen(s).value ==> s[i] < 0x80
  {
    var frac := FracLen(s).value;
    var tail := s[frac..];
    FracIsAscii(s);
    ExpIsAscii(tail);
    hide FracLen, ExpLen;
    assert forall i :: frac <= i < PartsLen(s).value ==> s[i] == tail[i - frac];
  }

  lemma NumbersAreAscii(s: Bytes)
    requires NumberLen(s) == Some(|s|)
    ensures forall i :: 0 <= i < |s| ==> s[i] < 0x80
  {
    if s[0] == 0x2D {
      UnsignedIsAscii(s[1..]);
      assert forall i :: 0 < i < |s| ==> s[i] == s[1..][i - 1];
    } else {
      UnsignedIsAscii(s);
    }
  }

  lemma UnsignedIsAscii(u: Bytes)
    requires UnsignedLen(u) == Some(|u|)
    ensures forall i :: 0 <= i < |u| ==> u[i] < 0x80
  {
    var whole := IntLen(u);
    DigitsAreAscii(u);
    PartsAreAscii(u[whole..]);
    hide PartsLen, DigitRun;
    assert forall i :: whole <= i < |u| ==> u[i] == u[whole..][i - whole];
  }

  lemma CellEncoding(cell: Cell, valid: Bytes -> bool)
    requires WellSpelled(cell)
    ensures ValidUtf8(Written(cell, valid)) <==> EncodedWell(cell, valid)
  {
    match cell
    case Missing => AsciiIsValid(NULL_LITERAL);
    case NotFinite => AsciiIsValid(NULL_LITERAL);
    case Logical(on) => AsciiIsValid(Written(cell, valid));
    case Spelled(spelling) =>
      NumbersAreAscii(spelling);
      AsciiIsValid(spelling);
    case Textual(text) => QuotedIsValid(text);
    case Embedded(raw) => QuotedIsValid(raw);
  }

  lemma MemberEncoding(name: Bytes, cell: Cell, valid: Bytes -> bool)
    requires WellSpelled(cell)
    ensures ValidUtf8(MemberText(name, cell, valid)) <==> EncodedWell(cell, valid)
  {
    QuotedIsValid(name);
    ValidAround(Quoted(name), COLON, Written(cell, valid));
    CellEncoding(cell, valid);
  }

  ghost predicate AllEncodedWell(cells: seq<Cell>, valid: Bytes -> bool) {
    forall i :: 0 <= i < |cells| ==> EncodedWell(cells[i], valid)
  }

  lemma MembersEncoding(names: seq<Bytes>, cells: seq<Cell>, valid: Bytes -> bool)
    requires |names| == |cells| && forall i :: 0 <= i < |cells| ==> WellSpelled(cells[i])
    ensures ValidUtf8(Join(MemberTexts(names, cells, valid))) <==> AllEncodedWell(cells, valid)
  {
    var texts := MemberTexts(names, cells, valid);
    JoinEncoding(texts);
    forall i | 0 <= i < |cells| ensures ValidUtf8(texts[i]) <==> EncodedWell(cells[i], valid) {
      MemberEncoding(names[i], cells[i], valid);
    }
  }

  lemma RowEncoding(names: seq<Bytes>, row: seq<Cell>, valid: Bytes -> bool)
    requires forall i :: 0 <= i < |row| ==> WellSpelled(row[i])
    ensures ValidUtf8(RowText(names, row, valid)) <==> AllEncodedWell(Widened(row, |names|), valid)
  {
    var cells := Widened(row, |names|);
    var members := Join(MemberTexts(names, cells, valid));
    MembersEncoding(names, cells, valid);
    AsciiIsValid(ROW_OPEN);
    ValidConcat(ROW_OPEN, members + [CLOSE_BRACE]);
    assert RowText(names, row, valid) == ROW_OPEN + (members + [CLOSE_BRACE]);
    ValidAround(members, CLOSE_BRACE, []);
    assert members + [CLOSE_BRACE] == members + [CLOSE_BRACE] + [];
  }

  ghost predicate RowsEncodedWell(names: seq<Bytes>, rows: seq<seq<Cell>>, valid: Bytes -> bool) {
    forall i :: 0 <= i < |rows| ==> AllEncodedWell(Widened(rows[i], |names|), valid)
  }

  lemma RowsEncoding(names: seq<Bytes>, rows: seq<seq<Cell>>, valid: Bytes -> bool)
    requires AllWellSpelled(rows)
    ensures ValidUtf8(Join(RowTexts(names, rows, valid))) <==> RowsEncodedWell(names, rows, valid)
  {
    var texts := RowTexts(names, rows, valid);
    JoinEncoding(texts);
    forall i | 0 <= i < |rows| ensures ValidUtf8(texts[i]) <==> AllEncodedWell(Widened(rows[i], |names|), valid) {
      RowEncoding(names, rows[i], valid);
    }
  }

  lemma ValidNothing()
    ensures ValidUtf8([])
  {
  }

  /** The document is UTF-8, as section 8.1 of RFC 8259 requires of a text exchanged between systems,
      exactly when every embedded document that is written through is. */
  lemma DocumentIsUtf8ExactlyWhen(names: seq<Bytes>, rows: seq<seq<Cell>>, valid: Bytes -> bool)
    requires AllWellSpelled(rows)
    ensures ValidUtf8(DocumentText(names, rows, valid)) <==> RowsEncodedWell(names, rows, valid)
  {
    hide Join, RowTexts, RowsEncodedWell, ValidUtf8, AllWellSpelled;
    ValidNothing();
    var body := Join(RowTexts(names, rows, valid));
    RowsEncoding(names, rows, valid);
    ValidAround([], OPEN_BRACKET, body + TRAILER);
    assert DocumentText(names, rows, valid) == [] + [OPEN_BRACKET] + (body + TRAILER);
    ValidAround(body, 0x0A, [CLOSE_BRACKET, 0x0A]);
    assert body + TRAILER == body + [0x0A] + [CLOSE_BRACKET, 0x0A];
    AsciiIsValid([CLOSE_BRACKET, 0x0A]);
  }

  /** And one that is not can be written through: a string holding a lone 0xFF is a document to a check
      of the grammar alone. */
  lemma AnIllEncodedDocumentIsWritten(valid: Bytes -> bool)
    requires valid([QUOTE, 0xFF, QUOTE])
    ensures ReadDocument([QUOTE, 0xFF, QUOTE]) == Some(Str([0xFF]))
    ensures !ValidUtf8(DocumentText([[]], [[Embedded([QUOTE, 0xFF, QUOTE])]], valid))
  {
    var raw: Bytes := [QUOTE, 0xFF, QUOTE];
    var row := [Embedded(raw)];
    assert raw[1..] == [0xFF, QUOTE] && [0xFF, QUOTE][1..] == [QUOTE] && [QUOTE][1..] == [];
    assert ReadString([QUOTE]) == Some(([], []));
    assert [0xFF as byte] + [] == [0xFF];
    assert ReadString([0xFF, QUOTE]) == Some(([0xFF], []));
    assert SkipSpace(raw) == raw;
    DocumentIsUtf8ExactlyWhen([[]], [row], valid);
    assert !ValidUtf8([0xFF, QUOTE]);
    assert !ValidUtf8(raw) by { assert RuneLen(raw) == 1; }
    var widened := Widened(row, 1);
    assert widened[0] == Embedded(raw);
    assert [row][0] == row && !EncodedWell(widened[0], valid);
    assert !AllEncodedWell(Widened([row][0], 1), valid);
  }
}
