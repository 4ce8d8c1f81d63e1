/** Values every component shares: optional answers, and what a connector delivers. */
module Common {

  datatype Option<+T> = None | Some(value: T)

  datatype Result<+T, +E> = Ok(value: T) | Err(error: E)

  /** One decoded cell, told apart as finely as the size estimate needs. */
  datatype Cell =
    | Nil
    | Text(text: string)
    | Bytes(raw: string)
    | Instant(nanos: int)
    | Flag(on: bool)
    | Number(digits: int)

  type Row = seq<Cell>

  datatype Column = Column(name: string, kind: string, sourceType: string, nullable: bool)

  function Min(a: int, b: int): int {
    if a < b then a else b
  }

  /** Text before the first c, and after it when there is one. */
  function Cut(s: string, c: char): (string, Option<string>) {
    if s == [] then ([], None)
    else if s[0] == c then ([], Some(s[1..]))
    else
      var (before, after) := Cut(s[1..], c);
      ([s[0]] + before, after)
  }

  lemma {:induction false} CutAt(before: string, c: char, after: string)
    requires c !in before
    ensures Cut(before + [c] + after, c) == (before, Some(after))
    ensures Cut(before, c) == (before, None)
  {
    var s := before + [c] + after;
    if before == [] {
      assert s[1..] == after;
    } else {
      assert s[1..] == before[1..] + [c] + after;
      CutAt(before[1..], c, after);
      assert before == [before[0]] + before[1..];
    }
  }

  /** Cutting takes nothing away but the first c. */
  lemma {:induction false} CutWhole(s: string, c: char)
    ensures var (before, after) := Cut(s, c);
            c !in before && s == before + (if after.Some? then [c] + after.value else [])
  {
    if s != [] && s[0] != c {
      CutWhole(s[1..], c);
      assert s == [s[0]] + s[1..];
    }
  }
}
