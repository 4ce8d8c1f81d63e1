/** The length-prefixed pre-images that cache keys and policy fingerprints are hashed from.
    A Go string is a sequence of bytes; here one `char` stands for one byte. */
module LengthPrefix {
  import opened Common

  predicate IsDigit(c: char) {
    '0' <= c <= '9'
  }

  ghost predicate Digits(s: string) {
    forall i :: 0 <= i < |s| ==> IsDigit(s[i])
  }

  /** The verb %d on a natural number. */
  function Decimal(n: nat): (s: string)
    ensures |s| > 0 && Digits(s)
  {
    if n < 10 then [('0' as int + n) as char] else Decimal(n / 10) + [('0' as int + n % 10) as char]
  }

  /** The verb %d on a signed number. */
  function SignedDecimal(n: int): string {
    if n < 0 then "-" + Decimal(-n) else Decimal(n)
  }

  /** One part: a bar, the length, a colon, the bytes. */
  function Part(p: string): string {
    "|" + Decimal(|p|) + ":" + p
  }

  function Parts(ps: seq<string>): string {
    if ps == [] then "" else Part(ps[0]) + Parts(ps[1..])
  }

  // The reader: what makes the writer unambiguous.

  function Value(s: string): nat
    requires Digits(s)
  {
    if s == [] then 0 else 10 * Value(s[..|s| - 1]) + (s[|s| - 1] as int - '0' as int)
  }

  /** Length of the run of digits that starts s. */
  function DigitRun(s: string): (n: nat)
    ensures n <= |s| && Digits(s[..n])
    ensures n < |s| ==> !IsDigit(s[n])
  {
    if s == [] || !IsDigit(s[0]) then 0
    else
      var n := 1 + DigitRun(s[1..]);
      assert forall i :: 1 <= i < n ==> s[i] == s[1..][i - 1];
      n
  }

  /** Reads parts back until the text is used up. */
  function ReadParts(s: string): Option<seq<string>>
    decreases |s|
  {
    if s == [] then Some([])
    else if s[0] != '|' then None
    else
      var n := DigitRun(s[1..]);
      if n == 0 || 1 + n >= |s| || s[1 + n] != ':' then None
      else
        var length := Value(s[1..][..n]);
        var body := s[2 + n..];
        if length > |body| then None
        else
          match ReadParts(body[length..])
          case None => None
          case Some(rest) => Some([body[..length]] + rest)
  }

  lemma {:induction false} ValueOfDecimal(n: nat)
    ensures Value(Decimal(n)) == n
  {
    if n >= 10 {
      ValueOfDecimal(n / 10);
      assert Decimal(n)[..|Decimal(n)| - 1] == Decimal(n / 10);
    }
  }

  lemma {:induction false} DigitRunStops(d: string, rest: string)
    requires Digits(d) && rest != [] && !IsDigit(rest[0])
    ensures DigitRun(d + rest) == |d|
  {
    if d == [] {
      assert d + rest == rest;
    } else {
      assert (d + rest)[1..] == d[1..] + rest;
      DigitRunStops(d[1..], rest);
    }
  }

  /** Where the reader finds the pieces of one written part. */
  lemma PiecesOfAPart(d: string, p: string, tail: string)
    requires Digits(d)
    ensures var s := "|" + d + ":" + p + tail;
            && s[0] == '|'
            && DigitRun(s[1..]) == |d|
            && 1 + |d| < |s| && s[1 + |d|] == ':'
            && s[1..][..|d|] == d
            && s[2 + |d|..] == p + tail
  {
    var s := "|" + d + ":" + p + tail;
    var rest := ":" + p + tail;
    assert s[1..] == d + rest;
    DigitRunStops(d, rest);
  }

  /** One step of the reader over one written part. */
  lemma ReadOnePart(p: string, tail: string)
    ensures var s := Part(p) + tail;
            && s[0] == '|'
            && var n := DigitRun(s[1..]);
            && n == |Decimal(|p|)|
            && 1 + n < |s| && s[1 + n] == ':'
            && Value(s[1..][..n]) == |p|
            && s[2 + n..] == p + tail
  {
    PiecesOfAPart(Decimal(|p|), p, tail);
    ValueOfDecimal(|p|);
  }

  /** Reading what was written returns exactly the parts, whatever bytes they hold. */
  lemma {:induction false} ReadWhatWasWritten(ps: seq<string>)
    ensures ReadParts(Parts(ps)) == Some(ps)
  {
    if ps != [] {
      var p, tail := ps[0], Parts(ps[1..]);
      ReadOnePart(p, tail);
      ReadWhatWasWritten(ps[1..]);
      assert (p + tail)[..|p|] == p && (p + tail)[|p|..] == tail;
      assert [p] + ps[1..] == ps;
    }
  }

  /** Two pre-images are the same bytes only when they were written from the same parts. */
  lemma PartsInjective(ps: seq<string>, qs: seq<string>)
    requires Parts(ps) == Parts(qs)
    ensures ps == qs
  {
    ReadWhatWasWritten(ps);
    ReadWhatWasWritten(qs);
  }

  lemma SignedDecimalInjective(a: int, b: int)
    requires SignedDecimal(a) == SignedDecimal(b)
    ensures a == b
  {
    ValueOfDecimal(if a < 0 then -a else a);
    ValueOfDecimal(if b < 0 then -b else b);
    assert SignedDecimal(a)[0] == '-' <==> a < 0;
    assert SignedDecimal(b)[0] == '-' <==> b < 0;
    if a < 0 {
      assert SignedDecimal(a)[1..] == Decimal(-a);
      assert SignedDecimal(b)[1..] == Decimal(-b);
    }
  }

  /** SHA-256 in hex, taken as what it is relied on to be: a name that no two inputs share. */
  ghost predicate IsHash(hash: string -> string) {
    && (forall x :: hash(x) != "")
    && (forall x, y :: hash(x) == hash(y) ==> x == y)
  }
}
