/** JSON string literals: the hand-written escaping, against a reader of section 7 of RFC 8259. */
module JsonStrings {
  import opened Common
  import opened ByteStrings

  const QUOTE: byte := 0x22
  const BACKSLASH: byte := 0x5C
  const REPLACEMENT: Bytes := [0xEF, 0xBF, 0xBD]

  // The writer.

  function HexDigit(b: byte): byte
    requires b < 16
  {
    if b < 10 then 0x30 + b else 0x61 + (b - 10)
  }

  function EscapedAscii(c: byte): Bytes
    requires c < 0x80
  {
    if c == QUOTE then [BACKSLASH, QUOTE]
    else if c == BACKSLASH then [BACKSLASH, BACKSLASH]
    else if c == 0x0A then [BACKSLASH, 0x6E]
    else if c == 0x0D then [BACKSLASH, 0x72]
    else if c == 0x09 then [BACKSLASH, 0x74]
    else if c < 0x20 then [BACKSLASH, 0x75, 0x30, 0x30, HexDigit(c / 16), HexDigit(c % 16)]
    else [c]
  }

  /** U+2028 and U+2029, which a JavaScript string literal may not hold raw. */
  predicate LineSeparator(s: Bytes) {
    |s| >= 3 && s[0] == 0xE2 && s[1] == 0x80 && (s[2] == 0xA8 || s[2] == 0xA9)
  }

  /** How many bytes the writer takes at once, and what it writes for them. */
  function Unit(s: Bytes): (r: (nat, Bytes))
    requires s != []
    ensures 1 <= r.0 <= |s|
  {
    if s[0] < 0x80 then (1, EscapedAscii(s[0]))
    else if RuneLen(s) == 0 then (1, REPLACEMENT)
    else if LineSeparator(s) then (3, [BACKSLASH, 0x75, 0x32, 0x30, 0x32, HexDigit(s[2] % 16)])
    else (RuneLen(s), s[..RuneLen(s)])
  }

  function Escaped(s: Bytes): Bytes
    decreases |s|
  {
    if s == [] then [] else Unit(s).1 + Escaped(s[Unit(s).0..])
  }

  function Quoted(s: Bytes): Bytes {
    [QUOTE] + Escaped(s) + [QUOTE]
  }

  /** Every byte that is not part of a character replaced by U+FFFD. */
  function Sanitized(s: Bytes): Bytes
    decreases |s|
  {
    if s == [] then []
    else if RuneLen(s) == 0 then REPLACEMENT + Sanitized(s[1..])
    else s[..RuneLen(s)] + Sanitized(s[RuneLen(s)..])
  }

  method AppendJsonString(dst: Bytes, s: Bytes) returns (out: Bytes)
    ensures out == dst + Quoted(s)
  {
    var escaped := EscapeLoop(s);
    out := dst + [QUOTE] + escaped + [QUOTE];
  }

  method EscapeLoop(s: Bytes) returns (out: Bytes)
    ensures out == Escaped(s)
  {
    hide Escaped, Unit;
    out := [];
    var i := 0;
    assert s[0..] == s && out + Escaped(s) == Escaped(s);
    while i < |s|
      invariant i <= |s|
      invariant out + Escaped(s[i..]) == Escaped(s)
    {
      var piece, size := EscapedUnit(s, i);
      EscapedAdvances(s, i, out);
      out := out + piece;
      i := i + size;
    }
    assert s[i..] == [];
    EscapedNothing();
  }

  lemma EscapedNothing()
    ensures Escaped([]) == []
  {
  }

  /** One turn of the escaping loop: what to append for the text at i, and how far to move. */
  method EscapedUnit(s: Bytes, i: nat) returns (piece: Bytes, size: nat)
    requires i < |s|
    ensures (size, piece) == Unit(s[i..])
  {
    var c := s[i];
    if c < 0x80 {
      return EscapedAscii(c), 1;
    }
    size := RuneLen(s[i..]);
    if size == 0 {
      return REPLACEMENT, 1;
    }
    if LineSeparator(s[i..]) {
      return [BACKSLASH, 0x75, 0x32, 0x30, 0x32, HexDigit(s[i + 2] % 16)], size;
    }
    assert s[i..][..size] == s[i..i + size];
    return s[i..i + size], size;
  }

  lemma EscapedAdvances(s: Bytes, i: nat, done: Bytes)
    requires i < |s|
    ensures var (n, piece) := Unit(s[i..]);
            done + Escaped(s[i..]) == (done + piece) + Escaped(s[i + n..])
  {
    var (n, piece) := Unit(s[i..]);
    assert s[i..][n..] == s[i + n..];
  }

  // The reader.

  function HexValue(b: byte): Option<int> {
    if 0x30 <= b <= 0x39 then Some(b as int - 0x30)
    else if 0x41 <= b <= 0x46 then Some(b as int - 0x41 + 10)
    else if 0x61 <= b <= 0x66 then Some(b as int - 0x61 + 10)
    else None
  }

  /** Four hexadecimal digits. */
  function Hex4(s: Bytes): (r: Option<int>)
    ensures r.Some? ==> |s| >= 4 && 0 <= r.value < 0x10000
  {
    if |s| < 4 || HexValue(s[0]).None? || HexValue(s[1]).None? || HexValue(s[2]).None? || HexValue(s[3]).None? then None
    else
      Some(0x1000 * HexValue(s[0]).value + 0x100 * HexValue(s[1]).value + 0x10 * HexValue(s[2]).value
           + HexValue(s[3]).value)
  }

  /** A code point as UTF-8. */
  function Encoded(code: int): Bytes
    requires 0 <= code < 0x110000
  {
    if code < 0x80 then [code as byte]
    else if code < 0x800 then [(0xC0 + code / 0x40) as byte, (0x80 + code % 0x40) as byte]
    else if code < 0x10000 then
      [(0xE0 + code / 0x1000) as byte, (0x80 + code / 0x40 % 0x40) as byte, (0x80 + code % 0x40) as byte]
    else
      [(0xF0 + code / 0x40000) as byte, (0x80 + code / 0x1000 % 0x40) as byte, (0x80 + code / 0x40 % 0x40) as byte,
       (0x80 + code % 0x40) as byte]
  }

  function ShortEscape(b: byte): Option<byte> {
    if b == QUOTE || b == BACKSLASH || b == 0x2F then Some(b)
    else if b == 0x62 then Some(0x08)
    else if b == 0x66 then Some(0x0C)
    else if b == 0x6E then Some(0x0A)
    else if b == 0x72 then Some(0x0D)
    else if b == 0x74 then Some(0x09)
    else None
  }

  /** The low half of a surrogate pair written right after its high half. */
  function LowSurrogate(s: Bytes): Option<int> {
    if |s| >= 6 && s[0] == BACKSLASH && s[1] == 0x75 && Hex4(s[2..]).Some? && 0xDC00 <= Hex4(s[2..]).value < 0xE000
    then Hex4(s[2..]) else None
  }

  /** What follows a backslash: the bytes it stands for, and how many it takes. */
  function ReadEscape(s: Bytes): (r: Option<(Bytes, nat)>)
    ensures r.Some? ==> 1 <= r.value.1 <= |s|
  {
    if s == [] then None
    else if s[0] != 0x75 then
      (match ShortEscape(s[0])
       case None => None
       case Some(b) => Some(([b], 1)))
    else
      match Hex4(s[1..])
      case None => None
      case Some(unit) =>
        if 0xD800 <= unit < 0xDC00 && LowSurrogate(s[5..]).Some? then
          Some((Encoded(0x10000 + (unit - 0xD800) * 0x400 + (LowSurrogate(s[5..]).value - 0xDC00)), 11))
        else Some((Encoded(unit), 5))
  }

  /** The inside of a literal up to its closing quote, and what follows it. Raw control characters are
      refused. */
  function ReadString(s: Bytes): (r: Option<(Bytes, Bytes)>)
    ensures r.Some? ==> |r.value.1| < |s|
    decreases |s|
  {
    if s == [] then None
    else if s[0] == QUOTE then Some(([], s[1..]))
    else if s[0] == BACKSLASH then
      match ReadEscape(s[1..])
      case None => None
      case Some((bytes, n)) =>
        (match ReadString(s[1 + n..])
         case None => None
         case Some((content, rest)) => Some((bytes + content, rest)))
    else if s[0] < 0x20 then None
    else
      match ReadString(s[1..])
      case None => None
      case Some((content, rest)) => Some(([s[0]] + content, rest))
  }

  // The round trip.

  lemma HexOfDigit(b: byte)
    requires b < 16
    ensures HexValue(HexDigit(b)) == Some(b as int)
  {
  }

  /** Bytes that stand for themselves. */
  lemma {:induction false} ReadRaw(raw: Bytes, t: Bytes)
    requires forall i :: 0 <= i < |raw| ==> raw[i] >= 0x80
    requires ReadString(t).Some?
    ensures ReadString(raw + t) == Some((raw + ReadString(t).value.0, ReadString(t).value.1))
  {
    if raw == [] {
      assert raw + t == t && raw + ReadString(t).value.0 == ReadString(t).value.0;
    } else {
      assert (raw + t)[1..] == raw[1..] + t;
      ReadRaw(raw[1..], t);
      assert [raw[0]] + (raw[1..] + ReadString(t).value.0) == raw + ReadString(t).value.0;
    }
  }

  /** A \u escape of a character that is half of no pair, and what follows it. */
  lemma ReadUnicode(e: Bytes, t: Bytes)
    requires |e| == 6 && e[0] == BACKSLASH && e[1] == 0x75 && ReadString(t).Some?
    requires Hex4(e[2..]).Some? && !(0xD800 <= Hex4(e[2..]).value < 0xE000)
    ensures ReadString(e + t) == Some((Encoded(Hex4(e[2..]).value) + ReadString(t).value.0, ReadString(t).value.1))
  {
    var s := e + t;
    var after := s[1..];
    assert after[0] == 0x75 && after[1..] == s[2..];
    assert s[2..][0] == e[2] && s[2..][1] == e[3] && s[2..][2] == e[4] && s[2..][3] == e[5];
    assert Hex4(after[1..]) == Hex4(e[2..]);
    assert s[6..] == t;
    hide Encoded, HexValue, Hex4;
  }

  lemma ReadControl(c: byte, t: Bytes)
    requires c < 0x20 && ReadString(t).Some?
    ensures ReadString([BACKSLASH, 0x75, 0x30, 0x30, HexDigit(c / 16), HexDigit(c % 16)] + t)
         == Some(([c] + ReadString(t).value.0, ReadString(t).value.1))
  {
    hide ReadString;
    var e: Bytes := [BACKSLASH, 0x75, 0x30, 0x30, HexDigit(c / 16), HexDigit(c % 16)];
    HexOfDigit(c / 16);
    HexOfDigit(c % 16);
    assert HexValue(0x30) == Some(0);
    assert Hex4(e[2..]) == Some(c as int);
    assert Encoded(c as int) == [c];
    ReadUnicode(e, t);
  }

  lemma ReadSeparator(third: byte, t: Bytes)
    requires (third == 0xA8 || third == 0xA9) && ReadString(t).Some?
    ensures ReadString([BACKSLASH, 0x75, 0x32, 0x30, 0x32, HexDigit(third % 16)] + t)
         == Some(([0xE2, 0x80, third] + ReadString(t).value.0, ReadString(t).value.1))
  {
    hide ReadString;
    var e: Bytes := [BACKSLASH, 0x75, 0x32, 0x30, 0x32, HexDigit(third % 16)];
    HexOfDigit(third % 16);
    assert HexValue(0x30) == Some(0) && HexValue(0x32) == Some(2);
    assert Hex4(e[2..]) == Some(0x2020 + third as int % 16);
    assert Encoded(0x2020 + third as int % 16) == [0xE2, 0x80, third];
    ReadUnicode(e, t);
  }

  lemma ReadShort(c: byte, t: Bytes)
    requires c == QUOTE || c == BACKSLASH || c == 0x0A || c == 0x0D || c == 0x09
    requires ReadString(t).Some?
    ensures ReadString(EscapedAscii(c) + t) == Some(([c] + ReadString(t).value.0, ReadString(t).value.1))
  {
    hide Hex4, Encoded, LowSurrogate;
    var s := EscapedAscii(c) + t;
    var after := s[1..];
    assert after[0] == EscapedAscii(c)[1];
    assert s[2..] == t;
  }

  lemma ReadAscii(c: byte, t: Bytes)
    requires c < 0x80 && ReadString(t).Some?
    ensures ReadString(EscapedAscii(c) + t) == Some(([c] + ReadString(t).value.0, ReadString(t).value.1))
  {
    var s := EscapedAscii(c) + t;
    if c == QUOTE || c == BACKSLASH || c == 0x0A || c == 0x0D || c == 0x09 {
      ReadShort(c, t);
    } else if c < 0x20 {
      ReadControl(c, t);
    } else {
      assert s[1..] == t;
    }
  }

  lemma RuneIsRaw(s: Bytes)
    requires s != [] && s[0] >= 0x80 && RuneLen(s) > 0
    ensures forall i :: 0 <= i < RuneLen(s) ==> s[i] >= 0x80
  {
  }

  /** What is written for one unit reads back as what the unit stands for. */
  lemma UnitReads(s: Bytes, t: Bytes)
    requires s != [] && ReadString(t).Some?
    ensures var n, unit := Unit(s).0, Unit(s).1;
            && ReadString(unit + t).Some? && ReadString(unit + t).value.1 == ReadString(t).value.1
            && ReadString(unit + t).value.0 == (if RuneLen(s) == 0 then REPLACEMENT else s[..n]) + ReadString(t).value.0
            && (RuneLen(s) > 0 ==> n == RuneLen(s))
  {
    hide ReadString, EscapedAscii;
    if s[0] < 0x80 {
      ReadAscii(s[0], t);
      assert s[..1] == [s[0]];
    } else if RuneLen(s) == 0 {
      ReadRaw(REPLACEMENT, t);
    } else if LineSeparator(s) {
      ReadSeparator(s[2], t);
      assert s[..3] == [0xE2, 0x80, s[2]];
    } else {
      RuneIsRaw(s);
      ReadRaw(s[..RuneLen(s)], t);
    }
  }

  /** A written literal reads back as the input, each undecodable byte having become U+FFFD; the reader
      stops exactly at the closing quote, so nothing inside it is an unescaped quote or a raw control
      character. */
  lemma {:induction false} StringRoundTrip(s: Bytes, rest: Bytes)
    ensures ReadString(Escaped(s) + [QUOTE] + rest) == Some((Sanitized(s), rest))
    decreases |s|
  {
    var whole := Escaped(s) + [QUOTE] + rest;
    if s == [] {
      assert whole[1..] == rest;
    } else {
      hide ReadString, RuneLen;
      var (n, unit) := Unit(s);
      hide Unit;
      StringRoundTrip(s[n..], rest);
      var t := Escaped(s[n..]) + [QUOTE] + rest;
      UnitReads(s, t);
      assert whole == unit + t;
      NoRuneIsOneByte(s);
    }
  }

  lemma NoRuneIsOneByte(s: Bytes)
    requires s != []
    ensures RuneLen(s) == 0 ==> Unit(s).0 == 1
  {
  }

  /** The literal is valid UTF-8 whatever it was written from. */
  lemma {:induction false} EscapedIsValid(s: Bytes)
    ensures ValidUtf8(Escaped(s))
    decreases |s|
  {
    if s != [] {
      var (n, unit) := Unit(s);
      EscapedIsValid(s[n..]);
      UnitIsValid(s);
      ValidConcat(unit, Escaped(s[n..]));
    }
  }

  lemma {:induction false} AsciiIsValid(s: Bytes)
    requires forall i :: 0 <= i < |s| ==> s[i] < 0x80
    ensures ValidUtf8(s)
  {
    if s != [] { AsciiIsValid(s[1..]); }
  }

  lemma UnitIsValid(s: Bytes)
    requires s != []
    ensures ValidUtf8(Unit(s).1)
  {
    var (n, unit) := Unit(s);
    if s[0] < 0x80 || (RuneLen(s) > 0 && LineSeparator(s)) {
      AsciiIsValid(unit);
    } else if RuneLen(s) > 0 {
      assert RuneLen(unit) == n && unit[n..] == [];
    } else {
      assert RuneLen(unit) == 3 && unit[3..] == [];
    }
  }

  lemma BadByteIsReplaced(s: Bytes)
    requires s != [] && RuneLen(s) == 0 && ValidUtf8(Sanitized(s[1..]))
    ensures ValidUtf8(Sanitized(s)) && Sanitized(s) != s && !ValidUtf8(s)
  {
    assert RuneLen(REPLACEMENT) == 3 && REPLACEMENT[3..] == [];
    ValidConcat(REPLACEMENT, Sanitized(s[1..]));
    assert ValidUtf8(Sanitized(s)) && !ValidUtf8(s);
  }

  lemma RuneIsKept(s: Bytes)
    requires s != [] && RuneLen(s) > 0 && ValidUtf8(Sanitized(s[RuneLen(s)..]))
    ensures ValidUtf8(Sanitized(s))
    ensures Sanitized(s) == s[..RuneLen(s)] + Sanitized(s[RuneLen(s)..])
    ensures ValidUtf8(s) == ValidUtf8(s[RuneLen(s)..])
  {
    var n := RuneLen(s);
    assert RuneLen(s[..n]) == n && s[..n][n..] == [];
    ValidConcat(s[..n], Sanitized(s[n..]));
  }

  /** Nothing is lost but what was not text: what comes back is the input exactly when the input was
      valid UTF-8. */
  lemma {:induction false} SanitizedKeepsValid(s: Bytes)
    ensures ValidUtf8(Sanitized(s))
    ensures Sanitized(s) == s <==> ValidUtf8(s)
    decreases |s|
  {
    if s != [] {
      var n := RuneLen(s);
      if n == 0 {
        SanitizedKeepsValid(s[1..]);
        BadByteIsReplaced(s);
      } else {
        SanitizedKeepsValid(s[n..]);
        RuneIsKept(s);
        assert s == s[..n] + s[n..];
        assert Sanitized(s)[n..] == Sanitized(s[n..]);
      }
    }
  }
}
