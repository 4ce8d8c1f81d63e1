/** A reader of JSON documents: sections 2 to 7 of RFC 8259, over bytes. Numbers are kept as they are
    spelled, and an object keeps its members in order, repetitions included. */
module JsonGrammar {
  import opened Common
  import opened ByteStrings
  import opened JsonStrings

  datatype Value =
    | Null
    | Bool(on: bool)
    | Num(spelling: Bytes)
    | Str(content: Bytes)
    | Arr(elements: seq<Value>)
    | Obj(members: seq<(Bytes, Value)>)

  const COMMA: byte := 0x2C
  const COLON: byte := 0x3A
  const OPEN_BRACKET: byte := 0x5B
  const CLOSE_BRACKET: byte := 0x5D
  const OPEN_BRACE: byte := 0x7B
  const CLOSE_BRACE: byte := 0x7D

  const NULL_LITERAL: Bytes := [0x6E, 0x75, 0x6C, 0x6C]
  const TRUE_LITERAL: Bytes := [0x74, 0x72, 0x75, 0x65]
  const FALSE_LITERAL: Bytes := [0x66, 0x61, 0x6C, 0x73, 0x65]

  predicate IsSpace(b: byte) {
    b == 0x20 || b == 0x09 || b == 0x0A || b == 0x0D
  }

  function SkipSpace(s: Bytes): (r: Bytes)
    ensures |r| <= |s|
    ensures r != [] ==> !IsSpace(r[0])
  {
    if s != [] && IsSpace(s[0]) then SkipSpace(s[1..]) else s
  }

  predicate IsDigit(b: byte) {
    0x30 <= b <= 0x39
  }

  function DigitRun(s: Bytes): (n: nat)
    ensures n <= |s|
  {
    if s == [] || !IsDigit(s[0]) then 0 else 1 + DigitRun(s[1..])
  }

  /** int: a zero, or digits that do not start with one. */
  function IntLen(s: Bytes): (n: nat)
    ensures n <= |s|
  {
    if s != [] && s[0] == 0x30 then 1 else DigitRun(s)
  }

  /** frac, when there is one; None is a point with no digits after it. */
  function FracLen(s: Bytes): (n: Option<nat>)
    ensures n.Some? ==> n.value <= |s|
  {
    if s == [] || s[0] != 0x2E then Some(0)
    else if DigitRun(s[1..]) == 0 then None
    else Some(1 + DigitRun(s[1..]))
  }

  /** exp, when there is one; None is an e with no digits after it. */
  function ExpLen(s: Bytes): (n: Option<nat>)
    ensures n.Some? ==> n.value <= |s|
  {
    if s == [] || (s[0] != 0x65 && s[0] != 0x45) then Some(0)
    else
      var sign := if |s| > 1 && (s[1] == 0x2B || s[1] == 0x2D) then 1 else 0;
      if DigitRun(s[1 + sign..]) == 0 then None else Some(1 + sign + DigitRun(s[1 + sign..]))
  }

  /** frac and exp together. */
  function PartsLen(s: Bytes): (n: Option<nat>)
    ensures n.Some? ==> n.value <= |s|
  {
    match FracLen(s)
    case None => None
    case Some(frac) =>
      match ExpLen(s[frac..])
      case None => None
      case Some(exp) => Some(frac + exp)
  }

  function UnsignedLen(s: Bytes): (n: Option<nat>)
    ensures n.Some? ==> 0 < n.value <= |s|
  {
    if IntLen(s) == 0 then None
    else
      match PartsLen(s[IntLen(s)..])
      case None => None
      case Some(parts) => Some(IntLen(s) + parts)
  }

  /** The length of the number s starts with. */
  function NumberLen(s: Bytes): (n: Option<nat>)
    ensures n.Some? ==> 0 < n.value <= |s|
  {
    if s == [] || s[0] != 0x2D then UnsignedLen(s)
    else
      match UnsignedLen(s[1..])
      case None => None
      case Some(n) => Some(1 + n)
  }

  predicate StartsWith(s: Bytes, prefix: Bytes) {
    |s| >= |prefix| && forall i :: 0 <= i < |prefix| ==> s[i] == prefix[i]
  }

  /** A literal name or a number. */
  function ReadScalar(s: Bytes): (r: Option<(Value, Bytes)>)
    ensures r.Some? ==> |r.value.1| < |s|
  {
    if StartsWith(s, NULL_LITERAL) then Some((Null, s[4..]))
    else if StartsWith(s, TRUE_LITERAL) then Some((Bool(true), s[4..]))
    else if StartsWith(s, FALSE_LITERAL) then Some((Bool(false), s[5..]))
    else
      match NumberLen(s)
      case None => None
      case Some(n) => Some((Num(s[..n]), s[n..]))
  }

  function ReadValue(s: Bytes): (r: Option<(Value, Bytes)>)
    ensures r.Some? ==> |r.value.1| < |s|
    decreases |s|, 1
  {
    if s == [] then None
    else if s[0] == QUOTE then
      (match ReadString(s[1..])
       case None => None
       case Some((content, rest)) => Some((Str(content), rest)))
    else if s[0] == OPEN_BRACKET then
      var inside := SkipSpace(s[1..]);
      if inside != [] && inside[0] == CLOSE_BRACKET then Some((Arr([]), inside[1..]))
      else
        (match ReadElements(inside)
         case None => None
         case Some((elements, rest)) => Some((Arr(elements), rest)))
    else if s[0] == OPEN_BRACE then
      var inside := SkipSpace(s[1..]);
      if inside != [] && inside[0] == CLOSE_BRACE then Some((Obj([]), inside[1..]))
      else
        (match ReadMembers(inside)
         case None => None
         case Some((members, rest)) => Some((Obj(members), rest)))
    else ReadScalar(s)
  }

  /** One or more elements and the closing bracket. */
  function ReadElements(s: Bytes): (r: Option<(seq<Value>, Bytes)>)
    ensures r.Some? ==> |r.value.1| < |s|
    decreases |s|, 2
  {
    match ReadValue(s)
    case None => None
    case Some((v, after)) =>
      var rest := SkipSpace(after);
      if rest == [] then None
      else if rest[0] == CLOSE_BRACKET then Some(([v], rest[1..]))
      else if rest[0] != COMMA then None
      else
        match ReadElements(SkipSpace(rest[1..]))
        case None => None
        case Some((vs, end)) => Some(([v] + vs, end))
  }

  /** One or more members and the closing brace. */
  function ReadMembers(s: Bytes): (r: Option<(seq<(Bytes, Value)>, Bytes)>)
    ensures r.Some? ==> |r.value.1| < |s|
    decreases |s|, 2
  {
    match ReadMember(s)
    case None => None
    case Some((member, after)) =>
      var rest := SkipSpace(after);
      if rest == [] then None
      else if rest[0] == CLOSE_BRACE then Some(([member], rest[1..]))
      else if rest[0] != COMMA then None
      else
        match ReadMembers(SkipSpace(rest[1..]))
        case None => None
        case Some((members, end)) => Some(([member] + members, end))
  }

  function ReadMember(s: Bytes): (r: Option<((Bytes, Value), Bytes)>)
    ensures r.Some? ==> |r.value.1| < |s|
    decreases |s|, 1
  {
    if s == [] || s[0] != QUOTE then None
    else
      match ReadString(s[1..])
      case None => None
      case Some((name, after)) =>
        match ReadMemberValue(after)
        case None => None
        case Some((v, rest)) => Some(((name, v), rest))
  }

  /** The colon and the value after a member's name. */
  function ReadMemberValue(s: Bytes): (r: Option<(Value, Bytes)>)
    ensures r.Some? ==> |r.value.1| < |s|
    decreases |s|, 0
  {
    var colon := SkipSpace(s);
    if colon == [] || colon[0] != COLON then None else ReadValue(SkipSpace(colon[1..]))
  }

  /** A whole document: one value, with space around it. */
  function ReadDocument(s: Bytes): Option<Value> {
    match ReadValue(SkipSpace(s))
    case None => None
    case Some((v, rest)) => if SkipSpace(rest) == [] then Some(v) else None
  }

  // A value is read the same whatever follows it, so a document can be put inside another.

  /** What may follow a number without becoming part of it. */
  predicate EndsNumber(t: Bytes) {
    t == [] || (!IsDigit(t[0]) && t[0] != 0x2E && t[0] != 0x65 && t[0] != 0x45)
  }

  lemma {:induction false} SkipSpaceExtends(s: Bytes, t: Bytes)
    ensures SkipSpace(s) != [] ==> SkipSpace(s + t) == SkipSpace(s) + t
    ensures SkipSpace(s) == [] ==> SkipSpace(s + t) == SkipSpace(t)
    decreases |s|
  {
    if s == [] {
      assert s + t == t;
    } else if IsSpace(s[0]) {
      assert (s + t)[1..] == s[1..] + t;
      SkipSpaceExtends(s[1..], t);
    }
  }

  lemma {:induction false} DigitRunExtends(s: Bytes, t: Bytes)
    requires DigitRun(s) < |s| || t == [] || !IsDigit(t[0])
    ensures DigitRun(s + t) == DigitRun(s)
    decreases |s|
  {
    if s == [] {
      assert s + t == t;
    } else if IsDigit(s[0]) {
      assert (s + t)[1..] == s[1..] + t;
      DigitRunExtends(s[1..], t);
    }
  }

  lemma FracExtends(s: Bytes, t: Bytes)
    requires FracLen(s).Some? && (FracLen(s).value < |s| || EndsNumber(t))
    ensures FracLen(s + t) == FracLen(s)
  {
    if s == [] {
      assert s + t == t;
    } else if s[0] == 0x2E {
      assert (s + t)[1..] == s[1..] + t;
      DigitRunExtends(s[1..], t);
    }
  }

  lemma ExpExtends(s: Bytes, t: Bytes)
    requires ExpLen(s).Some? && (ExpLen(s).value < |s| || EndsNumber(t))
    ensures ExpLen(s + t) == ExpLen(s)
  {
    if s == [] {
      assert s + t == t;
    } else if s[0] == 0x65 || s[0] == 0x45 {
      var sign := if |s| > 1 && (s[1] == 0x2B || s[1] == 0x2D) then 1 else 0;
      assert (s + t)[1 + sign..] == s[1 + sign..] + t;
      DigitRunExtends(s[1 + sign..], t);
      assert |s| > 1;
    }
  }

  lemma PartsExtend(s: Bytes, t: Bytes)
    requires PartsLen(s).Some? && (PartsLen(s).value < |s| || EndsNumber(t))
    ensures PartsLen(s + t) == PartsLen(s)
  {
    var frac := FracLen(s).value;
    FracExtends(s, t);
    ExpExtends(s[frac..], t);
    assert (s + t)[frac..] == s[frac..] + t;
  }

  lemma IntExtends(s: Bytes, t: Bytes)
    requires IntLen(s) > 0 && (IntLen(s) < |s| || EndsNumber(t))
    ensures IntLen(s + t) == IntLen(s)
  {
    if s[0] != 0x30 {
      DigitRunExtends(s, t);
    }
  }

  lemma UnsignedExtends(s: Bytes, t: Bytes)
    requires UnsignedLen(s).Some? && (UnsignedLen(s).value < |s| || EndsNumber(t))
    ensures UnsignedLen(s + t) == UnsignedLen(s)
  {
    hide PartsLen, IntLen, EndsNumber;
    var whole := IntLen(s);
    IntExtends(s, t);
    PartsExtend(s[whole..], t);
    assert (s + t)[whole..] == s[whole..] + t;
  }

  lemma NumberExtends(s: Bytes, t: Bytes)
    requires NumberLen(s).Some? && (NumberLen(s).value < |s| || EndsNumber(t))
    ensures NumberLen(s + t) == NumberLen(s)
  {
    hide UnsignedLen, EndsNumber;
    if s[0] == 0x2D {
      assert (s + t)[1..] == s[1..] + t;
      UnsignedExtends(s[1..], t);
    } else {
      UnsignedExtends(s, t);
    }
  }

  lemma Hex4Extends(s: Bytes, t: Bytes)
    requires Hex4(s).Some?
    ensures Hex4(s + t) == Hex4(s)
  {
  }

  /** An escape followed by what closes its literal reads the same in a longer text. */
  lemma EscapeExtends(s: Bytes, t: Bytes)
    requires ReadEscape(s).Some? && ReadString(s[ReadEscape(s).value.1..]).Some?
    ensures ReadEscape(s + t) == ReadEscape(s)
  {
    if s[0] == 0x75 {
      Hex4Extends(s[1..], t);
      assert (s + t)[1..] == s[1..] + t && (s + t)[5..] == s[5..] + t;
      SurrogateExtends(s[5..], t, s);
    }
  }

  lemma SurrogateExtends(after: Bytes, t: Bytes, s: Bytes)
    requires |s| >= 5 && after == s[5..] && s[0] == 0x75 && ReadEscape(s).Some?
    requires ReadString(s[ReadEscape(s).value.1..]).Some?
    ensures 0xD800 <= Hex4(s[1..]).value < 0xDC00 ==> LowSurrogate(after + t) == LowSurrogate(after)
  {
    if LowSurrogate(after).Some? {
      assert (after + t)[2..] == after[2..] + t;
      Hex4Extends(after[2..], t);
    } else {
      assert s[5..] == s[ReadEscape(s).value.1..];
      NoSurrogateExtends(after, t);
    }
  }

  /** A literal that continues after s does not grow a surrogate pair out of what follows it. */
  lemma NoSurrogateExtends(s: Bytes, t: Bytes)
    requires ReadString(s).Some? && LowSurrogate(s).None?
    ensures LowSurrogate(s + t).None?
  {
    if s[0] == BACKSLASH {
      assert ReadEscape(s[1..]).Some?;
      if s[1] == 0x75 {
        assert Hex4(s[1..][1..]).Some?;
        assert s[1..][1..] == s[2..];
        Hex4Extends(s[2..], t);
        assert (s + t)[2..] == s[2..] + t;
      }
    }
  }

  lemma {:induction false} StringExtends(s: Bytes, t: Bytes)
    requires ReadString(s).Some?
    ensures ReadString(s + t) == Some((ReadString(s).value.0, ReadString(s).value.1 + t))
    decreases |s|
  {
    if s[0] == QUOTE {
      assert (s + t)[1..] == s[1..] + t;
    } else if s[0] == BACKSLASH {
      var n := ReadEscape(s[1..]).value.1;
      assert s[1..][n..] == s[1 + n..];
      assert (s + t)[1..] == s[1..] + t;
      EscapeExtends(s[1..], t);
      assert (s + t)[1 + n..] == s[1 + n..] + t;
      StringExtends(s[1 + n..], t);
    } else {
      assert (s + t)[1..] == s[1..] + t;
      StringExtends(s[1..], t);
    }
  }

  lemma {:induction false} ValueExtends(s: Bytes, t: Bytes)
    requires ReadValue(s).Some? && (ReadValue(s).value.1 != [] || EndsNumber(t))
    ensures ReadValue(s + t) == Some((ReadValue(s).value.0, ReadValue(s).value.1 + t))
    decreases |s|, 1
  {
    assert (s + t)[1..] == s[1..] + t;
    if s[0] == QUOTE {
      StringExtends(s[1..], t);
    } else if s[0] == OPEN_BRACKET || s[0] == OPEN_BRACE {
      var inside := SkipSpace(s[1..]);
      SkipSpaceExtends(s[1..], t);
      if inside != [] && inside[0] == (if s[0] == OPEN_BRACKET then CLOSE_BRACKET else CLOSE_BRACE) {
        assert (inside + t)[1..] == inside[1..] + t;
      } else if s[0] == OPEN_BRACKET {
        ElementsExtend(inside, t);
      } else {
        MembersExtend(inside, t);
      }
    } else {
      ScalarExtends(s, t);
    }
  }

  lemma ScalarExtends(s: Bytes, t: Bytes)
    requires ReadScalar(s).Some? && (ReadScalar(s).value.1 != [] || EndsNumber(t))
    ensures ReadScalar(s + t) == Some((ReadScalar(s).value.0, ReadScalar(s).value.1 + t))
  {
    if StartsWith(s, NULL_LITERAL) || StartsWith(s, TRUE_LITERAL) || StartsWith(s, FALSE_LITERAL) {
      NameExtends(s, t);
    } else {
      SpelledNumberExtends(s, t);
    }
  }

  lemma NameExtends(s: Bytes, t: Bytes)
    requires StartsWith(s, NULL_LITERAL) || StartsWith(s, TRUE_LITERAL) || StartsWith(s, FALSE_LITERAL)
    ensures ReadScalar(s + t) == Some((ReadScalar(s).value.0, ReadScalar(s).value.1 + t))
  {
    assert (s + t)[0] == s[0];
    if s[0] == FALSE_LITERAL[0] {
      assert StartsWith(s, FALSE_LITERAL);
      assert (s + t)[5..] == s[5..] + t;
    } else {
      assert (s + t)[4..] == s[4..] + t;
    }
  }

  lemma SpelledNumberExtends(s: Bytes, t: Bytes)
    requires NumberLen(s).Some? && (NumberLen(s).value < |s| || EndsNumber(t))
    ensures ReadScalar(s + t) == Some((Num(s[..NumberLen(s).value]), s[NumberLen(s).value..] + t))
  {
    var n := NumberLen(s).value;
    NumberExtends(s, t);
    NumberStart(s + t);
    assert (s + t)[..n] == s[..n] && (s + t)[n..] == s[n..] + t;
  }

  /** A number starts with a minus or a digit, so it is nothing else. */
  lemma NumberStart(s: Bytes)
    requires NumberLen(s).Some?
    ensures s[0] == 0x2D || IsDigit(s[0])
    ensures ReadValue(s) == ReadScalar(s) == Some((Num(s[..NumberLen(s).value]), s[NumberLen(s).value..]))
  {
    assert s[0] != 0x2D ==> IntLen(s) > 0;
    assert s[0] != NULL_LITERAL[0] && s[0] != TRUE_LITERAL[0] && s[0] != FALSE_LITERAL[0];
  }

  lemma {:induction false} ElementsExtend(s: Bytes, t: Bytes)
    requires ReadElements(s).Some?
    ensures ReadElements(s + t) == Some((ReadElements(s).value.0, ReadElements(s).value.1 + t))
    decreases |s|, 2
  {
    var (v, after) := ReadValue(s).value;
    ValueExtends(s, t);
    SkipSpaceExtends(after, t);
    var rest := SkipSpace(after);
    assert (rest + t)[1..] == rest[1..] + t;
    if rest[0] == COMMA {
      SkipSpaceExtends(rest[1..], t);
      ElementsExtend(SkipSpace(rest[1..]), t);
    }
  }

  lemma {:induction false} MembersExtend(s: Bytes, t: Bytes)
    requires ReadMembers(s).Some?
    ensures ReadMembers(s + t) == Some((ReadMembers(s).value.0, ReadMembers(s).value.1 + t))
    decreases |s|, 2
  {
    var (member, after) := ReadMember(s).value;
    MemberExtends(s, t);
    SkipSpaceExtends(after, t);
    var rest := SkipSpace(after);
    assert (rest + t)[1..] == rest[1..] + t;
    if rest[0] == COMMA {
      SkipSpaceExtends(rest[1..], t);
      MembersExtend(SkipSpace(rest[1..]), t);
    }
  }

  lemma {:induction false} MemberExtends(s: Bytes, t: Bytes)
    requires ReadMember(s).Some? && ReadMember(s).value.1 != []
    ensures ReadMember(s + t) == Some((ReadMember(s).value.0, ReadMember(s).value.1 + t))
    decreases |s|, 1
  {
    var after := ReadString(s[1..]).value.1;
    assert (s + t)[1..] == s[1..] + t;
    StringExtends(s[1..], t);
    MemberValueExtends(after, t);
  }

  lemma {:induction false} MemberValueExtends(s: Bytes, t: Bytes)
    requires ReadMemberValue(s).Some? && ReadMemberValue(s).value.1 != []
    ensures ReadMemberValue(s + t) == Some((ReadMemberValue(s).value.0, ReadMemberValue(s).value.1 + t))
    decreases |s|, 0
  {
    SkipSpaceExtends(s, t);
    var colon := SkipSpace(s);
    assert (colon + t)[1..] == colon[1..] + t;
    SkipSpaceExtends(colon[1..], t);
    ValueExtends(SkipSpace(colon[1..]), t);
  }
}
