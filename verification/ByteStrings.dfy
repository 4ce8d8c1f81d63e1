/** Byte strings, and the UTF-8 encoding as section 3.9 of the Unicode Standard (table 3-7) has it. */
module ByteStrings {
  newtype byte = x: int | 0 <= x < 256

  type Bytes = seq<byte>

  predicate Continuation(b: byte) {
    0x80 <= b <= 0xBF
  }

  /** Which second bytes may follow a given first byte of a longer sequence. */
  predicate SecondByte(first: byte, b: byte) {
    if first == 0xE0 then 0xA0 <= b <= 0xBF
    else if first == 0xED then 0x80 <= b <= 0x9F
    else if first == 0xF0 then 0x90 <= b <= 0xBF
    else if first == 0xF4 then 0x80 <= b <= 0x8F
    else Continuation(b)
  }

  /** How many bytes the first character of s takes; 0 when s does not start with one. */
  function RuneLen(s: Bytes): (n: nat)
    requires s != []
    ensures n <= |s|
  {
    if s[0] < 0x80 then 1
    else if 0xC2 <= s[0] <= 0xDF && |s| >= 2 && Continuation(s[1]) then 2
    else if 0xE0 <= s[0] <= 0xEF && |s| >= 3 && SecondByte(s[0], s[1]) && Continuation(s[2]) then 3
    else if 0xF0 <= s[0] <= 0xF4 && |s| >= 4
            && SecondByte(s[0], s[1]) && Continuation(s[2]) && Continuation(s[3]) then 4
    else 0
  }

  predicate ValidUtf8(s: Bytes)
    decreases |s|
  {
    s == [] || (RuneLen(s) > 0 && ValidUtf8(s[RuneLen(s)..]))
  }

  /** Appending after a character does not change it. */
  lemma RuneLenPrefix(s: Bytes, t: Bytes)
    requires s != [] && RuneLen(s) > 0
    ensures RuneLen(s + t) == RuneLen(s)
  {
  }

  lemma {:induction false} ValidConcat(s: Bytes, t: Bytes)
    requires ValidUtf8(s)
    ensures ValidUtf8(s + t) <==> ValidUtf8(t)
    decreases |s|
  {
    if s == [] {
      assert s + t == t;
    } else {
      var n := RuneLen(s);
      RuneLenPrefix(s, t);
      assert (s + t)[n..] == s[n..] + t;
      ValidConcat(s[n..], t);
    }
  }

  /** An ASCII byte cuts a string in two that are valid or not on their own. */
  lemma {:induction false} ValidAround(s: Bytes, c: byte, t: Bytes)
    requires c < 0x80
    ensures ValidUtf8(s + [c] + t) <==> ValidUtf8(s) && ValidUtf8(t)
    decreases |s|
  {
    var whole := s + [c] + t;
    if s == [] {
      assert whole[1..] == t;
    } else {
      var n := RuneLen(s);
      if n > 0 {
        RuneLenPrefix(s, [c] + t);
        assert whole == s + ([c] + t);
        assert whole[n..] == s[n..] + [c] + t;
        ValidAround(s[n..], c, t);
      } else {
        assert RuneLen(whole) == 0;
      }
    }
  }
}
