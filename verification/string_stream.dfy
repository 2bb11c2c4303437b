/** A stream backed by a string buffer with a read position (src/StringStream.cpp).
    `write` appends at the end of the buffer but advances the read position; `read` and
    `peek` give -1 at the end. Buffer characters are bytes; `read` converts them the way a
    signed `char` converts to `int`. */
module StringStreams {
  import Text

  datatype StringStream = StringStream(buffer: string, position: nat)

  /** Characters of the buffer are bytes. */
  predicate IsByte(c: char) {
    c as int < 256
  }

  predicate AllBytes(s: string) {
    forall c | c in s :: IsByte(c)
  }

  lemma AsciiIsBytes(s: string)
    requires Text.IsAscii(s)
    ensures AllBytes(s)
  {
  }

  /** The invariant every operation keeps: bytes only, and the position never passes the end. */
  predicate Valid(s: StringStream) {
    AllBytes(s.buffer) && s.position <= |s.buffer|
  }

  /** The value a byte has as a signed `char` widened to `int`. */
  function SignedValue(c: char): (v: int)
    requires IsByte(c)
    ensures -128 <= v < 128
    ensures v == -1 <==> c as int == 255
    ensures c as int < 128 ==> v == c as int
    ensures c as int >= 128 ==> v == c as int - 256
  {
    if c as int < 128 then c as int else c as int - 256
  }

  /** A new stream: empty buffer, position 0. */
  function New(): (s: StringStream)
    ensures Valid(s) && |s.buffer| == 0 && s.position == 0
  {
    StringStream("", 0)
  }

  /** `clear`: empties the buffer and rewinds. */
  function Clear(s: StringStream): (r: StringStream)
    ensures Valid(r) && |r.buffer| == 0 && r.position == 0
  {
    StringStream("", 0)
  }

  /** `set_buffer`: replaces the buffer and rewinds. */
  function SetBuffer(s: StringStream, text: string): (r: StringStream)
    requires AllBytes(text)
    ensures Valid(r) && r.buffer == text && r.position == 0
  {
    StringStream(text, 0)
  }

  /** `available`: the number of characters still to read. */
  function Available(s: StringStream): (n: int)
    requires Valid(s)
    ensures n >= 0
    ensures n == 0 <==> s.position == |s.buffer|
    ensures s.position + n == |s.buffer|
  {
    |s.buffer| - s.position
  }

  /** `read`: the character at the position (advancing past it), or -1 at the end without moving. */
  function Read(s: StringStream): (r: (int, StringStream))
    requires Valid(s)
    ensures Valid(r.1) && r.1.buffer == s.buffer
    ensures Available(s) == 0 ==> r.0 == -1 && r.1 == s
    ensures Available(s) > 0 ==> r.0 == SignedValue(s.buffer[s.position]) && r.1.position == s.position + 1
    ensures Available(s) > 0 ==> Available(r.1) == Available(s) - 1
  {
    if s.position >= |s.buffer| then (-1, s)
    else (SignedValue(s.buffer[s.position]), s.(position := s.position + 1))
  }

  /** `peek`: what `read` would return, without moving. */
  function Peek(s: StringStream): (v: int)
    requires Valid(s)
    ensures v == -1 <==> Available(s) == 0 || s.buffer[s.position] as int == 255
  {
    if s.position >= |s.buffer| then -1 else SignedValue(s.buffer[s.position])
  }

  /** `write`: appends a byte, advances the position, reports one byte written. */
  function Write(s: StringStream, c: char): (r: (int, StringStream))
    requires Valid(s) && IsByte(c)
    ensures Valid(r.1)
    ensures r.0 == 1
    ensures r.1.buffer == s.buffer + [c] && r.1.position == s.position + 1
    ensures Available(r.1) == Available(s)
  {
    (1, StringStream(s.buffer + [c], s.position + 1))
  }

  /** `print` of a text: one `write` per character, in order. */
  function Print(s: StringStream, text: string): (r: StringStream)
    requires Valid(s) && AllBytes(text)
    ensures Valid(r)
    ensures r.buffer == s.buffer + text && r.position == s.position + |text|
    decreases |text|
  {
    if |text| == 0 then s else Print(Write(s, text[0]).1, text[1..])
  }

  /** `to_string`: the whole buffer, independent of the position. */
  function ToString(s: StringStream): string
  {
    s.buffer
  }

  /** Printing to a stream and converting it to a string gives back what was there plus the text. */
  lemma ToStringAfterPrint(s: StringStream, text: string)
    requires Valid(s) && AllBytes(text)
    ensures ToString(Print(s, text)) == ToString(s) + text
    ensures ToString(Print(New(), text)) == text
  {
  }

  /** `peek` agrees with `read` and never moves the stream. */
  lemma PeekAgreesWithRead(s: StringStream)
    requires Valid(s)
    ensures Peek(s) == Read(s).0
  {
  }

  /** Reading `n` times: the values read and the resulting stream. */
  function ReadN(s: StringStream, n: nat): (r: (seq<int>, StringStream))
    requires Valid(s)
    ensures |r.0| == n && Valid(r.1)
    decreases n
  {
    if n == 0 then ([], s)
    else
      var (v, s1) := Read(s);
      var (vs, s2) := ReadN(s1, n - 1);
      ([v] + vs, s2)
  }

  /** Reading consumes the unread part of the buffer in order: the k-th value read is the
      signed value of the character k places after the position. */
  lemma {:induction false} ReadNConsumes(s: StringStream, n: nat)
    requires Valid(s) && n <= Available(s)
    ensures ReadN(s, n).1 == s.(position := s.position + n)
    ensures forall k :: 0 <= k < n ==> ReadN(s, n).0[k] == SignedValue(s.buffer[s.position + k])
    decreases n
  {
    if n > 0 {
      var s1 := Read(s).1;
      ReadNConsumes(s1, n - 1);
      var vs := ReadN(s1, n - 1).0;
      assert ReadN(s, n).0 == [Read(s).0] + vs;
    }
  }

  /** Setting a buffer and reading it through: every character comes back, then -1. */
  lemma {:induction false} SetBufferThenReadAll(s: StringStream, text: string)
    requires AllBytes(text)
    ensures ReadN(SetBuffer(s, text), |text|).0 == seq(|text|, k requires 0 <= k < |text| => SignedValue(text[k]))
    ensures Read(ReadN(SetBuffer(s, text), |text|).1).0 == -1
  {
    var t := SetBuffer(s, text);
    ReadNConsumes(t, |text|);
  }

  /** Writes alone leave nothing to read: the position follows the end of the buffer. */
  lemma WritesLeaveNothingAvailable(text: string)
    requires AllBytes(text)
    ensures Print(New(), text).buffer == text
    ensures Available(Print(New(), text)) == 0
    ensures Read(Print(New(), text)).0 == -1
  {
  }

  /** `clear` after any use gives the same stream as a new one. */
  lemma ClearIsNew(s: StringStream)
    ensures Clear(s) == New()
  {
  }
}
