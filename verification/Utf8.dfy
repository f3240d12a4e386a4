/** The bytes of strings in UTF-8, section 3 of RFC 3629. */
module Utf8 {

  function Encode(c: char): seq<int> {
    var n := c as int;
    if n < 0x80 then [n]
    else if n < 0x800 then [0xC0 + n / 0x40, 0x80 + n % 0x40]
    else if n < 0x1_0000 then [0xE0 + n / 0x1000, 0x80 + n / 0x40 % 0x40, 0x80 + n % 0x40]
    else [0xF0 + n / 0x4_0000, 0x80 + n / 0x1000 % 0x40, 0x80 + n / 0x40 % 0x40, 0x80 + n % 0x40]
  }

  /** A byte that does not start a character. */
  predicate IsContinuation(b: int) {
    0x80 <= b < 0xC0
  }

  /** How many bytes the character takes that starts with the byte `lead`. */
  function LengthOf(lead: int): nat {
    if lead < 0x80 then 1 else if lead < 0xE0 then 2 else if lead < 0xF0 then 3 else 4
  }

  function Decode(bytes: seq<int>): int
    requires 1 <= |bytes| <= 4
  {
    if |bytes| == 1 then bytes[0]
    else if |bytes| == 2 then (bytes[0] - 0xC0) * 0x40 + (bytes[1] - 0x80)
    else if |bytes| == 3 then (bytes[0] - 0xE0) * 0x1000 + (bytes[1] - 0x80) * 0x40 + (bytes[2] - 0x80)
    else (bytes[0] - 0xF0) * 0x4_0000 + (bytes[1] - 0x80) * 0x1000 + (bytes[2] - 0x80) * 0x40 + (bytes[3] - 0x80)
  }

  lemma Split(n: int)
    ensures n == n / 0x40 * 0x40 + n % 0x40 && 0 <= n % 0x40 < 0x40
  {
  }

  lemma DivTwice(n: nat)
    ensures n / 0x1000 == n / 0x40 / 0x40 && n / 0x4_0000 == n / 0x1000 / 0x40
  {
  }

  lemma Two(c: char)
    requires 0x80 <= c as int < 0x800
    ensures Decode(Encode(c)) == c as int && 0xC0 <= Encode(c)[0] < 0xE0 && IsContinuation(Encode(c)[1])
  {
    Split(c as int);
  }

  lemma Three(c: char)
    requires 0x800 <= c as int < 0x1_0000
    ensures Decode(Encode(c)) == c as int && 0xE0 <= Encode(c)[0] < 0xF0
    ensures IsContinuation(Encode(c)[1]) && IsContinuation(Encode(c)[2])
  {
    var n := c as int;
    DivTwice(n);
    Split(n);
    Split(n / 0x40);
  }

  lemma Four(c: char)
    requires 0x1_0000 <= c as int
    ensures Decode(Encode(c)) == c as int && 0xF0 <= Encode(c)[0] < 0xF5
    ensures IsContinuation(Encode(c)[1]) && IsContinuation(Encode(c)[2]) && IsContinuation(Encode(c)[3])
  {
    var n := c as int;
    DivTwice(n);
    Split(n);
    Split(n / 0x40);
    Split(n / 0x1000);
  }

  /** The bytes give the character back, the first tells their number, and only the others continue. */
  lemma DecodeOfEncode(c: char)
    ensures 1 <= |Encode(c)| <= 4 && Decode(Encode(c)) == c as int
    ensures LengthOf(Encode(c)[0]) == |Encode(c)| && !IsContinuation(Encode(c)[0])
    ensures forall i :: 0 < i < |Encode(c)| ==> IsContinuation(Encode(c)[i])
    ensures forall i :: 0 <= i < |Encode(c)| ==> 0 <= Encode(c)[i] < 0x100
  {
    var n := c as int;
    if n < 0x80 {
      assert Encode(c) == [n];
    } else if n < 0x800 {
      Two(c);
      assert |Encode(c)| == 2;
      hide Encode, Decode;
    } else if n < 0x1_0000 {
      Three(c);
      assert |Encode(c)| == 3;
      hide Encode, Decode;
    } else {
      Four(c);
      assert |Encode(c)| == 4;
      hide Encode, Decode;
    }
  }

  function Bytes(s: string): seq<int> {
    if s == "" then [] else Encode(s[0]) + Bytes(s[1..])
  }

  /** A place where a string can be cut: no character goes across it. */
  predicate IsBoundary(bytes: seq<int>, i: nat) {
    i == 0 || i == |bytes| || (i < |bytes| && !IsContinuation(bytes[i]))
  }

  lemma BytesFirst(c: char, s: string)
    ensures Bytes([c] + s) == Encode(c) + Bytes(s)
  {
    assert ([c] + s)[1..] == s;
  }

  /** The bytes of a string that is not empty do not start with a continuation. */
  lemma FirstByte(s: string)
    requires s != ""
    ensures Bytes(s) != [] && !IsContinuation(Bytes(s)[0])
  {
    DecodeOfEncode(s[0]);
    assert Bytes(s)[0] == Encode(s[0])[0];
  }
}
