/**
  Well-formed UTF-8, which `sys_write` demands of what it prints (os/src/syscall/io.rs).

  `ValidUtf8` is the grammar of section 4 of RFC 3629.  The encoding of section 3 is the
  independent definition that it is proved against.
 */
module Utf8 {
  import opened Pte

  predicate Tail(b: byte) {
    0x80 <= b <= 0xBF
  }

  /** The length of the well-formed sequence at the start of `s`, or 0 if there is none. */
  function CharLength(s: seq<byte>): (n: nat)
    ensures n <= |s| && n <= 4
  {
    if |s| >= 1 && s[0] <= 0x7F then 1
    else if |s| >= 2 && 0xC2 <= s[0] <= 0xDF && Tail(s[1]) then 2
    else if |s| >= 3 && 0xE0 <= s[0] <= 0xEF && SecondOf3(s[0], s[1]) && Tail(s[2]) then 3
    else if |s| >= 4 && 0xF0 <= s[0] <= 0xF4 && SecondOf4(s[0], s[1]) && Tail(s[2]) && Tail(s[3]) then 4
    else 0
  }

  /** No overlong forms and no surrogates. */
  predicate SecondOf3(first: byte, second: byte) {
    Tail(second) && (first == 0xE0 ==> second >= 0xA0) && (first == 0xED ==> second <= 0x9F)
  }

  /** No overlong forms and nothing above U+10FFFF. */
  predicate SecondOf4(first: byte, second: byte) {
    Tail(second) && (first == 0xF0 ==> second >= 0x90) && (first == 0xF4 ==> second <= 0x8F)
  }

  predicate ValidUtf8(s: seq<byte>) {
    s == [] || (CharLength(s) > 0 && ValidUtf8(s[CharLength(s)..]))
  }

  /** The forms of section 4 of RFC 3629, byte by byte. */
  lemma Forms(s: seq<byte>)
    requires s != []
    ensures ValidUtf8(s) <==>
            || (s[0] <= 0x7F && ValidUtf8(s[1..]))
            || (|s| >= 2 && 0xC2 <= s[0] <= 0xDF && 0x80 <= s[1] <= 0xBF && ValidUtf8(s[2..]))
            || (|s| >= 3 && 0x80 <= s[2] <= 0xBF && ValidUtf8(s[3..])
                && (|| (s[0] == 0xE0 && 0xA0 <= s[1] <= 0xBF) || (0xE1 <= s[0] <= 0xEC && 0x80 <= s[1] <= 0xBF)
                    || (s[0] == 0xED && 0x80 <= s[1] <= 0x9F) || (0xEE <= s[0] <= 0xEF && 0x80 <= s[1] <= 0xBF)))
            || (|s| >= 4 && 0x80 <= s[2] <= 0xBF && 0x80 <= s[3] <= 0xBF && ValidUtf8(s[4..])
                && (|| (s[0] == 0xF0 && 0x90 <= s[1] <= 0xBF) || (0xF1 <= s[0] <= 0xF3 && 0x80 <= s[1] <= 0xBF)
                    || (s[0] == 0xF4 && 0x80 <= s[1] <= 0x8F)))
  {
  }

  /** A code point that is not a surrogate. */
  predicate Scalar(c: nat) {
    c < 0xD800 || 0xDFFF < c <= 0x10FFFF
  }

  function Encode(c: nat): (s: seq<byte>)
    requires Scalar(c)
    ensures |s| > 0
  {
    if c < 0x80 then [c]
    else if c < 0x800 then [0xC0 + c / 64, 0x80 + c % 64]
    else if c < 0x1_0000 then [0xE0 + c / 64 / 64, 0x80 + c / 64 % 64, 0x80 + c % 64]
    else [0xF0 + c / 64 / 64 / 64, 0x80 + c / 64 / 64 % 64, 0x80 + c / 64 % 64, 0x80 + c % 64]
  }

  predicate AllScalar(cs: seq<nat>) {
    forall i :: 0 <= i < |cs| ==> Scalar(cs[i])
  }

  function EncodeAll(cs: seq<nat>): seq<byte>
    requires AllScalar(cs)
  {
    if cs == [] then [] else Encode(cs[0]) + EncodeAll(cs[1..])
  }

  /** The encoding of a code point is a well-formed sequence, whatever follows. */
  lemma EncodedLength(c: nat, rest: seq<byte>)
    requires Scalar(c)
    ensures CharLength(Encode(c) + rest) == |Encode(c)|
  {
  }

  lemma {:induction false} EncodedIsValid(cs: seq<nat>)
    requires AllScalar(cs)
    ensures ValidUtf8(EncodeAll(cs))
  {
    if cs != [] {
      EncodedIsValid(cs[1..]);
      EncodedLength(cs[0], EncodeAll(cs[1..]));
      assert (Encode(cs[0]) + EncodeAll(cs[1..]))[|Encode(cs[0])|..] == EncodeAll(cs[1..]);
    }
  }

  lemma Digit(high: nat, low: nat)
    requires low < 64
    ensures (high * 64 + low) / 64 == high && (high * 64 + low) % 64 == low
  {
  }

  /** Every well-formed sequence encodes a code point. */
  lemma FirstChar(s: seq<byte>) returns (c: nat)
    requires CharLength(s) > 0
    ensures Scalar(c) && Encode(c) == s[..CharLength(s)]
  {
    var n := CharLength(s);
    if n == 1 {
      c := s[0];
    } else if n == 2 {
      c := Joined(s[0] - 0xC0, s[1]);
    } else if n == 3 {
      var high := Joined(s[0] - 0xE0, s[1]);
      c := Joined(high, s[2]);
    } else {
      var top := Joined(s[0] - 0xF0, s[1]);
      var high := Joined(top, s[2]);
      c := Joined(high, s[3]);
    }
  }

  lemma Joined(high: nat, tail: byte) returns (c: nat)
    requires Tail(tail)
    ensures c == high * 64 + (tail - 0x80) && c / 64 == high && 0x80 + c % 64 == tail
  {
    Digit(high, tail - 0x80);
    c := high * 64 + (tail - 0x80);
  }

  lemma {:induction false} ValidIsEncoded(s: seq<byte>) returns (cs: seq<nat>)
    requires ValidUtf8(s)
    ensures AllScalar(cs) && EncodeAll(cs) == s
  {
    if s == [] {
      cs := [];
    } else {
      var c := FirstChar(s);
      var rest := ValidIsEncoded(s[CharLength(s)..]);
      cs := [c] + rest;
      assert cs[1..] == rest;
      assert s == s[..CharLength(s)] + s[CharLength(s)..];
    }
  }

  /** The bytes that pass are exactly the encodings of sequences of code points. */
  lemma ValidIffEncoded(s: seq<byte>)
    ensures ValidUtf8(s) <==> exists cs :: AllScalar(cs) && EncodeAll(cs) == s
  {
    if ValidUtf8(s) {
      var cs := ValidIsEncoded(s);
    }
    if cs :| AllScalar(cs) && EncodeAll(cs) == s {
      EncodedIsValid(cs);
    }
  }
}
