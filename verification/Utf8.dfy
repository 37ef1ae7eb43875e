/**
  Validation of UTF-8, against the encoding of Unicode scalar values in section 3 of RFC 3629.
 */
module Utf8 {
  import opened Bytes

  /** Code points without the surrogates. */
  ghost predicate IsScalar(v: int) {
    0 <= v < 0xd800 || 0xe000 <= v < 0x110000
  }

  ghost function EncodeScalar(v: int): seq<Byte>
    requires IsScalar(v)
  {
    if v < 0x80 then [v]
    else if v < 0x800 then [0xc0 + v / 64, 0x80 + v % 64]
    else if v < 0x10000 then [0xe0 + v / 4096, 0x80 + v / 64 % 64, 0x80 + v % 64]
    else [0xf0 + v / 262144, 0x80 + v / 4096 % 64, 0x80 + v / 64 % 64, 0x80 + v % 64]
  }

  ghost predicate AllScalars(text: seq<int>) {
    forall k :: 0 <= k < |text| ==> IsScalar(text[k])
  }

  ghost function Encode(text: seq<int>): seq<Byte>
    requires AllScalars(text)
  {
    if text == [] then [] else EncodeScalar(text[0]) + Encode(text[1..])
  }

  /** The bytes are the encoding of some text. */
  ghost predicate WellFormed(s: seq<Byte>) {
    exists text :: AllScalars(text) && Encode(text) == s
  }

  predicate IsTrailByte(t: Byte) {
    0x80 <= t <= 0xbf
  }

  // ---------------------------------------------------------------- one character

  /** The first n bytes of s form one character, as the validator tests it. */
  ghost predicate StartsWithCharacter(s: seq<Byte>, n: nat) {
    && n <= |s|
    && match n
       case 1 => s[0] <= 0x7f
       case 2 => 0xc2 <= s[0] <= 0xdf && IsTrailByte(s[1])
       case 3 => 0xe0 <= s[0] <= 0xef && IsTrailByte(s[1]) && IsTrailByte(s[2])
                 && (s[0] == 0xe0 ==> s[1] >= 0xa0) && (s[0] == 0xed ==> s[1] < 0xa0)
       case 4 => 0xf0 <= s[0] <= 0xf4 && IsTrailByte(s[1]) && IsTrailByte(s[2]) && IsTrailByte(s[3])
                 && (s[0] == 0xf0 ==> s[1] >= 0x90) && (s[0] == 0xf4 ==> s[1] < 0x90)
       case _ => false
  }

  /** Encoded scalars pass the test for their length. */
  lemma {:induction false} EncodedIsCharacter(v: int, rest: seq<Byte>)
    requires IsScalar(v)
    ensures StartsWithCharacter(EncodeScalar(v) + rest, |EncodeScalar(v)|)
  {
    if 0x800 <= v < 0x10000 {
      Digits(v, v / 64, v / 4096);
    } else if v >= 0x10000 {
      Digits(v, v / 64, v / 4096);
      Digits(v / 64, v / 4096, v / 262144);
    }
  }

  /** Base-64 digits of a number. */
  lemma {:induction false} Digits(v: int, q: int, r: int)
    requires v >= 0 && q == v / 64 && r == v / 4096
    ensures r == q / 64 && v == r * 4096 + q % 64 * 64 + v % 64
  {
  }

  /** Bytes that pass the test are the encoding of a scalar. */
  lemma {:induction false} CharacterIsEncoded(s: seq<Byte>, n: nat) returns (v: int)
    requires StartsWithCharacter(s, n)
    ensures IsScalar(v) && EncodeScalar(v) == s[..n]
  {
    if n == 1 {
      v := s[0];
      assert s[..1] == [s[0]];
    } else if n == 2 {
      v := Compose(s[0] - 0xc0, s[1] - 0x80);
      assert s[..2] == [s[0], s[1]];
    } else if n == 3 {
      var u := Compose(s[0] - 0xe0, s[1] - 0x80);
      v := Compose(u, s[2] - 0x80);
      assert v / 4096 == s[0] - 0xe0;
      assert s[..3] == [s[0], s[1], s[2]];
    } else {
      var t := Compose(s[0] - 0xf0, s[1] - 0x80);
      var u := Compose(t, s[2] - 0x80);
      v := Compose(u, s[3] - 0x80);
      assert v / 4096 == t && v / 262144 == s[0] - 0xf0;
      assert s[..4] == [s[0], s[1], s[2], s[3]];
    }
  }

  lemma {:induction false} Compose(high: int, low: int) returns (v: int)
    requires 0 <= high && 0 <= low < 64
    ensures v == high * 64 + low && v / 64 == high && v % 64 == low
  {
    v := high * 64 + low;
  }

  // ---------------------------------------------------------------- strings

  /** A string is well formed exactly when the rest behind its first character is. */
  lemma {:induction false} PeelCharacter(s: seq<Byte>, n: nat)
    requires StartsWithCharacter(s, n)
    ensures WellFormed(s) <==> WellFormed(s[n..])
  {
    if WellFormed(s) {
      var text :| AllScalars(text) && Encode(text) == s;
      EncodedIsCharacter(text[0], Encode(text[1..]));
      assert |EncodeScalar(text[0])| == n;
      assert s[n..] == Encode(text[1..]);
      assert AllScalars(text[1..]);
    }
    if WellFormed(s[n..]) {
      var text :| AllScalars(text) && Encode(text) == s[n..];
      var v := CharacterIsEncoded(s, n);
      var more := [v] + text;
      assert more[1..] == text;
      assert Encode(more) == s[..n] + s[n..] == s;
    }
  }

  /** A non-empty string that starts with no character is not well formed. */
  lemma {:induction false} NoCharacter(s: seq<Byte>)
    requires s != []
    requires forall n :: 1 <= n <= 4 ==> !StartsWithCharacter(s, n)
    ensures !WellFormed(s)
  {
    forall text | AllScalars(text) && text != []
      ensures Encode(text) != s
    {
      EncodedIsCharacter(text[0], Encode(text[1..]));
      assert 1 <= |EncodeScalar(text[0])| <= 4;
    }
  }

  /** Accepts exactly the encodings of sequences of scalar values; no read is outside the string. */
  method IsValidUtf8(s: seq<Byte>) returns (valid: bool)
    ensures valid <==> WellFormed(s)
  {
    var i := 0;
    assert s[0..] == s;
    while i < |s|
      invariant 0 <= i <= |s|
      invariant WellFormed(s) <==> WellFormed(s[i..])
    {
      ghost var rest := s[i..];
      var lead := s[i];
      i := i + 1;
      if lead <= 0x7f {
        PeelCharacter(rest, 1);
        assert rest[1..] == s[i..];
        continue;
      }
      if lead < 0xc2 {
        NoCharacter(rest);
        return false;
      } else if lead <= 0xdf && i + 1 <= |s| && IsTrailByte(s[i]) {
        PeelCharacter(rest, 2);
        assert rest[2..] == s[i + 1..];
        i := i + 1;
      } else if 0xe0 <= lead <= 0xef && i + 2 <= |s| && IsTrailByte(s[i]) && IsTrailByte(s[i + 1])
                && (lead != 0xe0 || s[i] >= 0xa0) && (lead != 0xed || s[i] < 0xa0) {
        PeelCharacter(rest, 3);
        assert rest[3..] == s[i + 2..];
        i := i + 2;
      } else if 0xf0 <= lead <= 0xf4 && i + 3 <= |s| && IsTrailByte(s[i]) && IsTrailByte(s[i + 1]) && IsTrailByte(s[i + 2])
                && (lead != 0xf0 || s[i] >= 0x90) && (lead != 0xf4 || s[i] < 0x90) {
        PeelCharacter(rest, 4);
        assert rest[4..] == s[i + 3..];
        i := i + 3;
      } else {
        NoCharacter(rest);
        return false;
      }
    }
    assert Encode([]) == s[i..];
    return true;
  }
}
