/** UTF-8 as the browser's `TextEncoder` and `TextDecoder` use it: the
    encoder of section 3 of RFC 3629 and the WHATWG decoder, which replaces
    each ill-formed piece by U+FFFD instead of failing. Strings here are
    sequences of Unicode scalar values. */
module Utf8 {
  /** A byte as a number. */
  type Byte = b: int | 0 <= b < 256

  /** A continuation byte `10xxxxxx`. */
  predicate IsCont(b: Byte) { 0x80 <= b <= 0xBF }

  /** The UTF-8 bytes of one character. */
  function EncodeChar(c: char): (r: seq<Byte>)
    ensures 1 <= |r| <= 4
  {
    var v := c as int;
    if v < 0x80 then [v]
    else if v < 0x800 then [0xC0 + v / 64, 0x80 + v % 64]
    else if v < 0x10000 then [0xE0 + v / 4096, 0x80 + (v / 64) % 64, 0x80 + v % 64]
    else [0xF0 + v / 262144, 0x80 + (v / 4096) % 64, 0x80 + (v / 64) % 64, 0x80 + v % 64]
  }

  /** `new TextEncoder().encode(s)` */
  function Encode(s: string): (r: seq<Byte>)
    ensures |s| <= |r| <= 4 * |s|
  {
    if |s| == 0 then [] else EncodeChar(s[0]) + Encode(s[1..])
  }

  const Replacement: char := '\U{FFFD}'

  /** The code point made of a lead-byte payload and continuation bytes. */
  function Assemble2(x: int, b1: Byte): int { x * 64 + (b1 - 0x80) }
  function Assemble3(x: int, b1: Byte, b2: Byte): int { x * 4096 + (b1 - 0x80) * 64 + (b2 - 0x80) }
  function Assemble4(x: int, b1: Byte, b2: Byte, b3: Byte): int {
    x * 262144 + (b1 - 0x80) * 4096 + (b2 - 0x80) * 64 + (b3 - 0x80)
  }

  /** The first character `TextDecoder` reads from `b`, and how many bytes
      it consumes: a lead byte with its continuation bytes in range, or
      U+FFFD for the lead byte and the continuation bytes read before the
      sequence broke off. The byte that breaks a sequence starts the next
      one. */
  function Step(b: seq<Byte>): (r: (char, nat))
    requires |b| > 0
    ensures 1 <= r.1 <= |b| && r.1 <= 4
  {
    var b0 := b[0];
    if b0 < 0x80 then (b0 as char, 1)
    else if 0xC2 <= b0 <= 0xDF then
      if |b| > 1 && IsCont(b[1]) then
        var cp := Assemble2(b0 - 0xC0, b[1]);
        assert 0x80 <= cp < 0x800;
        (cp as char, 2)
      else (Replacement, 1)
    else if 0xE0 <= b0 <= 0xEF then
      var lower := if b0 == 0xE0 then 0xA0 else 0x80;
      var upper := if b0 == 0xED then 0x9F else 0xBF;
      if |b| > 1 && lower <= b[1] <= upper then
        if |b| > 2 && IsCont(b[2]) then
          var cp := Assemble3(b0 - 0xE0, b[1], b[2]);
          Assemble3Range(b0 - 0xE0, b[1], b[2]);
          (cp as char, 3)
        else (Replacement, 2)
      else (Replacement, 1)
    else if 0xF0 <= b0 <= 0xF4 then
      var lower := if b0 == 0xF0 then 0x90 else 0x80;
      var upper := if b0 == 0xF4 then 0x8F else 0xBF;
      if |b| > 1 && lower <= b[1] <= upper then
        if |b| > 2 && IsCont(b[2]) then
          if |b| > 3 && IsCont(b[3]) then
            var cp := Assemble4(b0 - 0xF0, b[1], b[2], b[3]);
            Assemble4Range(b0 - 0xF0, b[1], b[2], b[3]);
            (cp as char, 4)
          else (Replacement, 3)
        else (Replacement, 2)
      else (Replacement, 1)
    else (Replacement, 1)
  }

  /** A three-byte sequence in the ranges the decoder accepts is a scalar
      value of at least U+0800 outside the surrogates. */
  lemma Assemble3Range(x: int, b1: Byte, b2: Byte)
    requires 0 <= x <= 15 && IsCont(b1) && IsCont(b2)
    requires x == 0 ==> b1 >= 0xA0
    requires x == 13 ==> b1 <= 0x9F
    ensures var cp := Assemble3(x, b1, b2); 0x800 <= cp < 0xD800 || 0xE000 <= cp < 0x10000
  {
    var cp := Assemble3(x, b1, b2);
    assert x * 4096 <= cp < x * 4096 + 4096;
    if x == 0 { assert cp >= 0x800; }
    if x == 13 { assert cp < 0xD800; }
  }

  /** A four-byte sequence in the ranges the decoder accepts lies between
      U+10000 and U+10FFFF. */
  lemma Assemble4Range(x: int, b1: Byte, b2: Byte, b3: Byte)
    requires 0 <= x <= 4 && IsCont(b1) && IsCont(b2) && IsCont(b3)
    requires x == 0 ==> b1 >= 0x90
    requires x == 4 ==> b1 <= 0x8F
    ensures 0x10000 <= Assemble4(x, b1, b2, b3) < 0x110000
  {
    var cp := Assemble4(x, b1, b2, b3);
    var low := (b2 - 0x80) * 64 + (b3 - 0x80);
    assert 0 <= low < 4096;
    assert cp == x * 262144 + (b1 - 0x80) * 4096 + low;
  }

  /** The WHATWG "UTF-8 decode without BOM" of `b`: never fails. */
  function DecodeBody(b: seq<Byte>): (r: string)
    ensures |r| <= |b|
    decreases |b|
  {
    if |b| == 0 then []
    else
      var (c, k) := Step(b);
      [c] + DecodeBody(b[k..])
  }

  /** The byte order mark U+FEFF and its three UTF-8 bytes. */
  const Bom: char := '\U{FEFF}'
  const BomBytes: seq<Byte> := [0xEF, 0xBB, 0xBF]

  /** `new TextDecoder().decode(b)`: `ignoreBOM` is false by default, so
      three leading bytes EF BB BF are dropped before decoding. */
  function Decode(b: seq<Byte>): (r: string)
    ensures |b| >= 3 && b[..3] == BomBytes ==> r == DecodeBody(b[3..])
    ensures !(|b| >= 3 && b[..3] == BomBytes) ==> r == DecodeBody(b)
  {
    if |b| >= 3 && b[..3] == BomBytes then DecodeBody(b[3..]) else DecodeBody(b)
  }

  /** `s` without one leading U+FEFF. */
  function StripBom(s: string): (r: string)
    ensures |s| > 0 && s[0] == Bom ==> r == s[1..]
    ensures (|s| == 0 || s[0] != Bom) ==> r == s
  {
    if |s| > 0 && s[0] == Bom then s[1..] else s
  }

  /** The bytes of a character, followed by anything, decode to that
      character first. */
  lemma StepEncodeChar(c: char, rest: seq<Byte>)
    ensures Step(EncodeChar(c) + rest) == (c, |EncodeChar(c)|)
  {
    var v := c as int;
    var e := EncodeChar(c);
    var b := e + rest;
    if v < 0x80 {
    } else if v < 0x800 {
      assert b[0] == 0xC0 + v / 64 && b[1] == 0x80 + v % 64;
      assert Assemble2(v / 64, b[1]) == v;
    } else if v < 0x10000 {
      assert b[0] == 0xE0 + v / 4096 && b[1] == 0x80 + (v / 64) % 64 && b[2] == 0x80 + v % 64;
      Split3(v);
    } else {
      assert b[0] == 0xF0 + v / 262144 && b[1] == 0x80 + (v / 4096) % 64;
      assert b[2] == 0x80 + (v / 64) % 64 && b[3] == 0x80 + v % 64;
      Split4(v);
    }
  }

  lemma Split3(v: int)
    requires 0x800 <= v < 0x10000 && !(0xD800 <= v < 0xE000)
    ensures var x := v / 4096;
      0 <= x <= 15 && (x == 0 ==> 0x80 + (v / 64) % 64 >= 0xA0) && (x == 13 ==> 0x80 + (v / 64) % 64 <= 0x9F)
      && Assemble3(x, 0x80 + (v / 64) % 64, 0x80 + v % 64) == v
  {
    var q := v / 64;
    assert v == q * 64 + v % 64;
    assert q == (q / 64) * 64 + q % 64;
    assert q / 64 == v / 4096;
  }

  lemma Split4(v: int)
    requires 0x10000 <= v < 0x110000
    ensures var x := v / 262144;
      0 <= x <= 4 && (x == 0 ==> 0x80 + (v / 4096) % 64 >= 0x90) && (x == 4 ==> 0x80 + (v / 4096) % 64 <= 0x8F)
      && Assemble4(x, 0x80 + (v / 4096) % 64, 0x80 + (v / 64) % 64, 0x80 + v % 64) == v
  {
    var q := v / 64;
    var p := q / 64;
    assert v == q * 64 + v % 64;
    assert q == p * 64 + q % 64;
    assert p == (p / 64) * 64 + p % 64;
    assert p == v / 4096 && p / 64 == v / 262144;
    assert q % 64 == (v / 64) % 64;
  }

  /** The decoder without BOM handling undoes `TextEncoder`. */
  lemma {:induction false} DecodeBodyEncode(s: string)
    ensures DecodeBody(Encode(s)) == s
  {
    if |s| > 0 {
      var e := EncodeChar(s[0]);
      StepEncodeChar(s[0], Encode(s[1..]));
      assert (e + Encode(s[1..]))[|e|..] == Encode(s[1..]);
      DecodeBodyEncode(s[1..]);
    }
  }

  /** The encoding of a text starts with the BOM bytes exactly when the
      text starts with U+FEFF. */
  lemma EncodeStartsWithBom(s: string)
    ensures (|Encode(s)| >= 3 && Encode(s)[..3] == BomBytes) <==> (|s| > 0 && s[0] == Bom)
  {
    assert EncodeChar(Bom) == BomBytes;
    if |s| > 0 {
      var e := Encode(s);
      assert e == EncodeChar(s[0]) + Encode(s[1..]);
      StepEncodeChar(s[0], Encode(s[1..]));
      if |e| >= 3 && e[..3] == BomBytes {
        assert e == BomBytes + e[3..];
        StepEncodeChar(Bom, e[3..]);
      }
    }
  }

  /** `new TextDecoder().decode(new TextEncoder().encode(s))`: the text
      comes back unchanged, except that a leading U+FEFF is taken for a
      byte order mark and dropped. */
  lemma DecodeEncode(s: string)
    ensures Decode(Encode(s)) == StripBom(s)
    ensures |s| == 0 || s[0] != Bom ==> Decode(Encode(s)) == s
  {
    EncodeStartsWithBom(s);
    if |s| > 0 && s[0] == Bom {
      assert Encode(s) == BomBytes + Encode(s[1..]);
      assert Encode(s)[3..] == Encode(s[1..]);
      DecodeBodyEncode(s[1..]);
    } else {
      DecodeBodyEncode(s);
    }
  }

  /** A lone continuation byte, or a truncated sequence, reads as U+FFFD. */
  lemma IllFormedReplaced()
    ensures Decode([0x80]) == [Replacement]
    ensures Decode([0xE2, 0x82]) == [Replacement]
    ensures Decode([0xC3, 0x41]) == [Replacement, 'A']
  {
    assert Step([0xE2, 0x82]) == (Replacement, 2);
    assert [0xE2, 0x82][2..] == [];
    assert Step([0xC3, 0x41]) == (Replacement, 1);
    assert [0xC3, 0x41][1..] == [0x41];
    assert DecodeBody([0x41]) == [0x41 as char] + DecodeBody([]);
  }

  /** A leading byte order mark is dropped once; a second one, or one
      further in, is kept as U+FEFF. */
  lemma BomDropped()
    ensures Decode([0xEF, 0xBB, 0xBF, 0x41]) == "A"
    ensures Decode([0xEF, 0xBB, 0xBF, 0xEF, 0xBB, 0xBF]) == [Bom]
    ensures Decode([0x41, 0xEF, 0xBB, 0xBF]) == ['A', Bom]
  {
    assert [0xEF, 0xBB, 0xBF, 0x41][3..] == [0x41];
    assert DecodeBody([0x41]) == [0x41 as char] + DecodeBody([]);
    assert [0xEF, 0xBB, 0xBF, 0xEF, 0xBB, 0xBF][3..] == BomBytes;
    StepEncodeChar(Bom, []);
    assert EncodeChar(Bom) == BomBytes;
    assert BomBytes + [] == BomBytes;
    assert BomBytes[3..] == [];
    var t: seq<Byte> := [0x41, 0xEF, 0xBB, 0xBF];
    assert t[1..] == BomBytes;
    assert DecodeBody(BomBytes) == [Bom];
  }
}
