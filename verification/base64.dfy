/** Base64 as the browser's `btoa` and `atob` apply it to byte strings:
    the alphabet and padding of section 4 of RFC 4648 on the way out, and
    the WHATWG "forgiving-base64 decode" on the way in (ASCII white space
    ignored, padding optional, leftover bits discarded). */
module Base64 {
  import opened Wrappers
  import opened Utf8

  /** The character of a 6-bit value. */
  function CharOf(i: int): (c: char)
    requires 0 <= i < 64
    ensures IsB64Char(c)
  {
    if i < 26 then ('A' as int + i) as char
    else if i < 52 then ('a' as int + (i - 26)) as char
    else if i < 62 then ('0' as int + (i - 52)) as char
    else if i == 62 then '+'
    else '/'
  }

  predicate IsB64Char(c: char) {
    'A' <= c <= 'Z' || 'a' <= c <= 'z' || '0' <= c <= '9' || c == '+' || c == '/'
  }

  /** The 6-bit value of an alphabet character. */
  function IndexOf(c: char): (i: int)
    requires IsB64Char(c)
    ensures 0 <= i < 64
  {
    if 'A' <= c <= 'Z' then c as int - 'A' as int
    else if 'a' <= c <= 'z' then c as int - 'a' as int + 26
    else if '0' <= c <= '9' then c as int - '0' as int + 52
    else if c == '+' then 62
    else 63
  }

  lemma IndexOfCharOf(i: int)
    requires 0 <= i < 64
    ensures IsB64Char(CharOf(i)) && IndexOf(CharOf(i)) == i
  {
  }

  /** The characters of 6-bit values. */
  function Chars(v: seq<int>): (r: string)
    requires forall i :: 0 <= i < |v| ==> 0 <= v[i] < 64
    ensures |r| == |v| && forall i :: 0 <= i < |v| ==> r[i] == CharOf(v[i])
  {
    if |v| == 0 then "" else [CharOf(v[0])] + Chars(v[1..])
  }

  /** The 6-bit values of alphabet characters. */
  function Indices(d: string): (r: seq<int>)
    requires forall i :: 0 <= i < |d| ==> IsB64Char(d[i])
    ensures |r| == |d| && forall i :: 0 <= i < |d| ==> r[i] == IndexOf(d[i])
  {
    if |d| == 0 then [] else [IndexOf(d[0])] + Indices(d[1..])
  }

  lemma IndicesChars(v: seq<int>)
    requires forall i :: 0 <= i < |v| ==> 0 <= v[i] < 64
    ensures Indices(Chars(v)) == v
  {
    forall i | 0 <= i < |v| ensures Indices(Chars(v))[i] == v[i] {
      IndexOfCharOf(v[i]);
    }
  }

  predicate Sextets(v: seq<int>) { forall i :: 0 <= i < |v| ==> 0 <= v[i] < 64 }

  // ---- btoa ----

  /** Three bytes, as four 6-bit values. */
  function Enc3(b0: Byte, b1: Byte, b2: Byte): (r: seq<int>)
    ensures |r| == 4 && Sextets(r)
  {
    var n := b0 * 65536 + b1 * 256 + b2;
    [n / 262144, (n / 4096) % 64, (n / 64) % 64, n % 64]
  }

  /** The 6-bit values of `b`, without padding: a final single byte gives
      two values and a final pair three. */
  function EncodeSextets(b: seq<Byte>): (r: seq<int>)
    ensures Sextets(r)
  {
    if |b| >= 3 then Enc3(b[0], b[1], b[2]) + EncodeSextets(b[3..])
    else if |b| == 2 then Enc3(b[0], b[1], 0)[..3]
    else if |b| == 1 then Enc3(b[0], 0, 0)[..2]
    else []
  }

  /** The padding `btoa` adds for the final group of `b`. */
  function PadOf(b: seq<Byte>): string {
    if |b| >= 3 then PadOf(b[3..]) else if |b| == 2 then "=" else if |b| == 1 then "==" else ""
  }

  /** `btoa` on a byte string. */
  function Btoa(b: seq<Byte>): string {
    Chars(EncodeSextets(b)) + PadOf(b)
  }

  /** The unpadded text never leaves remainder 1 modulo 4, and the padding
      completes it to a multiple of four. */
  lemma {:induction false} EncodedLength(b: seq<Byte>)
    ensures |EncodeSextets(b)| % 4 != 1
    ensures (|EncodeSextets(b)| + |PadOf(b)|) % 4 == 0
    ensures |PadOf(b)| > 0 ==> |EncodeSextets(b)| >= 2
    ensures |PadOf(b)| <= 2
  {
    if |b| >= 3 {
      EncodedLength(b[3..]);
      var rest := EncodeSextets(b[3..]);
      assert |EncodeSextets(b)| == |rest| + 4;
      assert (|rest| + 4) % 4 == |rest| % 4;
      assert (|rest| + 4 + |PadOf(b)|) % 4 == (|rest| + |PadOf(b)|) % 4;
    }
  }

  // ---- atob ----

  /** The ASCII white space of the WHATWG infra standard. */
  predicate IsAsciiSpace(c: char) { c == '\t' || c == '\n' || c == '\U{000C}' || c == '\r' || c == ' ' }

  function RemoveSpace(s: string): (r: string)
    ensures |r| <= |s|
  {
    if |s| == 0 then ""
    else if IsAsciiSpace(s[0]) then RemoveSpace(s[1..])
    else [s[0]] + RemoveSpace(s[1..])
  }

  /** A length that is a multiple of four loses one or two trailing "=". */
  function StripPadding(d: string): (r: string)
    ensures |r| <= |d|
  {
    if |d| % 4 == 0 && |d| >= 2 && d[|d| - 1] == '=' && d[|d| - 2] == '=' then d[..|d| - 2]
    else if |d| % 4 == 0 && |d| >= 1 && d[|d| - 1] == '=' then d[..|d| - 1]
    else d
  }

  /** Four 6-bit values, as three bytes. */
  function Dec4(i0: int, i1: int, i2: int, i3: int): (r: seq<Byte>)
    requires 0 <= i0 < 64 && 0 <= i1 < 64 && 0 <= i2 < 64 && 0 <= i3 < 64
    ensures |r| == 3
  {
    var n := i0 * 262144 + i1 * 4096 + i2 * 64 + i3;
    var hi := n / 256;
    [hi / 256, hi % 256, n % 256]
  }

  /** The bytes of 6-bit values in groups of four; a final group of two or
      three values gives one or two bytes and its spare bits are dropped. */
  function DecodeSextets(v: seq<int>): (r: seq<Byte>)
    requires Sextets(v)
  {
    if |v| >= 4 then Dec4(v[0], v[1], v[2], v[3]) + DecodeSextets(v[4..])
    else if |v| == 3 then Dec4(v[0], v[1], v[2], 0)[..2]
    else if |v| == 2 then Dec4(v[0], v[1], 0, 0)[..1]
    else []
  }

  /** `atob`; `None` where it throws. */
  function Atob(s: string): (r: Option<seq<Byte>>)
    ensures r.Some? <==>
      var d := StripPadding(RemoveSpace(s));
      |d| % 4 != 1 && forall i :: 0 <= i < |d| ==> IsB64Char(d[i])
  {
    var d := StripPadding(RemoveSpace(s));
    if |d| % 4 == 1 then None
    else if exists i :: 0 <= i < |d| && !IsB64Char(d[i]) then None
    else Some(DecodeSextets(Indices(d)))
  }

  // ---- round trip ----

  lemma Dec4Enc3(b0: Byte, b1: Byte, b2: Byte)
    ensures var e := Enc3(b0, b1, b2); Dec4(e[0], e[1], e[2], e[3]) == [b0, b1, b2]
  {
    var n := b0 * 65536 + b1 * 256 + b2;
    SixBitSplit(n);
    EightBitSplit(b0, b1, b2);
  }

  /** A 24-bit number is its four 6-bit digits. */
  lemma SixBitSplit(n: int)
    requires 0 <= n < 16777216
    ensures n / 262144 * 262144 + (n / 4096) % 64 * 4096 + (n / 64) % 64 * 64 + n % 64 == n
  {
    var q := n / 64;
    var p := q / 64;
    assert n == q * 64 + n % 64;
    assert q == p * 64 + q % 64;
    assert p == (p / 64) * 64 + p % 64;
    assert p == n / 4096 && p / 64 == n / 262144;
  }

  /** A 24-bit number built from three bytes gives them back. */
  lemma EightBitSplit(b0: Byte, b1: Byte, b2: Byte)
    ensures var n := b0 * 65536 + b1 * 256 + b2; (n / 256) / 256 == b0 && (n / 256) % 256 == b1 && n % 256 == b2
  {
    var n := b0 * 65536 + b1 * 256 + b2;
    assert n == (b0 * 256 + b1) * 256 + b2;
    DivBy256(b0 * 256 + b1, b2);
    DivBy256(b0, b1);
  }

  /** The fourth value only affects the third byte. */
  lemma LastValueIgnored(i0: int, i1: int, i2: int, i3: int)
    requires 0 <= i0 < 64 && 0 <= i1 < 64 && 0 <= i2 < 64 && 0 <= i3 < 64
    ensures Dec4(i0, i1, i2, i3)[..2] == Dec4(i0, i1, i2, 0)[..2]
  {
    var m := i0 * 1024 + i1 * 16 + i2 / 4;
    assert i0 * 262144 + i1 * 4096 + i2 * 64 + i3 == m * 256 + ((i2 % 4) * 64 + i3);
    assert i0 * 262144 + i1 * 4096 + i2 * 64 == m * 256 + (i2 % 4) * 64;
    DivBy256(m, (i2 % 4) * 64 + i3);
    DivBy256(m, (i2 % 4) * 64);
  }

  /** The last two values only affect the bytes after the first. */
  lemma LastTwoValuesIgnored(i0: int, i1: int, i2: int, i3: int)
    requires 0 <= i0 < 64 && 0 <= i1 < 64 && 0 <= i2 < 64 && 0 <= i3 < 64
    ensures Dec4(i0, i1, i2, i3)[..1] == Dec4(i0, i1, 0, 0)[..1]
  {
    var m := i0 * 4 + i1 / 16;
    var r := (i1 % 16) * 16 + i2 / 4;
    assert i0 * 262144 + i1 * 4096 + i2 * 64 + i3 == (m * 256 + r) * 256 + ((i2 % 4) * 64 + i3);
    assert i0 * 262144 + i1 * 4096 == (m * 256 + (i1 % 16) * 16) * 256;
    DivBy256(m * 256 + r, (i2 % 4) * 64 + i3);
    DivBy256(m * 256 + (i1 % 16) * 16, 0);
    DivBy256(m, r);
    DivBy256(m, (i1 % 16) * 16);
  }

  lemma DivBy256(q: int, r: int)
    requires 0 <= r < 256
    ensures (q * 256 + r) / 256 == q
  {
  }

  lemma {:induction false} DecodeEncodeSextets(b: seq<Byte>)
    ensures DecodeSextets(EncodeSextets(b)) == b
  {
    if |b| >= 3 {
      var e := Enc3(b[0], b[1], b[2]);
      var rest := EncodeSextets(b[3..]);
      Dec4Enc3(b[0], b[1], b[2]);
      var g := e + rest;
      assert g[..4] == e && g[4..] == rest;
      DecodeEncodeSextets(b[3..]);
      assert b == [b[0], b[1], b[2]] + b[3..];
    } else if |b| == 2 {
      var e := Enc3(b[0], b[1], 0);
      Dec4Enc3(b[0], b[1], 0);
      LastValueIgnored(e[0], e[1], e[2], e[3]);
    } else if |b| == 1 {
      var e := Enc3(b[0], 0, 0);
      Dec4Enc3(b[0], 0, 0);
      LastTwoValuesIgnored(e[0], e[1], e[2], e[3]);
    }
  }

  lemma {:induction false} RemoveSpaceOfAlphabet(s: string)
    requires forall i :: 0 <= i < |s| ==> IsB64Char(s[i]) || s[i] == '='
    ensures RemoveSpace(s) == s
  {
    if |s| > 0 {
      RemoveSpaceOfAlphabet(s[1..]);
    }
  }

  /** Removing white space and padding from `btoa`'s output leaves the
      alphabet characters. */
  lemma StripBtoa(b: seq<Byte>)
    ensures StripPadding(RemoveSpace(Btoa(b))) == Chars(EncodeSextets(b))
  {
    var g := Chars(EncodeSextets(b));
    var pad := PadOf(b);
    EncodedLength(b);
    PadShape(b);
    StripPaddingOf(g, pad);
  }

  lemma StripPaddingOf(g: string, pad: string)
    requires forall i :: 0 <= i < |g| ==> IsB64Char(g[i])
    requires pad == "" || pad == "=" || pad == "=="
    requires (|g| + |pad|) % 4 == 0 && (|pad| > 0 ==> |g| >= 2)
    ensures StripPadding(RemoveSpace(g + pad)) == g
  {
    var s := g + pad;
    forall i | 0 <= i < |s| ensures IsB64Char(s[i]) || s[i] == '=' {
      if i < |g| { assert s[i] == g[i]; } else { assert s[i] == pad[i - |g|]; }
    }
    RemoveSpaceOfAlphabet(s);
    if |pad| == 2 {
      assert s[..|s| - 2] == g;
    } else if |pad| == 1 {
      assert s[..|s| - 1] == g;
      assert s[|s| - 2] == g[|g| - 1];
    } else {
      assert s == g;
      if |g| >= 1 { assert IsB64Char(g[|g| - 1]); }
    }
  }

  lemma {:induction false} PadShape(b: seq<Byte>)
    ensures PadOf(b) == "" || PadOf(b) == "=" || PadOf(b) == "=="
  {
    if |b| >= 3 { PadShape(b[3..]); }
  }

  /** `atob` undoes `btoa`. */
  lemma AtobBtoa(b: seq<Byte>)
    ensures Atob(Btoa(b)) == Some(b)
  {
    var v := EncodeSextets(b);
    StripBtoa(b);
    EncodedLength(b);
    IndicesChars(v);
    DecodeEncodeSextets(b);
  }

  /** Input whose length leaves remainder 1 after padding is removed is
      refused, as is any character outside the alphabet. */
  lemma AtobRejects()
    ensures Atob("A").None?
    ensures Atob("AB*=").None?
  {
    assert StripPadding(RemoveSpace("AB*=")) == "AB*" by {
      assert RemoveSpace("AB*=") == "AB*=";
    }
    assert !IsB64Char("AB*"[2]);
  }
}
