/** The remembered credentials of `lib/services/credentials.ts`: the login
    body is stored under one `localStorage` key as JSON, its UTF-8 bytes
    XORed with 0x5A and then Base64-encoded. The storage slot is passed in
    and handed back, and whether a browser `window` exists is a
    parameter. */
module Credentials {
  import opened Wrappers
  import Utf8
  import Base64
  import JsonText
  import Assoc
  import opened FaltasTypes

  type StoredCreds = LoginBody

  /** The `localStorage` key. */
  const WebKey: string := "faltas.rememberedCreds"

  const Key: nat := 0x5A

  /** `a ^ b` on non-negative integers, bit by bit from the lowest. */
  function BitXor(a: nat, b: nat): nat
    decreases a + b
  {
    if a == 0 && b == 0 then 0 else 2 * BitXor(a / 2, b / 2) + (a % 2 + b % 2) % 2
  }

  /** A number is twice its upper bits plus its lowest bit. */
  lemma HalfAndBit(h: nat, bit: nat)
    requires bit < 2
    ensures (2 * h + bit) / 2 == h && (2 * h + bit) % 2 == bit
  {
  }

  /** XOR with zero changes nothing. */
  lemma {:induction false} BitXorZero(a: nat)
    ensures BitXor(a, 0) == a
  {
    if a != 0 {
      BitXorZero(a / 2);
    }
  }

  /** XOR with the same value twice gives the value back. */
  lemma {:induction false} BitXorTwice(a: nat, k: nat)
    ensures BitXor(BitXor(a, k), k) == a
    decreases a + k
  {
    if k == 0 {
      BitXorZero(a);
      BitXorZero(a);
    } else {
      var h := BitXor(a / 2, k / 2);
      var bit := (a % 2 + k % 2) % 2;
      var x := 2 * h + bit;
      assert BitXor(a, k) == x;
      HalfAndBit(h, bit);
      BitXorTwice(a / 2, k / 2);
      assert BitXor(x, k) == 2 * BitXor(h, k / 2) + (bit + k % 2) % 2;
    }
  }

  /** Only XOR with zero leaves a value unchanged. */
  lemma {:induction false} BitXorFixed(a: nat, k: nat)
    requires BitXor(a, k) == a
    ensures k == 0
    decreases a + k
  {
    if a != 0 || k != 0 {
      var h := BitXor(a / 2, k / 2);
      assert 2 * h + (a % 2 + k % 2) % 2 == a;
      assert h == a / 2 && k % 2 == 0;
      BitXorFixed(a / 2, k / 2);
    }
  }

  /** XOR of two numbers below `2^n` stays below `2^n`. */
  lemma {:induction false} BitXorBelow(a: nat, b: nat, n: nat)
    requires a < Pow2(n) && b < Pow2(n)
    ensures BitXor(a, b) < Pow2(n)
  {
    if n > 0 && (a != 0 || b != 0) {
      BitXorBelow(a / 2, b / 2, n - 1);
    }
  }

  function Pow2(n: nat): (r: nat)
    ensures r >= 1
  {
    if n == 0 then 1 else 2 * Pow2(n - 1)
  }

  /** `b ^ 0x5a` on one byte. */
  function XorByte(b: Utf8.Byte): (r: Utf8.Byte)
    ensures r != b
  {
    XorKeyByte(b);
    BitXor(b, Key)
  }

  /** XOR with the key keeps a byte a byte and always changes it. */
  lemma XorKeyByte(b: Utf8.Byte)
    ensures BitXor(b, Key) < 256 && BitXor(b, Key) != b
  {
    assert Pow2(8) == 256;
    BitXorBelow(b, Key, 8);
    if BitXor(b, Key) == b {
      BitXorFixed(b, Key);
    }
  }

  /** XOR with the fixed key undoes itself. */
  lemma XorByteTwice(b: Utf8.Byte)
    ensures XorByte(XorByte(b)) == b
  {
    BitXorTwice(b, Key);
  }

  function XorAll(bs: seq<Utf8.Byte>): (r: seq<Utf8.Byte>)
    ensures |r| == |bs| && forall i :: 0 <= i < |bs| ==> r[i] == XorByte(bs[i])
  {
    if |bs| == 0 then [] else [XorByte(bs[0])] + XorAll(bs[1..])
  }

  lemma {:induction false} XorAllTwice(bs: seq<Utf8.Byte>)
    ensures XorAll(XorAll(bs)) == bs
  {
    if |bs| > 0 {
      XorByteTwice(bs[0]);
      assert XorAll(bs)[1..] == XorAll(bs[1..]);
      XorAllTwice(bs[1..]);
    }
  }

  /** `obfuscate(text)` */
  function Obfuscate(text: string): string {
    Base64.Btoa(XorAll(Utf8.Encode(text)))
  }

  /** `deobfuscate(data)`; `None` where `atob` throws. */
  function Deobfuscate(data: string): (r: Option<string>)
    ensures r.None? <==> Base64.Atob(data).None?
  {
    var b := Base64.Atob(data);
    if b.None? then None else Some(Utf8.Decode(XorAll(b.value)))
  }

  /** Deobfuscation undoes obfuscation, except that the decoder drops a
      leading U+FEFF as a byte order mark. */
  lemma DeobfuscateObfuscate(s: string)
    ensures Deobfuscate(Obfuscate(s)) == Some(Utf8.StripBom(s))
    ensures |s| == 0 || s[0] != Utf8.Bom ==> Deobfuscate(Obfuscate(s)) == Some(s)
  {
    var bytes := XorAll(Utf8.Encode(s));
    Base64.AtobBtoa(bytes);
    XorAllTwice(Utf8.Encode(s));
    Utf8.DecodeEncode(s);
  }

  /** `JSON.stringify(creds)` */
  function StringifyCreds(c: StoredCreds): string {
    JsonText.StringifyStrings(Fields(c))
  }

  /** `saveRememberedCredentials(creds)`: the slot afterwards. Without a
      window nothing happens; `null` removes the entry. `storageThrows`
      says the storage call throws, which the source catches and ignores,
      so the slot stays as it was. */
  function Save(hasWindow: bool, slot: Option<string>, creds: Option<StoredCreds>, storageThrows: bool): (r: Option<string>)
    ensures !hasWindow || storageThrows ==> r == slot
    ensures hasWindow && !storageThrows && creds.None? ==> r.None?
    ensures hasWindow && !storageThrows && creds.Some? ==> r.Some? && Deobfuscate(r.value) == Some(StringifyCreds(creds.value))
  {
    if !hasWindow || storageThrows then slot
    else if creds.None? then None
    else
      var text := StringifyCreds(creds.value);
      assert text[0] == '{';
      DeobfuscateObfuscate(text);
      Some(Obfuscate(text))
  }

  /** `loadRememberedCredentials()`: `None` without a window, for an empty
      or missing entry, where decoding or parsing fails, and where the
      parsed value is not a login body. */
  function Load(hasWindow: bool, slot: Option<string>): (r: Option<StoredCreds>)
    ensures r.Some? ==> hasWindow && slot.Some? && slot.value != ""
    ensures r.Some? ==>
      Deobfuscate(slot.value).Some? && JsonText.Parse(Deobfuscate(slot.value).value).Some?
      && AsLoginBody(JsonText.Parse(Deobfuscate(slot.value).value).value) == r
    ensures hasWindow && slot.Some? && slot.value != "" && Deobfuscate(slot.value).Some?
            && JsonText.Parse(Deobfuscate(slot.value).value).Some?
            && AsLoginBody(JsonText.Parse(Deobfuscate(slot.value).value).value).Some?
            ==> r.Some? && r == AsLoginBody(JsonText.Parse(Deobfuscate(slot.value).value).value)
  {
    if !hasWindow || slot.None? || slot.value == "" then None
    else
      var raw := Deobfuscate(slot.value);
      if raw.None? then None
      else
        var parsed := JsonText.Parse(raw.value);
        if parsed.None? then None else AsLoginBody(parsed.value)
  }

  /** What is saved loads back unchanged. */
  lemma LoadAfterSave(slot: Option<string>, c: StoredCreds)
    ensures Load(true, Save(true, slot, Some(c), false)) == Some(c)
  {
    var text := StringifyCreds(c);
    var stored := Obfuscate(text);
    assert Save(true, slot, Some(c), false) == Some(stored);
    assert text[0] == '{';
    DeobfuscateObfuscate(text);
    ObfuscateNonEmpty(text);
    JsonText.ParseStringify(Fields(c));
    AsLoginBodyOfFields(c);
  }

  /** Only the empty string obfuscates to the empty string. */
  lemma ObfuscateNonEmpty(s: string)
    requires s != ""
    ensures Obfuscate(s) != ""
  {
    Base64.AtobBtoa(XorAll(Utf8.Encode(s)));
    assert Base64.Atob("") == Some([]);
  }

  /** After saving `null`, nothing loads; without a window, nothing loads
      and saving leaves the slot alone. */
  lemma ForgetAndNoWindow(slot: Option<string>, creds: Option<StoredCreds>, storageThrows: bool)
    ensures Load(true, Save(true, slot, None, false)) == None
    ensures Load(false, slot) == None
    ensures Save(false, slot, creds, storageThrows) == slot
  {
  }

  /** A stored value whose JSON has a role outside the four loads as
      nothing. */
  lemma LoadRejectsBadRole(role: string, user: string, pass: string)
    requires !(role == "A" || role == "P" || role == "D" || role == "E")
    ensures Load(true, Some(Obfuscate(JsonText.StringifyStrings([("role", role), ("username", user), ("password", pass)])))) == None
  {
    var f := [("role", role), ("username", user), ("password", pass)];
    var text := JsonText.StringifyStrings(f);
    assert text[0] == '{';
    DeobfuscateObfuscate(text);
    assert JsonText.DistinctKeys(f);
    JsonText.ParseStringify(f);
    var j := JsonText.AsJson(f);
    assert j[0] == ("role", JsonText.JString(role));
    assert Assoc.Get(j, "role") == Some(JsonText.JString(role));
  }
}
