/** The table of public services (dkvs/services.go) and the hexadecimal names of its keys. Go strings are
    byte sequences. */
module Services {
  import opened GoTypes
  import opened GoStrings

  /** Name to the "0x..." keys of a service. The repository's table is a constant; here any table does. */
  type ServiceTable = map<Bytes, seq<Bytes>>

  const SLASH: byte := 47

  function ServiceGun(): Bytes { Ascii("gun") }
  function ServiceMiner(): Bytes { Ascii("miner") }
  function HexPrefix(): Bytes { [48, 120] }

  // ----- hexadecimal

  function HexDigit(n: nat): byte
    requires n < 16
  {
    if n < 10 then 48 + n else 87 + n
  }

  function HexDigits(bs: Bytes): Bytes {
    if bs == [] then [] else [HexDigit(bs[0] / 16), HexDigit(bs[0] % 16)] + HexDigits(bs[1..])
  }

  function Hex(bs: Bytes): Bytes {
    HexPrefix() + HexDigits(bs)
  }

  /** Either case of a digit, as encoding/hex reads it. */
  function DigitValue(c: byte): (v: Option<nat>)
    ensures v.Some? ==> v.value < 16
  {
    if 48 <= c <= 57 then Some(c - 48)
    else if 97 <= c <= 102 then Some(c - 87)
    else if 65 <= c <= 70 then Some(c - 55)
    else None
  }

  /** hex.DecodeString */
  function DecodeHex(s: Bytes): Option<Bytes> {
    if s == [] then Some([])
    else if |s| == 1 then None
    else
      var hi, lo, rest := DigitValue(s[0]), DigitValue(s[1]), DecodeHex(s[2..]);
      if hi.Some? && lo.Some? && rest.Some? then Some([16 * hi.value + lo.value] + rest.value) else None
  }

  /** HexStringToBytes: nil when the digits do not decode. It slices off two bytes of any nonempty input. */
  function HexStringToBytes(input: Bytes): Slice
    requires |input| != 1
  {
    if |input| > 0 && input[..2] == HexPrefix() then DecodeHex(input[2..]) else DecodeHex(input)
  }

  method BytesToHexString(input: Bytes) returns (hexString: Bytes)
    ensures hexString == Hex(input)
  {
    hexString := HexPrefix();
    for k := 0 to |input|
      invariant hexString + HexDigits(input[k..]) == Hex(input)
    {
      assert input[k..][1..] == input[k + 1..];
      var two := [HexDigit(input[k] / 16), HexDigit(input[k] % 16)];
      assert hexString + (two + HexDigits(input[k + 1..])) == hexString + two + HexDigits(input[k + 1..]);
      hexString := hexString + two;
    }
    assert HexDigits(input[|input|..]) == [];
  }

  lemma {:induction false} DecodeHexDigits(bs: Bytes)
    ensures DecodeHex(HexDigits(bs)) == Some(bs)
  {
    if bs != [] {
      DecodeHexDigits(bs[1..]);
      assert HexDigits(bs)[2..] == HexDigits(bs[1..]);
      assert [16 * (bs[0] / 16) + bs[0] % 16] + bs[1..] == bs;
    }
  }

  /** Decoding the printed key gives the key back, so different keys have different names. */
  lemma HexRoundTrip(bs: Bytes)
    ensures |Hex(bs)| != 1 && HexStringToBytes(Hex(bs)) == Some(bs)
  {
    DecodeHexDigits(bs);
    assert Hex(bs)[2..] == HexDigits(bs);
  }

  // ----- lookups

  predicate IsPublicServiceName(table: ServiceTable, sn: Bytes) {
    sn in table
  }

  predicate IsPublicServiceNameKey(table: ServiceTable, sn: Bytes, pubkey: Slice) {
    sn in table && Hex(Content(pubkey)) in table[sn]
  }

  // ----- keys of the store

  function GetGunKey(name: Bytes): Bytes {
    [SLASH] + Ascii("contract") + [SLASH] + name
  }

  const MIN_KEY_LENGTH := 32

  /** IsGunName looks at key[0] without asking for the length. */
  predicate IsGunName(key: Bytes)
    requires key != []
  {
    var subkeys := Split(key, SLASH);
    key[0] == SLASH && |subkeys| == 3 && subkeys[1] == Ascii("contract") && |subkeys[2]| <= MIN_KEY_LENGTH
  }

  /** The names under /contract of at most 32 bytes. */
  lemma GunNameExactly(key: Bytes)
    requires key != []
    ensures IsGunName(key) <==>
              exists name: Bytes :: SLASH !in name && |name| <= 32 && key == Ascii("/contract/") + name
  {
    if IsGunName(key) {
      var name := NameOfGun(key);
    }
    forall name: Bytes | SLASH !in name && |name| <= 32 && key == Ascii("/contract/") + name
      ensures IsGunName(key)
    {
      ContractPrefix();
      GunKeySplits(name);
      hide Split, Ascii;
    }
  }

  lemma NameOfGun(key: Bytes) returns (name: Bytes)
    requires key != [] && IsGunName(key)
    ensures SLASH !in name && |name| <= 32 && key == Ascii("/contract/") + name
  {
    ContractPrefix();
    var parts := Split(key, SLASH);
    SplitGlue(key, SLASH);
    PartsHaveNoSep(key, SLASH);
    name := parts[2];
    assert parts[0] in parts && parts[2] in parts;
    assert parts[0] == [];
    hide Split, Ascii, Glue;
    GlueThree(parts[0], parts[1], name);
    assert parts == [parts[0], parts[1], name];
  }

  lemma ContractPrefix()
    ensures Ascii("/contract/") == [SLASH] + Ascii("contract") + [SLASH] && SLASH !in Ascii("contract")
  {
  }

  lemma GlueThree(a: Bytes, b: Bytes, c: Bytes)
    ensures Glue([a, b, c], SLASH) == a + [SLASH] + b + [SLASH] + c
  {
    assert [a, b, c][1..] == [b, c] && [b, c][1..] == [c];
    assert Glue([b, c], SLASH) == b + ([SLASH] + c);
    assert a + ([SLASH] + (b + ([SLASH] + c))) == a + [SLASH] + b + [SLASH] + c;
  }

  lemma GunKeySplits(name: Bytes)
    requires SLASH !in name
    ensures GetGunKey(name) == Ascii("/contract/") + name
    ensures Split(Ascii("/contract/") + name, SLASH) == [[], Ascii("contract"), name]
  {
    ContractPrefix();
    var none: Bytes := [];
    var rest := Ascii("contract") + [SLASH] + name;
    SplitNoSep(name, SLASH);
    SplitPrefix(Ascii("contract"), SLASH, name);
    SplitPrefix(none, SLASH, rest);
    assert Ascii("/contract/") + name == none + [SLASH] + rest;
    assert [none] + ([Ascii("contract")] + [name]) == [none, Ascii("contract"), name];
  }

  // ----- the digits

  /** "0x", then two lower-case digits a byte, the high one first. */
  lemma {:induction false} HexExactly(bs: Bytes)
    ensures |Hex(bs)| == 2 + 2 * |bs| && Hex(bs)[..2] == Ascii("0x")
    ensures forall i | 0 <= i < |bs| ::
              Hex(bs)[2 + 2 * i] == Ascii("0123456789abcdef")[bs[i] / 16] &&
              Hex(bs)[3 + 2 * i] == Ascii("0123456789abcdef")[bs[i] % 16]
  {
    DigitsAt(bs);
    assert Hex(bs)[..2] == HexPrefix() == Ascii("0x");
    assert forall i | 0 <= i < |HexDigits(bs)| :: Hex(bs)[2 + i] == HexDigits(bs)[i];
  }

  lemma {:induction false} DigitsAt(bs: Bytes)
    ensures |HexDigits(bs)| == 2 * |bs|
    ensures forall i | 0 <= i < |bs| ::
              HexDigits(bs)[2 * i] == Ascii("0123456789abcdef")[bs[i] / 16] &&
              HexDigits(bs)[2 * i + 1] == Ascii("0123456789abcdef")[bs[i] % 16]
  {
    if bs != [] {
      DigitsAt(bs[1..]);
      DigitIs(bs[0] / 16);
      DigitIs(bs[0] % 16);
      hide HexDigit;
      forall i | 0 < i < |bs|
        ensures HexDigits(bs)[2 * i] == HexDigits(bs[1..])[2 * (i - 1)]
        ensures HexDigits(bs)[2 * i + 1] == HexDigits(bs[1..])[2 * (i - 1) + 1]
      {
      }
    }
  }

  lemma DigitIs(n: nat)
    requires n < 16
    ensures HexDigit(n) == Ascii("0123456789abcdef")[n]
  {
  }

  /** Decoding takes an even number of digits of either case, and nothing else. */
  lemma {:induction false} DecodeHexExactly(s: Bytes)
    ensures DecodeHex(s).Some? <==> |s| % 2 == 0 && forall c | c in s :: IsDigit(c)
  {
    if |s| >= 2 {
      DecodeHexExactly(s[2..]);
      assert s[0] in s && s[1] in s;
      assert forall c :: c in s <==> c == s[0] || c == s[1] || c in s[2..];
    }
  }

  predicate IsDigit(c: byte) {
    48 <= c <= 57 || 65 <= c <= 70 || 97 <= c <= 102
  }
}
