/** The bytes that signatures cover, spelled out (GetCertSignData and GetGunSignData of dkvs/cert.go,
    GetRecordSignData of dkvs/dkvs.go). */
module SignedBytes {
  import opened GoTypes
  import opened Varint
  import opened Messages
  import opened WireBytes
  import opened Certs
  import opened Records

  // ----- records

  /** x without its lowest i bytes. */
  function Shifted8(x: nat, i: nat): nat
    decreases i
  {
    if i == 0 then x else Shifted8(x / 256, i - 1)
  }

  /** The i-th of the little-endian bytes is the i-th lowest. */
  lemma {:induction false} LittleEndianDigits(x: nat, k: nat, i: nat)
    requires i < k
    ensures |LittleEndian(x, k)| == k && LittleEndian(x, k)[i] == Shifted8(x, i) % 256
  {
    if i > 0 {
      LittleEndianDigits(x / 256, k - 1, i - 1);
    }
  }

  /** What a record's signature covers: key, value and public key, then issue time and time to live in eight bytes
      each, the lowest first. */
  lemma RecordSigned(key: Bytes, val: Slice, pubkey: Slice, issuetime: uint64, ttl: uint64)
    ensures var s, n := RecordSignData(key, val, pubkey, issuetime, ttl), |key| + |Content(val)| + |Content(pubkey)|;
            && |s| == n + 16
            && s[..|key|] == key
            && s[|key|..|key| + |Content(val)|] == Content(val)
            && s[|key| + |Content(val)|..n] == Content(pubkey)
            && (forall i | 0 <= i < 8 :: s[n + i] == Shifted8(issuetime, i) % 256)
            && (forall i | 0 <= i < 8 :: s[n + 8 + i] == Shifted8(ttl, i) % 256)
  {
    var v, p := Content(val), Content(pubkey);
    var t1, t2 := LittleEndian(issuetime, 8), LittleEndian(ttl, 8);
    EightBytes(issuetime);
    EightBytes(ttl);
    assert RecordSignData(key, val, pubkey, issuetime, ttl) == key + (v + (p + (t1 + t2)));
    hide *;
    FiveParts(key, v, p, t1, t2);
  }

  lemma EightBytes(x: uint64)
    ensures forall i | 0 <= i < 8 :: LittleEndian(x, 8)[i] == Shifted8(x, i) % 256
  {
    hide LittleEndian, Shifted8;
    forall i | 0 <= i < 8
      ensures LittleEndian(x, 8)[i] == Shifted8(x, i) % 256
    {
      LittleEndianDigits(x, 8, i);
    }
  }

  lemma FiveParts(a: Bytes, b: Bytes, c: Bytes, d: Bytes, e: Bytes)
    requires |d| == 8
    ensures var s, n := a + (b + (c + (d + e))), |a| + |b| + |c|;
            && s[..|a|] == a && s[|a|..|a| + |b|] == b && s[|a| + |b|..n] == c
            && (forall i | 0 <= i < 8 :: s[n + i] == d[i]) && (forall i | 0 <= i < |e| :: s[n + 8 + i] == e[i])
  {
  }

  // ----- certificates

  /** All fields but the signature, field 11. */
  lemma CertSigned(c: CertVal)
    ensures GetCertSignData(c) ==
            TaggedUint(0x08, c.version) + (TaggedBytes(0x12, c.name) +
            (TaggedUint(0x18, c.certType) + (TaggedUint(0x20, c.subType) +
            (TaggedBytes(0x2a, Content(c.userPubkey)) + (TaggedBytes(0x32, Content(c.data)) +
            (TaggedUint(0x38, c.issueTime) + (TaggedUint(0x40, c.ttl) +
            TaggedBytes(0x52, Content(c.issuerPubkey)))))))))
  {
    CertBytes(c.(issuerSign := None));
    assert TaggedBytes(0x5a, Content(None)) == [];
    assert TaggedBytes(0x52, Content(c.issuerPubkey)) + [] == TaggedBytes(0x52, Content(c.issuerPubkey));
    hide TaggedUint, TaggedBytes, EncodeCert;
  }

  /** A GUN certificate is of version 1, a contract of subtype 1, its data the token with name, score and receiver. */
  lemma GunSigned(name: Bytes, num: uint64, gunPubkey: Slice, issueTime: uint64, ttl: uint64)
    ensures GetGunSignData(name, num, gunPubkey, issueTime, ttl) ==
            [0x08, 1] + (TaggedBytes(0x12, name) + ([0x18, 1] + ([0x20, 1] +
            (TaggedBytes(0x32, TaggedBytes(0x0a, name) + (TaggedUint(0x10, num) +
                               TaggedBytes(0x22, Content(gunPubkey)))) +
            (TaggedUint(0x38, issueTime) + (TaggedUint(0x40, ttl) +
            TaggedBytes(0x52, Content(gunPubkey))))))))
  {
    var c := IssueCertGun(name, num, gunPubkey, issueTime, ttl);
    CertSigned(c);
    TokenBytes(TokenVal(name, num, gunPubkey, None));
    TokenEnds(name, num, gunPubkey);
    OneUint();
    assert GetGunSignData(name, num, gunPubkey, issueTime, ttl) == GetCertSignData(c);
    assert TaggedBytes(0x2a, Content(None)) == [];
    hide TaggedUint, TaggedBytes, EncodeCert, Encode;
    var tail := TaggedBytes(0x32, Content(c.data)) + (TaggedUint(0x38, issueTime) + (TaggedUint(0x40, ttl) +
                TaggedBytes(0x52, Content(gunPubkey))));
    assert [] + tail == tail;
  }

  lemma OneUint()
    ensures TaggedUint(0x08, 1) == [0x08, 1] && TaggedUint(0x18, 1) == [0x18, 1] && TaggedUint(0x20, 1) == [0x20, 1]
  {
    assert EncVarint(1) == [1];
  }

  lemma TokenEnds(name: Bytes, num: uint64, gunPubkey: Slice)
    ensures TaggedBytes(0x0a, name) + (TaggedUint(0x10, num) +
            (TaggedBytes(0x22, Content(gunPubkey)) + TaggedBytes(0x2a, Content(None)))) ==
            TaggedBytes(0x0a, name) + (TaggedUint(0x10, num) + TaggedBytes(0x22, Content(gunPubkey)))
  {
    assert TaggedBytes(0x2a, Content(None)) == [];
    hide TaggedUint, TaggedBytes;
    assert TaggedBytes(0x22, Content(gunPubkey)) + [] == TaggedBytes(0x22, Content(gunPubkey));
  }

  /** The certificates of a transfer: version 1, the name for its kind, type and subtype 0. */
  lemma TransferCertSigned(key: Bytes, fee: uint64, receiverpk: Slice, issuerpk: Slice, now: uint64)
    requires key != []
    ensures GetCertSignData(IssueCertTransferPrepare(key, fee, receiverpk, issuerpk, now)) ==
            [0x08, 1] + (TaggedBytes(0x12, Ascii("TransferPrepare")) +
            (TaggedBytes(0x2a, Content(receiverpk)) +
            (TaggedBytes(0x32, TaggedBytes(0x0a, key) + TaggedUint(0x10, fee)) +
            (TaggedUint(0x38, now) + (TaggedUint(0x40, 3153600000000) +
            TaggedBytes(0x52, Content(issuerpk)))))))
  {
    var c := IssueCertTransferPrepare(key, fee, receiverpk, issuerpk, now);
    CertSigned(c);
    PrepareBytes(PrepareVal(key, fee));
    OneUint();
    assert TaggedUint(0x18, 0) == [] && TaggedUint(0x20, 0) == [];
    hide TaggedUint, TaggedBytes, EncodeCert, Encode, GetCertSignData;
    var tail := TaggedBytes(0x2a, Content(receiverpk)) + (TaggedBytes(0x32, Content(c.data)) +
                (TaggedUint(0x38, now) + (TaggedUint(0x40, 3153600000000) + TaggedBytes(0x52, Content(issuerpk)))));
    assert [] + ([] + tail) == tail;
  }

  lemma ReceiptCertSigned(key: Bytes, tx: Bytes, fee: uint64, senderpk: Slice, receiverpk: Slice, issuerpk: Slice,
                          now: uint64)
    ensures GetCertSignData(IssueCertTxCompleted(key, tx, fee, senderpk, receiverpk, issuerpk, now)) ==
            [0x08, 1] + (TaggedBytes(0x12, Ascii("TxCompleted")) +
            (TaggedBytes(0x2a, Content(receiverpk)) +
            (TaggedBytes(0x32, TaggedBytes(0x0a, key) + (TaggedBytes(0x12, tx) + (TaggedUint(0x18, fee) +
                               (TaggedBytes(0x22, Content(senderpk)) + TaggedBytes(0x2a, Content(receiverpk)))))) +
            (TaggedUint(0x38, now) + (TaggedUint(0x40, 3153600000000) +
            TaggedBytes(0x52, Content(issuerpk)))))))
  {
    var c := IssueCertTxCompleted(key, tx, fee, senderpk, receiverpk, issuerpk, now);
    CertSigned(c);
    CompletedBytes(CompletedVal(key, tx, fee, senderpk, receiverpk));
    OneUint();
    assert TaggedUint(0x18, 0) == [] && TaggedUint(0x20, 0) == [];
    hide TaggedUint, TaggedBytes, EncodeCert, Encode, GetCertSignData;
    var tail := TaggedBytes(0x2a, Content(receiverpk)) + (TaggedBytes(0x32, Content(c.data)) +
                (TaggedUint(0x38, now) + (TaggedUint(0x40, 3153600000000) + TaggedBytes(0x52, Content(issuerpk)))));
    assert [] + ([] + tail) == tail;
  }
}
