/** The bytes of each message, spelled out: the tags of dkvs/pb/dkvs_record.proto in ascending order, each in front
    of its value. This is what gets signed. */
module WireBytes {
  import opened GoTypes
  import opened Varint
  import opened WireGrammar
  import opened Messages

  // ----- varints

  /** v without its lowest i groups of seven bits. */
  function Shifted7(v: nat, i: nat): nat
    decreases i
  {
    if i == 0 then v else Shifted7(v / 128, i - 1)
  }

  /** Groups of seven bits, the lowest first, as many as it takes; all but the last have the high bit. */
  lemma {:induction false} VarintDigits(v: nat, i: nat)
    requires i < |EncVarint(v)|
    ensures EncVarint(v)[i] == Shifted7(v, i) % 128 + if i < |EncVarint(v)| - 1 then 128 else 0
    ensures Shifted7(v, i + 1) > 0 <==> i < |EncVarint(v)| - 1
  {
    if v < 128 {
      assert Shifted7(v, 1) == Shifted7(0, 0);
    } else {
      VarintDigits(v / 128, if i == 0 then 0 else i - 1);
      if i == 0 {
        assert Shifted7(v, 1) == Shifted7(v / 128, 0);
      }
    }
  }

  /** A scan succeeds just when one of the first ten bytes ends the varint; otherwise it has run past ten bytes or
      past the end. */
  lemma {:induction false} ScanExactly(bs: Bytes, k: nat)
    requires k <= 10
    ensures match ScanVarint(bs, k)
            case Ok(_, len) =>
              && 0 < len <= |bs| && k + len <= 10
              && bs[len - 1] < 128 && (forall i | 0 <= i < len - 1 :: bs[i] >= 128)
            case Err(IntOverflow) => |bs| >= 10 - k && forall i | 0 <= i < 10 - k :: bs[i] >= 128
            case Err(UnexpectedEof) => |bs| < 10 - k && forall i | 0 <= i < |bs| :: bs[i] >= 128
            case Err(_) => false
    decreases |bs|
  {
    if k < 10 && bs != [] && bs[0] >= 128 {
      ScanExactly(bs[1..], k + 1);
      assert forall i | 0 < i < |bs| :: bs[i] == bs[1..][i - 1];
    }
  }

  // ----- fields

  /** proto3 leaves zero and empty values out. */
  function TaggedUint(tag: byte, v: uint64): Bytes {
    if v == 0 then [] else [tag] + EncVarint(v)
  }

  function Tagged(tag: byte, p: Bytes): Bytes {
    [tag] + (EncVarint(|p|) + p)
  }

  function TaggedBytes(tag: byte, p: Bytes): Bytes {
    if p == [] then [] else Tagged(tag, p)
  }

  lemma UintBytes(n: FieldNo, v: uint64, fs: seq<Field>)
    ensures PrintAll(U(n, v) + fs) == TaggedUint(8 * n, v) + PrintAll(fs)
  {
    PrintAllAppend(U(n, v), fs);
    PrintNothing();
    if v != 0 { PrintAllOne(UintField(n, v)); }
  }

  lemma BytesBytes(n: FieldNo, p: Bytes, fs: seq<Field>)
    ensures PrintAll(B(n, p) + fs) == TaggedBytes(8 * n + 2, p) + PrintAll(fs)
  {
    PrintAllAppend(B(n, p), fs);
    PrintNothing();
    if p != [] { PrintAllOne(BytesField(n, p)); }
  }

  lemma LastUint(n: FieldNo, v: uint64)
    ensures PrintAll(U(n, v)) == TaggedUint(8 * n, v)
  {
    UintBytes(n, v, []);
    PrintNothing();
    assert U(n, v) + [] == U(n, v);
  }

  lemma LastBytes(n: FieldNo, p: Bytes)
    ensures PrintAll(B(n, p)) == TaggedBytes(8 * n + 2, p)
  {
    BytesBytes(n, p, []);
    PrintNothing();
    assert B(n, p) + [] == B(n, p);
  }

  // ----- messages

  lemma RecordBytes(r: RecordVal)
    ensures Encode(Record(r)) ==
            TaggedUint(0x08, r.version) + (TaggedUint(0x10, r.valueType) +
            (TaggedBytes(0x1a, Content(r.value)) + (TaggedBytes(0x22, Content(r.signature)) +
            (TaggedUint(0x28, if r.validityType < 0 then r.validityType + 0x1_0000_0000_0000_0000 else r.validityType) +
            (TaggedUint(0x30, r.validity) + (TaggedUint(0x38, r.seqNo) + (TaggedUint(0x40, r.ttl) +
            (TaggedBytes(0x4a, Content(r.pubKey)) + TaggedBytes(0x52, Content(r.data))))))))))
  {
    assert Extend32(r.validityType) ==
           if r.validityType < 0 then r.validityType + 0x1_0000_0000_0000_0000 else r.validityType;
    var f10 := B(10, Content(r.data));
    var f9 := B(9, Content(r.pubKey)) + f10;
    var f8 := U(8, r.ttl) + f9;
    var f7 := U(7, r.seqNo) + f8;
    var f6 := U(6, r.validity) + f7;
    var f5 := U(5, Extend32(r.validityType)) + f6;
    var f4 := B(4, Content(r.signature)) + f5;
    var f3 := B(3, Content(r.value)) + f4;
    var f2 := U(2, r.valueType) + f3;
    assert Encode(Record(r)) == PrintAll(U(1, r.version) + f2);
    hide *;
    LastBytes(10, Content(r.data));
    BytesBytes(9, Content(r.pubKey), f10);
    UintBytes(8, r.ttl, f9);
    UintBytes(7, r.seqNo, f8);
    UintBytes(6, r.validity, f7);
    UintBytes(5, Extend32(r.validityType), f6);
    BytesBytes(4, Content(r.signature), f5);
    BytesBytes(3, Content(r.value), f4);
    UintBytes(2, r.valueType, f3);
    UintBytes(1, r.version, f2);
  }

  /** There is no field 9. */
  lemma CertBytes(c: CertVal)
    ensures EncodeCert(c) == Encode(Cert(c))
    ensures EncodeCert(c) ==
            TaggedUint(0x08, c.version) + (TaggedBytes(0x12, c.name) +
            (TaggedUint(0x18, c.certType) + (TaggedUint(0x20, c.subType) +
            (TaggedBytes(0x2a, Content(c.userPubkey)) + (TaggedBytes(0x32, Content(c.data)) +
            (TaggedUint(0x38, c.issueTime) + (TaggedUint(0x40, c.ttl) +
            (TaggedBytes(0x52, Content(c.issuerPubkey)) + TaggedBytes(0x5a, Content(c.issuerSign))))))))))
  {
    var f11 := B(11, Content(c.issuerSign));
    var f10 := B(10, Content(c.issuerPubkey)) + f11;
    var f8 := U(8, c.ttl) + f10;
    var f7 := U(7, c.issueTime) + f8;
    var f6 := B(6, Content(c.data)) + f7;
    var f5 := B(5, Content(c.userPubkey)) + f6;
    var f4 := U(4, c.subType) + f5;
    var f3 := U(3, c.certType) + f4;
    var f2 := B(2, c.name) + f3;
    assert EncodeCert(c) == PrintAll(U(1, c.version) + f2);
    assert EncodeCert(c) == Encode(Cert(c));
    hide *;
    LastBytes(11, Content(c.issuerSign));
    BytesBytes(10, Content(c.issuerPubkey), f11);
    UintBytes(8, c.ttl, f10);
    UintBytes(7, c.issueTime, f8);
    BytesBytes(6, Content(c.data), f7);
    BytesBytes(5, Content(c.userPubkey), f6);
    UintBytes(4, c.subType, f5);
    UintBytes(3, c.certType, f4);
    BytesBytes(2, c.name, f3);
    UintBytes(1, c.version, f2);
  }

  /** Each certificate in turn, one with an empty encoding too. */
  function VectBytes(cs: seq<CertVal>): Bytes {
    if cs == [] then [] else Tagged(0x1a, EncodeCert(cs[0])) + VectBytes(cs[1..])
  }

  lemma {:induction false} VectIs(cs: seq<CertVal>)
    ensures PrintAll(CertVectFields(cs)) == VectBytes(cs)
  {
    hide EncodeCert, EncVarint;
    if cs == [] {
      PrintNothing();
    } else {
      VectIs(cs[1..]);
      PrintAllAppend([BytesField(3, EncodeCert(cs[0]))], CertVectFields(cs[1..]));
      PrintAllOne(BytesField(3, EncodeCert(cs[0])));
    }
  }

  lemma CertsBytes(v: CertsVal)
    ensures Encode(Certs(v)) ==
            TaggedBytes(0x0a, v.prevBundleAdrr) + (TaggedBytes(0x12, Content(v.userData)) + VectBytes(v.certVect))
  {
    BytesBytes(1, v.prevBundleAdrr, B(2, Content(v.userData)) + CertVectFields(v.certVect));
    BytesBytes(2, Content(v.userData), CertVectFields(v.certVect));
    VectIs(v.certVect);
    assert FieldsOf(Certs(v)) == B(1, v.prevBundleAdrr) + (B(2, Content(v.userData)) + CertVectFields(v.certVect));
    hide PrintAll, B, CertVectFields, TaggedBytes, VectBytes;
  }

  lemma PrepareBytes(p: PrepareVal)
    ensures Encode(Prepare(p)) == TaggedBytes(0x0a, p.key) + TaggedUint(0x10, p.fee)
  {
    BytesBytes(1, p.key, U(2, p.fee));
    LastUint(2, p.fee);
    assert FieldsOf(Prepare(p)) == B(1, p.key) + U(2, p.fee);
    hide PrintAll, U, B, TaggedBytes, TaggedUint;
  }

  lemma CompletedBytes(c: CompletedVal)
    ensures Encode(Completed(c)) ==
            TaggedBytes(0x0a, c.key) + (TaggedBytes(0x12, c.tx) + (TaggedUint(0x18, c.fee) +
            (TaggedBytes(0x22, Content(c.senderkey)) + TaggedBytes(0x2a, Content(c.receiverkey)))))
  {
    var f5 := B(5, Content(c.receiverkey));
    var f4 := B(4, Content(c.senderkey)) + f5;
    var f3 := U(3, c.fee) + f4;
    var f2 := B(2, c.tx) + f3;
    assert Encode(Completed(c)) == PrintAll(B(1, c.key) + f2);
    hide *;
    LastBytes(5, Content(c.receiverkey));
    BytesBytes(4, Content(c.senderkey), f5);
    UintBytes(3, c.fee, f4);
    BytesBytes(2, c.tx, f3);
    BytesBytes(1, c.key, f2);
  }

  /** There is no field 3. */
  lemma TokenBytes(t: TokenVal)
    ensures Encode(Token(t)) ==
            TaggedBytes(0x0a, t.name) + (TaggedUint(0x10, t.maxScore) +
            (TaggedBytes(0x22, Content(t.receiverKey)) + TaggedBytes(0x2a, Content(t.userData))))
  {
    var f5 := B(5, Content(t.userData));
    var f4 := B(4, Content(t.receiverKey)) + f5;
    var f2 := U(2, t.maxScore) + f4;
    assert Encode(Token(t)) == PrintAll(B(1, t.name) + f2);
    hide *;
    LastBytes(5, Content(t.userData));
    BytesBytes(4, Content(t.receiverKey), f5);
    UintBytes(2, t.maxScore, f4);
    BytesBytes(1, t.name, f2);
  }

  // ----- the order of the fields

  /** The field number in a one-byte tag. */
  function Number(f: Field): int {
    if |f.tag| == 1 then f.tag[0] / 8 else -1
  }

  /** Numbers go up from below lo on; those equal to `again` may repeat. */
  predicate Ascending(fs: seq<Field>, lo: int, again: int) {
    fs == [] || ((Number(fs[0]) > lo || (Number(fs[0]) == lo == again)) && Ascending(fs[1..], Number(fs[0]), again))
  }

  lemma {:induction false} AscendingFrom(fs: seq<Field>, lo: int, lo': int, again: int)
    requires Ascending(fs, lo, again) && lo' <= lo
    ensures Ascending(fs, lo', again)
  {
  }

  lemma UintAscending(n: FieldNo, v: uint64, fs: seq<Field>, again: int)
    requires Ascending(fs, n, again)
    ensures Ascending(U(n, v) + fs, n - 1, again)
  {
    if v == 0 {
      assert U(n, v) + fs == fs;
      AscendingFrom(fs, n, n - 1, again);
    } else {
      assert (U(n, v) + fs)[1..] == fs;
    }
  }

  lemma BytesAscending(n: FieldNo, p: Bytes, fs: seq<Field>, again: int)
    requires Ascending(fs, n, again)
    ensures Ascending(B(n, p) + fs, n - 1, again)
  {
    if p == [] {
      assert B(n, p) + fs == fs;
      AscendingFrom(fs, n, n - 1, again);
    } else {
      assert (B(n, p) + fs)[1..] == fs;
    }
  }

  lemma {:induction false} VectAscending(cs: seq<CertVal>, lo: int)
    requires lo <= 3
    ensures Ascending(CertVectFields(cs), lo, 3)
  {
    hide EncodeCert, EncVarint;
    if cs != [] {
      VectAscending(cs[1..], 3);
      assert CertVectFields(cs)[1..] == CertVectFields(cs[1..]);
    }
  }

  /** Every message prints its fields in ascending order of their numbers, equal only within CertVect. */
  lemma FieldsAscend(m: Message)
    ensures Ascending(FieldsOf(m), 0, if m.Certs? then 3 else -1)
  {
    hide EncVarint, EncodeCert, Content;
    match m
    case Record(r) => RecordAscends(r);
    case Cert(c) => CertAscends(c);
    case Certs(v) =>
      VectAscending(v.certVect, 2);
      BytesAscending(2, Content(v.userData), CertVectFields(v.certVect), 3);
      BytesAscending(1, v.prevBundleAdrr, B(2, Content(v.userData)) + CertVectFields(v.certVect), 3);
    case Prepare(p) =>
      LastUintAscending(2, p.fee);
      BytesAscending(1, p.key, U(2, p.fee), -1);
    case Completed(c) =>
      var f5 := B(5, Content(c.receiverkey));
      var f4 := B(4, Content(c.senderkey)) + f5;
      var f3 := U(3, c.fee) + f4;
      LastBytesAscending(5, Content(c.receiverkey));
      BytesAscending(4, Content(c.senderkey), f5, -1);
      UintAscending(3, c.fee, f4, -1);
      BytesAscending(2, c.tx, f3, -1);
      BytesAscending(1, c.key, B(2, c.tx) + f3, -1);
    case Token(t) =>
      var f5 := B(5, Content(t.userData));
      var f4 := B(4, Content(t.receiverKey)) + f5;
      LastBytesAscending(5, Content(t.userData));
      BytesAscending(4, Content(t.receiverKey), f5, -1);
      AscendingFrom(f4, 3, 2, -1);
      UintAscending(2, t.maxScore, f4, -1);
      BytesAscending(1, t.name, U(2, t.maxScore) + f4, -1);
  }

  lemma LastUintAscending(n: FieldNo, v: uint64)
    ensures Ascending(U(n, v), n - 1, -1)
  {
    UintAscending(n, v, [], -1);
    assert U(n, v) + [] == U(n, v);
  }

  lemma LastBytesAscending(n: FieldNo, p: Bytes)
    ensures Ascending(B(n, p), n - 1, -1)
  {
    BytesAscending(n, p, [], -1);
    assert B(n, p) + [] == B(n, p);
  }

  lemma RecordAscends(r: RecordVal)
    ensures Ascending(RecordFields(r), 0, -1)
  {
    hide U, B, Ascending, Content, Extend32;
    var f10 := B(10, Content(r.data));
    var f9 := B(9, Content(r.pubKey)) + f10;
    var f8 := U(8, r.ttl) + f9;
    var f7 := U(7, r.seqNo) + f8;
    var f6 := U(6, r.validity) + f7;
    var f5 := U(5, Extend32(r.validityType)) + f6;
    var f4 := B(4, Content(r.signature)) + f5;
    var f3 := B(3, Content(r.value)) + f4;
    var f2 := U(2, r.valueType) + f3;
    LastBytesAscending(10, Content(r.data));
    BytesAscending(9, Content(r.pubKey), f10, -1);
    UintAscending(8, r.ttl, f9, -1);
    UintAscending(7, r.seqNo, f8, -1);
    UintAscending(6, r.validity, f7, -1);
    UintAscending(5, Extend32(r.validityType), f6, -1);
    BytesAscending(4, Content(r.signature), f5, -1);
    BytesAscending(3, Content(r.value), f4, -1);
    UintAscending(2, r.valueType, f3, -1);
    UintAscending(1, r.version, f2, -1);
  }

  lemma CertAscends(c: CertVal)
    ensures Ascending(CertFields(c), 0, -1)
  {
    hide U, B, Ascending, Content;
    var f11 := B(11, Content(c.issuerSign));
    var f10 := B(10, Content(c.issuerPubkey)) + f11;
    var f8 := U(8, c.ttl) + f10;
    var f7 := U(7, c.issueTime) + f8;
    var f6 := B(6, Content(c.data)) + f7;
    var f5 := B(5, Content(c.userPubkey)) + f6;
    var f4 := U(4, c.subType) + f5;
    var f3 := U(3, c.certType) + f4;
    var f2 := B(2, c.name) + f3;
    LastBytesAscending(11, Content(c.issuerSign));
    BytesAscending(10, Content(c.issuerPubkey), f11, -1);
    AscendingFrom(f10, 9, 8, -1);
    UintAscending(8, c.ttl, f10, -1);
    UintAscending(7, c.issueTime, f8, -1);
    BytesAscending(6, Content(c.data), f7, -1);
    BytesAscending(5, Content(c.userPubkey), f6, -1);
    UintAscending(4, c.subType, f5, -1);
    UintAscending(3, c.certType, f4, -1);
    BytesAscending(2, c.name, f3, -1);
    UintAscending(1, c.version, f2, -1);
  }
}
