/** Unmarshalling marshalled bytes gives the message back, for all six messages. */
module RoundTrip {
  import opened GoTypes
  import opened Varint
  import opened WireGrammar
  import opened Messages
  import opened ParseTheory

  // ----- what comes back: nil and empty slices identified

  function NormRecord(r: RecordVal): RecordVal {
    r.(value := NormSlice(r.value), signature := NormSlice(r.signature),
       pubKey := NormSlice(r.pubKey), data := NormSlice(r.data))
  }

  function NormCert(c: CertVal): CertVal {
    c.(userPubkey := NormSlice(c.userPubkey), data := NormSlice(c.data),
       issuerPubkey := NormSlice(c.issuerPubkey), issuerSign := NormSlice(c.issuerSign))
  }

  function NormVect(cs: seq<CertVal>): seq<CertVal> {
    seq(|cs|, i requires 0 <= i < |cs| => NormCert(cs[i]))
  }

  function Norm(m: Message): Message {
    match m
    case Record(r) => Record(NormRecord(r))
    case Cert(c) => Cert(NormCert(c))
    case Certs(v) => Certs(v.(userData := NormSlice(v.userData), certVect := NormVect(v.certVect)))
    case Prepare(_) => m
    case Completed(c) =>
      Completed(c.(senderkey := NormSlice(c.senderkey), receiverkey := NormSlice(c.receiverkey)))
    case Token(t) => Token(t.(receiverKey := NormSlice(t.receiverKey), userData := NormSlice(t.userData)))
  }

  // ----- printed fields are well formed

  /** The shape of everything an encoder prints. */
  ghost predicate Canonical(f: Field) {
    (exists n: FieldNo, v: uint64 :: f == UintField(n, v)) || (exists n: FieldNo, p: Bytes :: f == BytesField(n, p))
  }

  ghost predicate AllCanonical(fs: seq<Field>) {
    forall f | f in fs :: Canonical(f)
  }

  lemma OneByteTag(t: byte)
    requires t < 128
    ensures IsVarint([t]) && Value64([t]) == t
    ensures FieldNum(Value64([t])) == t / 8 && WireType(Value64([t])) == t % 8
  {
    assert EncVarint(t) + [] == [t];
    ScanEnc(t, [], 0);
  }

  lemma EncIsVarint(v: uint64)
    ensures IsVarint(EncVarint(v)) && ScanVarint(EncVarint(v), 0).raw == v && Value64(EncVarint(v)) == v
  {
    EncLength64(v);
    ScanEnc(v, [], 0);
    assert EncVarint(v) + [] == EncVarint(v);
  }

  lemma CanonicalWellFormed(f: Field)
    requires Canonical(f) && |Print(f)| < TWO63
    ensures WellFormed(f)
  {
    if n: FieldNo, v: uint64 :| f == UintField(n, v) {
      OneByteTag(8 * n);
      EncIsVarint(v);
    } else {
      var n: FieldNo, p: Bytes :| f == BytesField(n, p);
      OneByteTag(8 * n + 2);
      EncIsVarint(|p|);
    }
  }

  lemma {:induction false} CanonicalAllWellFormed(fs: seq<Field>)
    requires AllCanonical(fs) && |PrintAll(fs)| < TWO63
    ensures AllWellFormed(fs)
    decreases |fs|
  {
    hide Canonical, Print, WellFormed;
    if fs != [] {
      CanonicalWellFormed(fs[0]);
      CanonicalAllWellFormed(fs[1..]);
      forall f | f in fs ensures WellFormed(f) {
        assert f == fs[0] || f in fs[1..];
      }
    }
  }

  lemma CanonicalU(n: FieldNo, v: uint64)
    ensures AllCanonical(U(n, v))
  {
  }

  lemma CanonicalB(n: FieldNo, p: Bytes)
    ensures AllCanonical(B(n, p))
  {
  }

  lemma {:induction false} CanonicalVect(cs: seq<CertVal>)
    ensures AllCanonical(CertVectFields(cs))
  {
    if cs != [] {
      assert Canonical(BytesField(3, EncodeCert(cs[0])));
      CanonicalVect(cs[1..]);
    }
  }

  lemma CanonicalFields(m: Message)
    ensures AllCanonical(FieldsOf(m))
  {
    hide Canonical, UintField, BytesField, U, B, CertVectFields;
    forall n: FieldNo, v: uint64 ensures AllCanonical(U(n, v)) { CanonicalU(n, v); }
    forall n: FieldNo, p: Bytes ensures AllCanonical(B(n, p)) { CanonicalB(n, p); }
    if m.Certs? {
      CanonicalVect(m.certs.certVect);
    }
  }

  // ----- applying the printed fields one by one

  /** Field n after decoding the printed form of v (nothing, when v is zero). */
  function SetUint(m: Message, n: FieldNo, v: uint64): Message {
    if v == 0 then m else PutUint(m, n, v)
  }

  function SetBytes(m: Message, n: FieldNo, p: Bytes): ParseResult {
    if p == [] then Parsed(m) else PutBytes(m, n, p)
  }

  lemma ApplyUint(m: Message, n: FieldNo, v: uint64, fs: seq<Field>)
    requires KindOf(m, n) == UintKind && AllWellFormed(U(n, v) + fs)
    ensures AllWellFormed(fs) && ApplyAll(m, U(n, v) + fs) == ApplyAll(SetUint(m, n, v), fs)
  {
    hide KindOf, PutUint, PutBytes, WellFormed, Value64, WireType, FieldNum, ScanVarint;
    Suffix(U(n, v), fs);
    if v == 0 {
      assert U(n, v) + fs == fs;
    } else {
      assert (U(n, v) + fs)[1..] == fs;
      OneByteTag(8 * n);
      EncIsVarint(v);
    }
  }

  lemma ApplyBytes(m: Message, n: FieldNo, p: Bytes, fs: seq<Field>)
    requires KindOf(m, n) == BytesKind && SetBytes(m, n, p).Parsed? && AllWellFormed(B(n, p) + fs)
    ensures AllWellFormed(fs) && ApplyAll(m, B(n, p) + fs) == ApplyAll(SetBytes(m, n, p).m, fs)
  {
    hide KindOf, PutUint, PutBytes, WellFormed, Value64, WireType, FieldNum, ScanVarint;
    Suffix(B(n, p), fs);
    if p == [] {
      assert B(n, p) + fs == fs;
    } else {
      assert (B(n, p) + fs)[1..] == fs;
      OneByteTag(8 * n + 2);
    }
  }

  lemma ApplyRecordUint(r: RecordVal, n: FieldNo, v: uint64, fs: seq<Field>)
    requires n in {1, 2, 5, 6, 7, 8} && AllWellFormed(U(n, v) + fs)
    ensures AllWellFormed(fs)
    ensures ApplyAll(Record(r), U(n, v) + fs) == ApplyAll(Record(if v == 0 then r else PutRecordUint(r, n, v)), fs)
  {
    hide WellFormed, ApplyAll;
    ApplyUint(Record(r), n, v, fs);
  }

  lemma ApplyRecordBytes(r: RecordVal, n: FieldNo, p: Bytes, fs: seq<Field>)
    requires n in {3, 4, 9, 10} && AllWellFormed(B(n, p) + fs)
    ensures AllWellFormed(fs)
    ensures ApplyAll(Record(r), B(n, p) + fs) == ApplyAll(Record(if p == [] then r else PutRecordBytes(r, n, p)), fs)
  {
    hide WellFormed, ApplyAll;
    ApplyBytes(Record(r), n, p, fs);
  }

  lemma ApplyCertUint(c: CertVal, n: FieldNo, v: uint64, fs: seq<Field>)
    requires n in {1, 3, 4, 7, 8} && AllWellFormed(U(n, v) + fs)
    ensures AllWellFormed(fs)
    ensures ApplyAll(Cert(c), U(n, v) + fs) == ApplyAll(Cert(if v == 0 then c else PutCertUint(c, n, v)), fs)
  {
    hide WellFormed, ApplyAll;
    ApplyUint(Cert(c), n, v, fs);
  }

  lemma ApplyCertBytes(c: CertVal, n: FieldNo, p: Bytes, fs: seq<Field>)
    requires n in {2, 5, 6, 10, 11} && AllWellFormed(B(n, p) + fs)
    ensures AllWellFormed(fs)
    ensures ApplyAll(Cert(c), B(n, p) + fs) == ApplyAll(Cert(if p == [] then c else PutCertBytes(c, n, p)), fs)
  {
    hide WellFormed, ApplyAll;
    ApplyBytes(Cert(c), n, p, fs);
  }

  lemma Suffix(fs: seq<Field>, gs: seq<Field>)
    requires AllWellFormed(fs + gs)
    ensures AllWellFormed(gs)
  {
    hide WellFormed;
    forall g | g in gs ensures WellFormed(g) {
      assert g in fs + gs;
    }
  }

  lemma Truncations(x: uint32, i: int32)
    ensures Truncate(x, W32) == x && ToInt32(Extend32(i)) == i && (Extend32(i) == 0 <==> i == 0)
  {
  }

  lemma ApplyRecordTail(r: RecordVal, m: RecordVal, fs: seq<Field>)
    requires m == NormRecord(r).(validity := 0, seqNo := 0, ttl := 0, pubKey := None, data := None)
    requires fs ==
             U(6, r.validity) + (U(7, r.seqNo) + (U(8, r.ttl) + (B(9, Content(r.pubKey)) + B(10, Content(r.data)))))
    requires AllWellFormed(fs)
    ensures ApplyAll(Record(m), fs) == Parsed(Record(NormRecord(r)))
  {
    hide U, B, ApplyAll, WellFormed;
    var f5 := B(10, Content(r.data)) + [];
    assert f5 == B(10, Content(r.data));
    var f4 := B(9, Content(r.pubKey)) + f5;
    var f3 := U(8, r.ttl) + f4;
    var f2 := U(7, r.seqNo) + f3;
    ApplyRecordUint(m, 6, r.validity, f2);
    ApplyRecordUint(m.(validity := r.validity), 7, r.seqNo, f3);
    var m3 := m.(validity := r.validity, seqNo := r.seqNo);
    ApplyRecordUint(m3, 8, r.ttl, f4);
    var m4 := m3.(ttl := r.ttl);
    ApplyRecordBytes(m4, 9, Content(r.pubKey), f5);
    ApplyRecordBytes(m4.(pubKey := NormSlice(r.pubKey)), 10, Content(r.data), []);
    ApplyNone(Record(NormRecord(r)));
  }

  lemma ApplyNone(m: Message)
    ensures ApplyAll(m, []) == Parsed(m)
  {
  }

  lemma ApplyRecord(r: RecordVal)
    requires AllWellFormed(RecordFields(r))
    ensures ApplyAll(Record(EMPTY_RECORD), RecordFields(r)) == Parsed(Record(NormRecord(r)))
  {
    hide U, B, ApplyAll, WellFormed, Truncate, ToInt32, Extend32;
    Truncations(r.version, r.validityType);
    Truncations(r.valueType, 0);
    var f6 := U(6, r.validity) + (U(7, r.seqNo) + (U(8, r.ttl) + (B(9, Content(r.pubKey)) + B(10, Content(r.data)))));
    var f5 := U(5, Extend32(r.validityType)) + f6;
    var f4 := B(4, Content(r.signature)) + f5;
    var f3 := B(3, Content(r.value)) + f4;
    var f2 := U(2, r.valueType) + f3;
    var m := EMPTY_RECORD;
    ApplyRecordUint(m, 1, r.version, f2);
    m := m.(version := r.version);
    ApplyRecordUint(m, 2, r.valueType, f3);
    m := m.(valueType := r.valueType);
    ApplyRecordBytes(m, 3, Content(r.value), f4);
    m := m.(value := NormSlice(r.value));
    ApplyRecordBytes(m, 4, Content(r.signature), f5);
    m := m.(signature := NormSlice(r.signature));
    ApplyRecordUint(m, 5, Extend32(r.validityType), f6);
    m := m.(validityType := r.validityType);
    ApplyRecordTail(r, m, f6);
  }

  lemma ApplyCertTail(c: CertVal, m: CertVal, fs: seq<Field>)
    requires m == NormCert(c).(data := None, issueTime := 0, ttl := 0, issuerPubkey := None, issuerSign := None)
    requires fs == B(6, Content(c.data)) + (U(7, c.issueTime) + (U(8, c.ttl) +
                   (B(10, Content(c.issuerPubkey)) + B(11, Content(c.issuerSign)))))
    requires AllWellFormed(fs)
    ensures ApplyAll(Cert(m), fs) == Parsed(Cert(NormCert(c)))
  {
    hide U, B, ApplyAll, WellFormed;
    var f5 := B(11, Content(c.issuerSign)) + [];
    assert f5 == B(11, Content(c.issuerSign));
    var f4 := B(10, Content(c.issuerPubkey)) + f5;
    var f3 := U(8, c.ttl) + f4;
    var f2 := U(7, c.issueTime) + f3;
    ApplyCertBytes(m, 6, Content(c.data), f2);
    var m2 := m.(data := NormSlice(c.data));
    ApplyCertUint(m2, 7, c.issueTime, f3);
    ApplyCertUint(m2.(issueTime := c.issueTime), 8, c.ttl, f4);
    var m4 := m2.(issueTime := c.issueTime, ttl := c.ttl);
    ApplyCertBytes(m4, 10, Content(c.issuerPubkey), f5);
    ApplyCertBytes(m4.(issuerPubkey := NormSlice(c.issuerPubkey)), 11, Content(c.issuerSign), []);
    ApplyNone(Cert(NormCert(c)));
  }

  lemma ApplyCert(c: CertVal)
    requires AllWellFormed(CertFields(c))
    ensures ApplyAll(Cert(EMPTY_CERT), CertFields(c)) == Parsed(Cert(NormCert(c)))
  {
    hide U, B, ApplyAll, WellFormed, Truncate;
    Truncations(c.version, 0);
    Truncations(c.certType, 0);
    Truncations(c.subType, 0);
    var f6 := B(6, Content(c.data)) + (U(7, c.issueTime) + (U(8, c.ttl) +
              (B(10, Content(c.issuerPubkey)) + B(11, Content(c.issuerSign)))));
    var f5 := B(5, Content(c.userPubkey)) + f6;
    var f4 := U(4, c.subType) + f5;
    var f3 := U(3, c.certType) + f4;
    var f2 := B(2, c.name) + f3;
    var m := EMPTY_CERT;
    ApplyCertUint(m, 1, c.version, f2);
    m := m.(version := c.version);
    ApplyCertBytes(m, 2, c.name, f3);
    m := m.(name := c.name);
    ApplyCertUint(m, 3, c.certType, f4);
    m := m.(certType := c.certType);
    ApplyCertUint(m, 4, c.subType, f5);
    m := m.(subType := c.subType);
    ApplyCertBytes(m, 5, Content(c.userPubkey), f6);
    m := m.(userPubkey := NormSlice(c.userPubkey));
    ApplyCertTail(c, m, f6);
  }

  lemma ParseEncoded(m: Message)
    requires |Encode(m)| < TWO63
    ensures AllWellFormed(FieldsOf(m))
    ensures Parse(Fresh(m), Encode(m), 0) == ApplyAll(Fresh(m), FieldsOf(m))
  {
    hide FieldsOf, Print, PrintAll, WellFormed, Canonical, ApplyAll, Step, Fresh;
    CanonicalFields(m);
    CanonicalAllWellFormed(FieldsOf(m));
    ParseFields(Fresh(m), FieldsOf(m), [], 0);
    assert Encode(m) + [] == Encode(m);
  }

  lemma {:induction false} ApplyVect(v: CertsVal, cs: seq<CertVal>)
    requires AllWellFormed(CertVectFields(cs))
    ensures ApplyAll(Certs(v), CertVectFields(cs)) == Parsed(Certs(v.(certVect := v.certVect + NormVect(cs))))
    decreases |cs|
  {
    hide EncodeCert, ApplyAll, WellFormed, ScanVarint, NormCert, Step, Parse;
    if cs == [] {
      ApplyNone(Certs(v));
      assert v.certVect + NormVect(cs) == v.certVect;
    } else {
      var c, p := cs[0], EncodeCert(cs[0]);
      ApplyVectOne(v, c, CertVectFields(cs[1..]));
      var v' := v.(certVect := v.certVect + [NormCert(c)]);
      ApplyVect(v', cs[1..]);
      assert v'.certVect + NormVect(cs[1..]) == v.certVect + NormVect(cs);
    }
  }

  lemma ApplyVectOne(v: CertsVal, c: CertVal, fs: seq<Field>)
    requires AllWellFormed([BytesField(3, EncodeCert(c))] + fs)
    ensures AllWellFormed(fs)
    ensures ApplyAll(Certs(v), [BytesField(3, EncodeCert(c))] + fs) ==
            ApplyAll(Certs(v.(certVect := v.certVect + [NormCert(c)])), fs)
  {
    var f := BytesField(3, EncodeCert(c));
    assert ([f] + fs)[1..] == fs;
    assert WellFormed(f) by { assert f in [f] + fs; }
    assert |EncodeCert(c)| < TWO63;
    Suffix([f], fs);
    hide CertFields, Print, PrintAll, WellFormed, ScanVarint, NormCert, Step, Value64, FieldNum, Parse;
    OneByteTag(8 * 3 + 2);
    CertRoundTrip(c);
  }

  lemma CertRoundTrip(c: CertVal)
    requires |EncodeCert(c)| < TWO63
    ensures Parse(Cert(EMPTY_CERT), EncodeCert(c), 0) == Parsed(Cert(NormCert(c)))
  {
    hide CertFields, Print, PrintAll, NormCert, Parse, ApplyAll, WellFormed;
    ParseEncoded(Cert(c));
    ApplyCert(c);
  }

  lemma ApplyCerts(v: CertsVal)
    requires AllWellFormed(CertsFields(v))
    ensures ApplyAll(Certs(EMPTY_CERTS), CertsFields(v)) == Parsed(Norm(Certs(v)))
  {
    hide U, B, ApplyAll, WellFormed, CertVectFields, Parse, NormVect;
    var f3 := CertVectFields(v.certVect);
    var m := EMPTY_CERTS;
    ApplyBytes(Certs(m), 1, v.prevBundleAdrr, B(2, Content(v.userData)) + f3);
    m := m.(prevBundleAdrr := v.prevBundleAdrr);
    ApplyBytes(Certs(m), 2, Content(v.userData), f3);
    m := m.(userData := NormSlice(v.userData));
    ApplyVect(m, v.certVect);
    assert m.certVect + NormVect(v.certVect) == NormVect(v.certVect);
  }

  lemma ApplyPrepare(p: PrepareVal)
    requires AllWellFormed(PrepareFields(p))
    ensures ApplyAll(Prepare(EMPTY_PREPARE), PrepareFields(p)) == Parsed(Norm(Prepare(p)))
  {
    hide U, B, ApplyAll, WellFormed;
    var f2 := U(2, p.fee) + [];
    assert f2 == U(2, p.fee);
    ApplyBytes(Prepare(EMPTY_PREPARE), 1, p.key, f2);
    ApplyUint(Prepare(PrepareVal(p.key, 0)), 2, p.fee, []);
    ApplyNone(Prepare(p));
  }

  lemma ApplyCompleted(c: CompletedVal)
    requires AllWellFormed(CompletedFields(c))
    ensures ApplyAll(Completed(EMPTY_COMPLETED), CompletedFields(c)) == Parsed(Norm(Completed(c)))
  {
    hide U, B, ApplyAll, WellFormed;
    var f5 := B(5, Content(c.receiverkey)) + [];
    assert f5 == B(5, Content(c.receiverkey));
    var f4 := B(4, Content(c.senderkey)) + f5;
    var f3 := U(3, c.fee) + f4;
    var m := EMPTY_COMPLETED;
    ApplyBytes(Completed(m), 1, c.key, B(2, c.tx) + f3);
    m := m.(key := c.key);
    ApplyBytes(Completed(m), 2, c.tx, f3);
    m := m.(tx := c.tx);
    ApplyUint(Completed(m), 3, c.fee, f4);
    m := m.(fee := c.fee);
    ApplyBytes(Completed(m), 4, Content(c.senderkey), f5);
    m := m.(senderkey := NormSlice(c.senderkey));
    ApplyBytes(Completed(m), 5, Content(c.receiverkey), []);
    ApplyNone(Norm(Completed(c)));
  }

  lemma ApplyToken(t: TokenVal)
    requires AllWellFormed(TokenFields(t))
    ensures ApplyAll(Token(EMPTY_TOKEN), TokenFields(t)) == Parsed(Norm(Token(t)))
  {
    hide U, B, ApplyAll, WellFormed;
    var f5 := B(5, Content(t.userData)) + [];
    assert f5 == B(5, Content(t.userData));
    var f4 := B(4, Content(t.receiverKey)) + f5;
    var m := EMPTY_TOKEN;
    ApplyBytes(Token(m), 1, t.name, U(2, t.maxScore) + f4);
    m := m.(name := t.name);
    ApplyUint(Token(m), 2, t.maxScore, f4);
    m := m.(maxScore := t.maxScore);
    ApplyBytes(Token(m), 4, Content(t.receiverKey), f5);
    m := m.(receiverKey := NormSlice(t.receiverKey));
    ApplyBytes(Token(m), 5, Content(t.userData), []);
    ApplyNone(Norm(Token(t)));
  }

  // ----- the theorems

  /** Unmarshalling the marshalled bytes of any message into a fresh struct gives the message back, up to
      nil versus empty slices. */
  lemma UnmarshalMarshal(m: Message)
    requires |Encode(m)| < TWO63
    ensures Parse(Fresh(m), Encode(m), 0) == Parsed(Norm(m))
  {
    hide Print, PrintAll, Parse, ApplyAll, WellFormed, Norm, NormRecord, NormCert;
    ParseEncoded(m);
    match m {
      case Record(r) => ApplyRecord(r); NormIs(m);
      case Cert(c) => ApplyCert(c); NormIs(m);
      case Certs(v) => ApplyCerts(v);
      case Prepare(p) => ApplyPrepare(p);
      case Completed(c) => ApplyCompleted(c);
      case Token(t) => ApplyToken(t);
    }
  }

  lemma NormIs(m: Message)
    ensures m.Record? ==> Norm(m) == Record(NormRecord(m.rec))
    ensures m.Cert? ==> Norm(m) == Cert(NormCert(m.cert))
  {
  }

  /** Hence the bytes determine the message, up to nil versus empty. */
  lemma MarshalInjective(m: Message, n: Message)
    requires SameType(m, n) && |Encode(m)| < TWO63 && Encode(m) == Encode(n)
    ensures Norm(m) == Norm(n)
  {
    hide Encode, Norm, Parse;
    UnmarshalMarshal(m);
    UnmarshalMarshal(n);
  }

  /** And nil versus empty makes no difference to the bytes. */
  lemma {:induction false} VectNorm(cs: seq<CertVal>)
    ensures CertVectFields(NormVect(cs)) == CertVectFields(cs)
    decreases |cs|
  {
    if cs != [] {
      assert NormVect(cs)[1..] == NormVect(cs[1..]);
      VectNorm(cs[1..]);
      CertNorm(cs[0]);
    }
  }

  lemma CertNorm(c: CertVal)
    ensures CertFields(NormCert(c)) == CertFields(c)
  {
    hide U, B;
  }

  lemma MarshalNorm(m: Message)
    ensures Encode(Norm(m)) == Encode(m)
  {
    hide U, B, CertVectFields, NormVect, Print, PrintAll;
    match m
    case Certs(v) => VectNorm(v.certVect);
    case Cert(c) => CertNorm(c);
    case _ =>
  }
}
