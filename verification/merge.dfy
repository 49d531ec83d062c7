/** Unmarshalling on top of a message that already has values: what proto3 calls merging. A field that is printed
    takes the place of the old value, one that is not leaves it, and certificates are appended. */
module Merge {
  import opened GoTypes
  import opened Varint
  import opened WireGrammar
  import opened Messages
  import opened ParseTheory
  import opened RoundTrip

  function OrElse(v: int, was: int): int {
    if v == 0 then was else v
  }

  function OrBytes(p: Bytes, was: Bytes): Bytes {
    if p == [] then was else p
  }

  function OrSlice(s: Slice, was: Slice): Slice {
    if Content(s) == [] then was else s
  }

  function MergeRecord(m: RecordVal, r: RecordVal): RecordVal {
    RecordVal(OrElse(r.version, m.version), OrElse(r.valueType, m.valueType), OrSlice(r.value, m.value),
              OrSlice(r.signature, m.signature), OrElse(r.validityType, m.validityType),
              OrElse(r.validity, m.validity), OrElse(r.seqNo, m.seqNo), OrElse(r.ttl, m.ttl),
              OrSlice(r.pubKey, m.pubKey), OrSlice(r.data, m.data))
  }

  function MergeCert(m: CertVal, c: CertVal): CertVal {
    CertVal(OrElse(c.version, m.version), OrBytes(c.name, m.name), OrElse(c.certType, m.certType),
            OrElse(c.subType, m.subType), OrSlice(c.userPubkey, m.userPubkey), OrSlice(c.data, m.data),
            OrElse(c.issueTime, m.issueTime), OrElse(c.ttl, m.ttl), OrSlice(c.issuerPubkey, m.issuerPubkey),
            OrSlice(c.issuerSign, m.issuerSign))
  }

  function MergeMessage(m: Message, n: Message): Message
    requires SameType(m, n)
  {
    match n
    case Record(r) => Record(MergeRecord(m.rec, r))
    case Cert(c) => Cert(MergeCert(m.cert, c))
    case Certs(v) =>
      Certs(CertsVal(OrBytes(v.prevBundleAdrr, m.certs.prevBundleAdrr), OrSlice(v.userData, m.certs.userData),
                     m.certs.certVect + NormVect(v.certVect)))
    case Prepare(p) => Prepare(PrepareVal(OrBytes(p.key, m.prep.key), OrElse(p.fee, m.prep.fee)))
    case Completed(c) =>
      Completed(CompletedVal(OrBytes(c.key, m.comp.key), OrBytes(c.tx, m.comp.tx), OrElse(c.fee, m.comp.fee),
                             OrSlice(c.senderkey, m.comp.senderkey), OrSlice(c.receiverkey, m.comp.receiverkey)))
    case Token(t) =>
      Token(TokenVal(OrBytes(t.name, m.token.name), OrElse(t.maxScore, m.token.maxScore),
                     OrSlice(t.receiverKey, m.token.receiverKey), OrSlice(t.userData, m.token.userData)))
  }

  lemma MergeRecordEnd(r: RecordVal, m: RecordVal, fs: seq<Field>)
    requires fs == B(9, Content(r.pubKey)) + B(10, Content(r.data)) && AllWellFormed(fs)
    ensures ApplyAll(Record(m), fs) ==
            Parsed(Record(m.(pubKey := OrSlice(r.pubKey, m.pubKey), data := OrSlice(r.data, m.data))))
  {
    hide U, B, ApplyAll, WellFormed;
    var f5 := B(10, Content(r.data)) + [];
    assert f5 == B(10, Content(r.data));
    ApplyRecordBytes(m, 9, Content(r.pubKey), f5);
    var m4 := m.(pubKey := OrSlice(r.pubKey, m.pubKey));
    ApplyRecordBytes(m4, 10, Content(r.data), []);
    ApplyNone(Record(m4.(data := OrSlice(r.data, m.data))));
  }

  lemma MergeRecordTail(r: RecordVal, m: RecordVal, fs: seq<Field>)
    requires fs ==
             U(6, r.validity) + (U(7, r.seqNo) + (U(8, r.ttl) + (B(9, Content(r.pubKey)) + B(10, Content(r.data)))))
    requires AllWellFormed(fs)
    ensures ApplyAll(Record(m), fs) ==
            Parsed(Record(m.(validity := OrElse(r.validity, m.validity), seqNo := OrElse(r.seqNo, m.seqNo),
                             ttl := OrElse(r.ttl, m.ttl), pubKey := OrSlice(r.pubKey, m.pubKey),
                             data := OrSlice(r.data, m.data))))
  {
    hide U, B, ApplyAll, WellFormed, OrSlice, Content;
    var f4 := B(9, Content(r.pubKey)) + B(10, Content(r.data));
    var f3 := U(8, r.ttl) + f4;
    var f2 := U(7, r.seqNo) + f3;
    ApplyRecordUint(m, 6, r.validity, f2);
    var m1 := m.(validity := OrElse(r.validity, m.validity));
    ApplyRecordUint(m1, 7, r.seqNo, f3);
    var m2 := m1.(seqNo := OrElse(r.seqNo, m.seqNo));
    ApplyRecordUint(m2, 8, r.ttl, f4);
    MergeRecordEnd(r, m2.(ttl := OrElse(r.ttl, m.ttl)), f4);
  }

  lemma RecordOnto(m: RecordVal, r: RecordVal)
    requires AllWellFormed(RecordFields(r))
    ensures ApplyAll(Record(m), RecordFields(r)) == Parsed(Record(MergeRecord(m, r)))
  {
    hide U, B, ApplyAll, WellFormed, Truncate, ToInt32, Extend32;
    Truncations(r.version, r.validityType);
    Truncations(r.valueType, 0);
    var f6 := U(6, r.validity) + (U(7, r.seqNo) + (U(8, r.ttl) + (B(9, Content(r.pubKey)) + B(10, Content(r.data)))));
    var f5 := U(5, Extend32(r.validityType)) + f6;
    var f4 := B(4, Content(r.signature)) + f5;
    var f3 := B(3, Content(r.value)) + f4;
    var f2 := U(2, r.valueType) + f3;
    ApplyRecordUint(m, 1, r.version, f2);
    var m1 := m.(version := OrElse(r.version, m.version));
    ApplyRecordUint(m1, 2, r.valueType, f3);
    var m2 := m1.(valueType := OrElse(r.valueType, m.valueType));
    ApplyRecordBytes(m2, 3, Content(r.value), f4);
    var m3 := m2.(value := OrSlice(r.value, m.value));
    ApplyRecordBytes(m3, 4, Content(r.signature), f5);
    var m4 := m3.(signature := OrSlice(r.signature, m.signature));
    ApplyRecordUint(m4, 5, Extend32(r.validityType), f6);
    var m5 := m4.(validityType := OrElse(r.validityType, m.validityType));
    MergeRecordTail(r, m5, f6);
  }

  lemma MergeCertTail(c: CertVal, m: CertVal, fs: seq<Field>)
    requires fs == B(6, Content(c.data)) + (U(7, c.issueTime) + (U(8, c.ttl) +
                   (B(10, Content(c.issuerPubkey)) + B(11, Content(c.issuerSign)))))
    requires AllWellFormed(fs)
    ensures ApplyAll(Cert(m), fs) ==
            Parsed(Cert(m.(data := OrSlice(c.data, m.data), issueTime := OrElse(c.issueTime, m.issueTime),
                           ttl := OrElse(c.ttl, m.ttl), issuerPubkey := OrSlice(c.issuerPubkey, m.issuerPubkey),
                           issuerSign := OrSlice(c.issuerSign, m.issuerSign))))
  {
    hide U, B, ApplyAll, WellFormed;
    var f5 := B(11, Content(c.issuerSign)) + [];
    assert f5 == B(11, Content(c.issuerSign));
    var f4 := B(10, Content(c.issuerPubkey)) + f5;
    var f3 := U(8, c.ttl) + f4;
    var f2 := U(7, c.issueTime) + f3;
    ApplyCertBytes(m, 6, Content(c.data), f2);
    var m1 := m.(data := OrSlice(c.data, m.data));
    ApplyCertUint(m1, 7, c.issueTime, f3);
    var m2 := m1.(issueTime := OrElse(c.issueTime, m.issueTime));
    ApplyCertUint(m2, 8, c.ttl, f4);
    var m3 := m2.(ttl := OrElse(c.ttl, m.ttl));
    ApplyCertBytes(m3, 10, Content(c.issuerPubkey), f5);
    var m4 := m3.(issuerPubkey := OrSlice(c.issuerPubkey, m.issuerPubkey));
    ApplyCertBytes(m4, 11, Content(c.issuerSign), []);
    ApplyNone(Cert(m4.(issuerSign := OrSlice(c.issuerSign, m.issuerSign))));
  }

  lemma CertOnto(m: CertVal, c: CertVal)
    requires AllWellFormed(CertFields(c))
    ensures ApplyAll(Cert(m), CertFields(c)) == Parsed(Cert(MergeCert(m, c)))
  {
    hide U, B, ApplyAll, WellFormed, Truncate;
    Truncations(c.version, 0);
    Truncations(c.certType, 0);
    Truncations(c.subType, 0);
    var f6 := B(6, Content(c.data)) + (U(7, c.issueTime) + (U(8, c.ttl) +
              (B(10, Content(c.issuerPubkey)) + B(11, Content(c.issuerSign)))));
    var f5 := B(5, Content(c.userPubkey)) + f6;
    var f4 := U(4, c.subType) + f5;
    var f3 := U(3, c.certType) + f4;
    var f2 := B(2, c.name) + f3;
    ApplyCertUint(m, 1, c.version, f2);
    var m1 := m.(version := OrElse(c.version, m.version));
    ApplyCertBytes(m1, 2, c.name, f3);
    var m2 := m1.(name := OrBytes(c.name, m.name));
    ApplyCertUint(m2, 3, c.certType, f4);
    var m3 := m2.(certType := OrElse(c.certType, m.certType));
    ApplyCertUint(m3, 4, c.subType, f5);
    var m4 := m3.(subType := OrElse(c.subType, m.subType));
    ApplyCertBytes(m4, 5, Content(c.userPubkey), f6);
    var m5 := m4.(userPubkey := OrSlice(c.userPubkey, m.userPubkey));
    MergeCertTail(c, m5, f6);
  }

  lemma CertsOnto(m: CertsVal, v: CertsVal)
    requires AllWellFormed(CertsFields(v))
    ensures ApplyAll(Certs(m), CertsFields(v)) == Parsed(MergeMessage(Certs(m), Certs(v)))
  {
    hide U, B, ApplyAll, WellFormed, CertVectFields, Parse, NormVect;
    var f3 := CertVectFields(v.certVect);
    ApplyBytes(Certs(m), 1, v.prevBundleAdrr, B(2, Content(v.userData)) + f3);
    var m1 := m.(prevBundleAdrr := OrBytes(v.prevBundleAdrr, m.prevBundleAdrr));
    ApplyBytes(Certs(m1), 2, Content(v.userData), f3);
    var m2 := m1.(userData := OrSlice(v.userData, m.userData));
    ApplyVect(m2, v.certVect);
  }

  lemma PrepareOnto(m: PrepareVal, p: PrepareVal)
    requires AllWellFormed(PrepareFields(p))
    ensures ApplyAll(Prepare(m), PrepareFields(p)) == Parsed(MergeMessage(Prepare(m), Prepare(p)))
  {
    hide U, B, ApplyAll, WellFormed;
    var f2 := U(2, p.fee) + [];
    assert f2 == U(2, p.fee);
    ApplyBytes(Prepare(m), 1, p.key, f2);
    var m1 := m.(key := OrBytes(p.key, m.key));
    ApplyUint(Prepare(m1), 2, p.fee, []);
    ApplyNone(Prepare(m1.(fee := OrElse(p.fee, m.fee))));
  }

  lemma CompletedOnto(m: CompletedVal, c: CompletedVal)
    requires AllWellFormed(CompletedFields(c))
    ensures ApplyAll(Completed(m), CompletedFields(c)) == Parsed(MergeMessage(Completed(m), Completed(c)))
  {
    hide U, B, ApplyAll, WellFormed;
    var f5 := B(5, Content(c.receiverkey)) + [];
    assert f5 == B(5, Content(c.receiverkey));
    var f4 := B(4, Content(c.senderkey)) + f5;
    var f3 := U(3, c.fee) + f4;
    ApplyBytes(Completed(m), 1, c.key, B(2, c.tx) + f3);
    var m1 := m.(key := OrBytes(c.key, m.key));
    ApplyBytes(Completed(m1), 2, c.tx, f3);
    var m2 := m1.(tx := OrBytes(c.tx, m.tx));
    ApplyUint(Completed(m2), 3, c.fee, f4);
    var m3 := m2.(fee := OrElse(c.fee, m.fee));
    ApplyBytes(Completed(m3), 4, Content(c.senderkey), f5);
    var m4 := m3.(senderkey := OrSlice(c.senderkey, m.senderkey));
    ApplyBytes(Completed(m4), 5, Content(c.receiverkey), []);
    ApplyNone(Completed(m4.(receiverkey := OrSlice(c.receiverkey, m.receiverkey))));
  }

  lemma TokenOnto(m: TokenVal, t: TokenVal)
    requires AllWellFormed(TokenFields(t))
    ensures ApplyAll(Token(m), TokenFields(t)) == Parsed(MergeMessage(Token(m), Token(t)))
  {
    hide U, B, ApplyAll, WellFormed;
    var f5 := B(5, Content(t.userData)) + [];
    assert f5 == B(5, Content(t.userData));
    var f4 := B(4, Content(t.receiverKey)) + f5;
    ApplyBytes(Token(m), 1, t.name, U(2, t.maxScore) + f4);
    var m1 := m.(name := OrBytes(t.name, m.name));
    ApplyUint(Token(m1), 2, t.maxScore, f4);
    var m2 := m1.(maxScore := OrElse(t.maxScore, m.maxScore));
    ApplyBytes(Token(m2), 4, Content(t.receiverKey), f5);
    var m3 := m2.(receiverKey := OrSlice(t.receiverKey, m.receiverKey));
    ApplyBytes(Token(m3), 5, Content(t.userData), []);
    ApplyNone(Token(m3.(userData := OrSlice(t.userData, m.userData))));
  }

  /** Unmarshalling the bytes of n on top of m merges n into m, for all six messages. */
  lemma MergeOnto(m: Message, n: Message)
    requires SameType(m, n) && |Encode(n)| < TWO63
    ensures Parse(m, Encode(n), 0) == Parsed(MergeMessage(m, n))
  {
    hide Print, PrintAll, Parse, ApplyAll, WellFormed, MergeRecord, MergeCert;
    EncodedOnto(m, n);
    match n {
      case Record(r) => RecordOnto(m.rec, r);
      case Cert(c) => CertOnto(m.cert, c);
      case Certs(v) => CertsOnto(m.certs, v);
      case Prepare(p) => PrepareOnto(m.prep, p);
      case Completed(c) => CompletedOnto(m.comp, c);
      case Token(t) => TokenOnto(m.token, t);
    }
  }

  lemma EncodedOnto(m: Message, n: Message)
    requires |Encode(n)| < TWO63
    ensures AllWellFormed(FieldsOf(n)) && Parse(m, Encode(n), 0) == ApplyAll(m, FieldsOf(n))
  {
    hide FieldsOf, Print, PrintAll, WellFormed, Canonical, ApplyAll, Step;
    CanonicalFields(n);
    CanonicalAllWellFormed(FieldsOf(n));
    ParseFields(m, FieldsOf(n), [], 0);
    assert Encode(n) + [] == Encode(n);
  }

  // ----- which fields a message knows

  /** The integer fields and the length-delimited fields of dkvs/pb/dkvs_record.proto. */
  lemma KnownFields(m: Message, num: int)
    ensures KindOf(m, num) == UintKind <==>
              || (m.Record? && num in {1, 2, 5, 6, 7, 8})
              || (m.Cert? && num in {1, 3, 4, 7, 8})
              || (m.Prepare? && num == 2) || (m.Completed? && num == 3) || (m.Token? && num == 2)
    ensures KindOf(m, num) == BytesKind <==>
              || (m.Record? && num in {3, 4, 9, 10})
              || (m.Cert? && num in {2, 5, 6, 10, 11})
              || (m.Certs? && num in {1, 2, 3})
              || (m.Prepare? && num == 1) || (m.Completed? && num in {1, 2, 4, 5}) || (m.Token? && num in {1, 4, 5})
  {
  }

  /** A known field of another wire type is an error, wherever it stands; so is a field number that is not positive. */
  lemma WrongFieldRejected(m: Message, f: Field, rest: Bytes)
    requires WellFormed(f) && |Print(f) + rest| < TWO63
    requires var num := FieldNum(Value64(f.tag));
             || num <= 0
             || (KindOf(m, num) == UintKind && !f.VarintField?)
             || (KindOf(m, num) == BytesKind && !f.LenField?)
    ensures Parse(m, Print(f) + rest, 0) ==
            ParseErr(if FieldNum(Value64(f.tag)) <= 0 then IllegalTag else WrongWireType)
  {
    hide KindOf, FieldNum, Value64, Print, WellFormed, Step;
    StepOfField(m, f, rest, 0);
    FieldTag(f);
  }

  // ----- inputs that end too soon

  /** A length-delimited field that declares more than there is, or a length no index can hold, is an error of its
      own. */
  lemma OverlongField(m: Message, n: FieldNo, len: uint64, p: Bytes)
    requires KindOf(m, n) == BytesKind && |p| < len && |p| + 20 < TWO63
    ensures Parse(m, [8 * n + 2] + (EncVarint(len) + p), 0) ==
            ParseErr(if 1 + |EncVarint(len)| + len >= TWO63 then InvalidLength else UnexpectedEof)
  {
    var rest := EncVarint(len) + p;
    OverlongBytes(len, p);
    hide BytesAt, EncVarint, ScanVarint;
    FailsAtBytes(m, n, rest);
  }

  /** The error of the payload of the first field is that of the whole. */
  lemma FailsAtBytes(m: Message, n: FieldNo, rest: Bytes)
    requires KindOf(m, n) == BytesKind && BytesAt(rest, 2, 1).BadCut?
    ensures Parse(m, [8 * n + 2] + rest, 0) == ParseErr(BytesAt(rest, 2, 1).error)
  {
    hide KindOf, FieldNum, Value64, WireType, BytesAt, PutBytes, ScanVarint, Skip;
    var all := [8 * n + 2] + rest;
    OneByteTag(8 * n + 2);
    assert (8 * n + 2) / 8 == n && (8 * n + 2) % 8 == 2;
    StepTag(m, all, 0, [8 * n + 2]);
    assert all[1..] == rest;
  }

  lemma OverlongBytes(len: uint64, p: Bytes)
    requires |p| < len && |p| + 20 < TWO63
    ensures BytesAt(EncVarint(len) + p, 2, 1) ==
            BadCut(if 1 + |EncVarint(len)| + len >= TWO63 then InvalidLength else UnexpectedEof)
  {
    hide EncVarint, ScanVarint;
    EncLength64(len);
    ScanEnc(len, p, 0);
    assert Truncate(len, W64) == len;
  }

  /** An integer field whose varint is cut off, or runs past ten bytes, likewise. */
  lemma BrokenVarint(m: Message, n: FieldNo, v: Bytes)
    requires KindOf(m, n) == UintKind && ScanVarint(v, 0).Err?
    ensures Parse(m, [8 * n] + v, 0) == ParseErr(ScanVarint(v, 0).error)
  {
    hide KindOf, FieldNum, Value64, PutUint, ScanVarint, Skip;
    var all := [8 * n] + v;
    OneByteTag(8 * n);
    StepTag(m, all, 0, [8 * n]);
    assert all[1..] == v;
  }
}
