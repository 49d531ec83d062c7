/** Handing a key over (CheckTransferPara and TransferKey of dkvs/dkvs.go): a record made of an offer that passes
    the check, with the fee settled, is preferred to the old one by every replica that holds it, and stored there
    just when it also meets what the check does not look at. */
module Transfer {
  import opened GoTypes
  import opened Varint
  import opened WireGrammar
  import opened Messages
  import opened Marshal
  import opened RoundTrip
  import opened Services
  import opened Certs
  import opened Records
  import opened LocalStore

  const MAX_KEY_LENGTH := 256

  predicate IsValidKey(key: Bytes) {
    0 < |key| <= MAX_KEY_LENGTH && key[0] == SLASH
  }

  /** What the old owner (1) and the receiver (2) bring to a transfer. */
  datatype Offer = Offer(value1: Slice, pubkey1: Slice, sig1: Slice, value2: Slice, pubkey2: Slice, sig2: Slice,
                         issuetime: uint64, ttl: uint64, txcert: Option<CertVal>)

  /** CheckTransferPara, given what reading the current record returned. */
  function CheckTransferPara(env: Env, key: Bytes, oldRec: Option<RecordVal>, o: Offer): Option<DkvsError>
    requires TableOk(env.services)
  {
    if !IsValidKey(key) then Some(InvalidPath)
    else if oldRec.None? || !BytesEqual(o.pubkey1, oldRec.value.pubKey) then Some(TransferFailed)
    else if o.ttl != oldRec.value.ttl || !BytesEqual(oldRec.value.value, o.value2) then Some(TransferFailed)
    else
      var v1 := ValidateValue(env, key, o.value1, o.pubkey1, o.issuetime, o.ttl, o.sig1, 1);
      var v2 := ValidateValue(env, key, o.value2, o.pubkey2, o.issuetime, o.ttl, o.sig2, 1);
      if v1.Some? then v1
      else if v2.Some? then v2
      else
        var cert1 := GetCertTransferPrepare(env, o.value1);
        if cert1.None? || !VerifyCertTransferPrepare(key, cert1.value, o.pubkey1, o.pubkey2) then Some(BadCert)
        else if o.txcert.Some? &&
                (!env.publicService(ServiceMiner(), Content(o.txcert.value.issuerPubkey)) ||
                 !VerifyCertTxCompleted2(env, key, cert1.value, o.txcert, o.pubkey1, o.pubkey2)) then Some(BadCert)
        else None
  }

  function PreparedRecord(o: Offer, seqNo: uint64): RecordVal {
    CreateRecord(o.value1, o.pubkey1, o.issuetime, o.ttl, o.sig1, 1, seqNo).(
      data := if o.txcert.Some? then Some(EncodeCert(o.txcert.value)) else None)
  }

  /** The one record that carries the transfer: certificate and receipt travel in Data. */
  function TransferRecord(o: Offer, seq1: uint64, seq2: uint64): RecordVal {
    CreateRecord(o.value2, o.pubkey2, o.issuetime, o.ttl, o.sig2, 1, seq2).(
      data := Some(Encode(Record(PreparedRecord(o, seq1)))))
  }

  /** TransferKey up to the put: checks, draws two sequence numbers and marshals the nested records. */
  method TransferKey(env: Env, key: Bytes, oldRec: Option<RecordVal>, o: Offer, clock: SeqClock, wall1: uint64,
                     wall2: uint64)
    returns (err: Option<DkvsError>, recBuf: Bytes, ghost seq1: uint64, ghost seq2: uint64)
    requires TableOk(env.services)
    modifies clock
    ensures err == CheckTransferPara(env, key, oldRec, o)
    ensures err.None? ==> recBuf == Encode(Record(TransferRecord(o, seq1, seq2)))
    ensures err.None? ==> clock.lastTimestamp == seq2 && (seq1 < TWO64 - 1 ==> seq2 > seq1)
    ensures err.Some? ==> recBuf == [] && clock.lastTimestamp == old(clock.lastTimestamp)
  {
    hide CheckTransferPara, Print, PrintAll, RecordFields, CertFields;
    recBuf, seq1, seq2 := [], 0, 0;
    err := CheckTransferPara(env, key, oldRec, o);
    if err.Some? {
      return;
    }
    var s1 := clock.TimestampSeq(wall1);
    var prepareRecord := CreateRecord(o.value1, o.pubkey1, o.issuetime, o.ttl, o.sig1, 1, s1);
    if o.txcert.Some? {
      prepareRecord := prepareRecord.(data := Some(EncodeCert(o.txcert.value)));
    }
    var s2 := clock.TimestampSeq(wall2);
    var newRecord := CreateRecord(o.value2, o.pubkey2, o.issuetime, o.ttl, o.sig2, 1, s2);
    newRecord := newRecord.(data := Some(Encode(Record(prepareRecord))));
    recBuf, seq1, seq2 := Encode(Record(newRecord)), s1, s2;
  }

  // ----- the nested encodings come apart again

  lemma RecordDataFits(r: RecordVal)
    ensures |Content(r.data)| <= |Encode(Record(r))|
  {
    hide U, B, Print, PrintAll, Content;
    var f10 := B(10, Content(r.data));
    var f9 := B(9, Content(r.pubKey)) + f10;
    var f8 := U(8, r.ttl) + f9;
    var f7 := U(7, r.seqNo) + f8;
    var f6 := U(6, r.validity) + f7;
    var f5 := U(5, Extend32(r.validityType)) + f6;
    var f4 := B(4, Content(r.signature)) + f5;
    var f3 := B(3, Content(r.value)) + f4;
    var f2 := U(2, r.valueType) + f3;
    var size := |Encode(Record(r))|;
    TailFits(U(1, r.version), f2, size);
    TailFits(U(2, r.valueType), f3, size);
    TailFits(B(3, Content(r.value)), f4, size);
    TailFits(B(4, Content(r.signature)), f5, size);
    TailFits(U(5, Extend32(r.validityType)), f6, size);
    TailFits(U(6, r.validity), f7, size);
    TailFits(U(7, r.seqNo), f8, size);
    TailFits(U(8, r.ttl), f9, size);
    TailFits(B(9, Content(r.pubKey)), f10, size);
    PayloadFits(10, Content(r.data), []);
    assert f10 + [] == f10;
  }

  lemma EncodedNonEmpty(r: RecordVal, c: CertVal)
    ensures r.version != 0 ==> Encode(Record(r)) != []
    ensures c.name != [] ==> EncodeCert(c) != []
  {
    hide B, Print, PrintAll, Content, Sov;
    if r.version != 0 {
      SizeU(1, r.version, RecordFields(r)[1..]);
      assert RecordFields(r) == U(1, r.version) + RecordFields(r)[1..];
    }
    if c.name != [] {
      var tail := U(3, c.certType) + (U(4, c.subType) + (B(5, Content(c.userPubkey)) + (B(6, Content(c.data)) +
                  (U(7, c.issueTime) + (U(8, c.ttl) +
                  (B(10, Content(c.issuerPubkey)) + B(11, Content(c.issuerSign))))))));
      TailFits(U(1, c.version), B(2, c.name) + tail, |EncodeCert(c)|);
      PayloadFits(2, c.name, tail);
    }
  }

  lemma DecodeEncodedRecord(r: RecordVal)
    requires |Encode(Record(r))| < TWO63
    ensures DecodeRecord(Some(Encode(Record(r)))) == Some(NormRecord(r))
  {
    hide Print, PrintAll, RecordFields, Parse, NormRecord;
    UnmarshalMarshal(Record(r));
    NormIs(Record(r));
  }

  /** The transfer record as a replica reads it. */
  lemma TransferRecordRead(o: Offer, seq1: uint64, seq2: uint64)
    requires |Encode(Record(TransferRecord(o, seq1, seq2)))| < TWO63
    ensures var r := NormRecord(TransferRecord(o, seq1, seq2));
            && DecodeRecord(Some(Encode(Record(TransferRecord(o, seq1, seq2))))) == Some(r)
            && r.data.Some? && CarriedPrepare(r) == Some(NormRecord(PreparedRecord(o, seq1)))
  {
    hide Print, PrintAll, RecordFields, Parse, DecodeRecord;
    var p := PreparedRecord(o, seq1);
    DecodeEncodedRecord(TransferRecord(o, seq1, seq2));
    EncodedNonEmpty(p, EMPTY_CERT);
    RecordDataFits(TransferRecord(o, seq1, seq2));
    DecodeEncodedRecord(p);
  }

  /** The receipt as a replica reads it: absent, or the certificate up to nil versus empty. */
  function ReadReceipt(p: RecordVal): Option<CertVal> {
    if p.data.Some? then DecodeCert(p.data) else None
  }

  lemma ReceiptRead(o: Offer, seq1: uint64)
    requires |Encode(Record(PreparedRecord(o, seq1)))| < TWO63
    ensures var p := NormRecord(PreparedRecord(o, seq1));
            && (p.data.Some? ==> o.txcert.Some? && ReadReceipt(p) == Some(NormCert(o.txcert.value)))
            && (o.txcert.Some? && o.txcert.value.name != [] ==> p.data.Some?)
  {
    hide Print, PrintAll, RecordFields, CertFields, Parse, DecodeCert, NormCert;
    if o.txcert.Some? {
      RecordDataFits(PreparedRecord(o, seq1));
      DecodeEncodedCert(o.txcert.value);
      EncodedNonEmpty(EMPTY_RECORD, o.txcert.value);
    }
  }

  /** Nil versus empty makes no difference to the checks on a receipt. */
  lemma ReceiptNorm(env: Env, key: Bytes, fee: uint64, c: CertVal, o1: Slice, n1: Slice, o2: Slice, n2: Slice)
    requires BytesEqual(o1, o2) && BytesEqual(n1, n2)
    requires VerifyCertTxCompleted(env, key, fee, Some(c), o1, n1)
    ensures VerifyCertTxCompleted(env, key, fee, Some(NormCert(c)), o2, n2) && c.name != []
  {
    assert TxCompletedName()[0] == 84;
    hide Parse, GetCertSignData, Hex, TxCompletedName;
    VerifyNorm(env, c);
  }

  /** No fee is due, or a receipt was supplied. */
  predicate FeeSettled(env: Env, o: Offer) {
    var cert1 := GetCertTransferPrepare(env, o.value1);
    || o.txcert.Some?
    || (cert1.Some? && DecodePrepare(cert1.value.data).Some? && DecodePrepare(cert1.value.data).value.fee == 0)
  }

  lemma TransferConfirmed(env: Env, key: Bytes, oldRec: RecordVal, o: Offer, receipt: Option<CertVal>)
    requires TableOk(env.services) && CheckTransferPara(env, key, Some(oldRec), o).None? && FeeSettled(env, o)
    requires o.txcert.Some? && o.txcert.value.name != [] ==> receipt == Some(NormCert(o.txcert.value))
    ensures VerifyCertTransferConfirm(env, key, NormSlice(o.value1), receipt, oldRec.pubKey, NormSlice(o.pubkey2))
  {
    hide ValidateValue, DecodePrepare, DecodeCert, DecodeCertsRecordValue, VerifyCert, VerifyCertTxCompleted, NormCert;
    assert GetCertTransferPrepare(env, NormSlice(o.value1)) == GetCertTransferPrepare(env, o.value1) by {
      SameContent(o.value1);
    }
    var cert1 := GetCertTransferPrepare(env, o.value1).value;
    var tp := DecodePrepare(cert1.data).value;
    if tp.fee != 0 {
      ReceiptNorm(env, key, tp.fee, o.txcert.value, o.pubkey1, o.pubkey2, oldRec.pubKey, NormSlice(o.pubkey2));
    }
  }

  lemma SameContent(s: Slice)
    ensures DecodeCertsRecordValue(NormSlice(s)) == DecodeCertsRecordValue(s)
  {
    hide Parse;
  }

  lemma CheckOwnerByConfirm(env: Env, key: Bytes, oldRec: RecordVal, newRec: RecordVal)
    requires newRec.data.Some? && CarriedPrepare(newRec).Some?
    requires CarriedPrepare(newRec).value.data.Some? ==> DecodeCert(CarriedPrepare(newRec).value.data).Some?
    requires VerifyCertTransferConfirm(env, key, CarriedPrepare(newRec).value.value,
                                       ReadReceipt(CarriedPrepare(newRec).value), oldRec.pubKey, newRec.pubKey)
    ensures CheckOwner(env, key, oldRec, newRec).None?
  {
    hide VerifyCertTransferConfirm, CarriedPrepare, DecodeCert;
  }

  lemma NormFields(r: RecordVal)
    ensures NormRecord(r).value == NormSlice(r.value) && NormRecord(r).pubKey == NormSlice(r.pubKey)
    ensures NormRecord(r).seqNo == r.seqNo
  {
  }

  lemma OfferFields(o: Offer, seq1: uint64, seq2: uint64)
    ensures TransferRecord(o, seq1, seq2).data == Some(Encode(Record(PreparedRecord(o, seq1))))
    ensures TransferRecord(o, seq1, seq2).pubKey == o.pubkey2 && TransferRecord(o, seq1, seq2).seqNo == seq2
    ensures PreparedRecord(o, seq1).value == o.value1
  {
    hide Encode;
  }

  lemma TransferOwnerChecked(env: Env, key: Bytes, oldRec: RecordVal, o: Offer, seq1: uint64, seq2: uint64)
    requires TableOk(env.services)
    requires CheckTransferPara(env, key, Some(oldRec), o).None? && FeeSettled(env, o)
    requires |Encode(Record(TransferRecord(o, seq1, seq2)))| < TWO63
    ensures CheckOwner(env, key, oldRec, NormRecord(TransferRecord(o, seq1, seq2))).None?
  {
    hide *;
    OfferFields(o, seq1, seq2);
    NormFields(TransferRecord(o, seq1, seq2));
    NormFields(PreparedRecord(o, seq1));
    TransferRecordRead(o, seq1, seq2);
    NestedFits(o, seq1, seq2);
    ReceiptRead(o, seq1);
    var p := NormRecord(PreparedRecord(o, seq1));
    assert p.data.Some? ==> DecodeCert(p.data).Some? by { ReadReceiptIs(p); }
    TransferConfirmed(env, key, oldRec, o, ReadReceipt(p));
    CheckOwnerByConfirm(env, key, oldRec, NormRecord(TransferRecord(o, seq1, seq2)));
  }

  lemma ReadReceiptIs(p: RecordVal)
    ensures p.data.Some? ==> ReadReceipt(p) == DecodeCert(p.data)
  {
  }

  lemma NestedFits(o: Offer, seq1: uint64, seq2: uint64)
    ensures |Encode(Record(PreparedRecord(o, seq1)))| <= |Encode(Record(TransferRecord(o, seq1, seq2)))|
  {
    hide Encode, PreparedRecord;
    RecordDataFits(TransferRecord(o, seq1, seq2));
  }

  /** Transfer completeness: an offer that passes CheckTransferPara, with the fee settled, makes a record that
      Validator.Select prefers to the old one, as soon as its Seq is greater. */
  lemma TransferSelected(env: Env, key: Bytes, oldVal: Bytes, oldRec: RecordVal, o: Offer, seq1: uint64, seq2: uint64)
    requires TableOk(env.services) && DecodeRecord(Some(oldVal)) == Some(oldRec)
    requires CheckTransferPara(env, key, Some(oldRec), o).None? && FeeSettled(env, o)
    requires seq2 > oldRec.seqNo && |Encode(Record(TransferRecord(o, seq1, seq2)))| < TWO63
    ensures Select(env, RecordKey(key), [Encode(Record(TransferRecord(o, seq1, seq2))), oldVal]) == Success(0)
  {
    assert key != [] && key[0] == SLASH;
    hide *;
    InnerOfRecordKey(key);
    OfferFields(o, seq1, seq2);
    NormFields(TransferRecord(o, seq1, seq2));
    TransferRecordRead(o, seq1, seq2);
    TransferOwnerChecked(env, key, oldRec, o, seq1, seq2);
    SelectNewer(env, RecordKey(key), key, Encode(Record(TransferRecord(o, seq1, seq2))),
                NormRecord(TransferRecord(o, seq1, seq2)), oldVal, oldRec);
  }

  /** The transfer record is valid in itself exactly if it is small enough, names a receiver and is not expired:
      what the check has not looked at. */
  lemma TransferValid(env: Env, key: Bytes, oldRec: RecordVal, o: Offer, seq1: uint64, seq2: uint64)
    requires TableOk(env.services) && CheckTransferPara(env, key, Some(oldRec), o).None?
    requires |Encode(Record(TransferRecord(o, seq1, seq2)))| < TWO63
    ensures Validate(env, RecordKey(key), Encode(Record(TransferRecord(o, seq1, seq2)))).None? <==>
              && |Encode(Record(TransferRecord(o, seq1, seq2)))| <= MAX_RECORD_SIZE
              && Content(o.pubkey2) != []
              && env.now <= Add64(o.issuetime, o.ttl)
  {
    var r := TransferRecord(o, seq1, seq2);
    var n := NormRecord(r);
    assert n.value == NormSlice(o.value2) && n.pubKey == NormSlice(o.pubkey2) && n.signature == NormSlice(o.sig2);
    assert n.validity == Add64(o.issuetime, o.ttl) && n.ttl == o.ttl && n.valueType == 1 && n.validityType == EOL;
    assert ValidateValue(env, key, o.value2, o.pubkey2, o.issuetime, o.ttl, o.sig2, 1).None? && IsValidKey(key);
    TransferRecordRead(o, seq1, seq2);
    InnerOfRecordKey(key);
    MarshalNorm(Record(r));
    NormIs(Record(r));
    IssueTimeRecovered(o.value2, o.pubkey2, o.issuetime, o.ttl, o.sig2, 1, seq2);
    SameValidation(env, key, o.value2, o.pubkey2, o.issuetime, o.ttl, o.sig2);
    hide CheckTransferPara, ValidateValue, Encode, InnerKey, DecodeRecord, NormRecord, Add64, Sub64, TransferRecord;
  }

  lemma SameValidation(env: Env, key: Bytes, val: Slice, pubKey: Slice, issuetime: uint64, ttl: uint64, sig: Slice)
    requires TableOk(env.services) && key != []
    ensures ValidateValue(env, key, NormSlice(val), pubKey, issuetime, ttl, NormSlice(sig), 1) ==
            ValidateValue(env, key, val, pubKey, issuetime, ttl, sig, 1)
  {
    hide FindGunCert, DecodeToken, LittleEndian, GetGunKey, IsGunName;
    SameContent(val);
  }

  /** Hence a replica that still holds the old record stores the new owner's in its place, on that condition. */
  lemma TransferStored(env: Env, key: Bytes, oldVal: Bytes, oldRec: RecordVal, o: Offer, seq1: uint64, seq2: uint64)
    requires TableOk(env.services) && DecodeRecord(Some(oldVal)) == Some(oldRec)
    requires CheckTransferPara(env, key, Some(oldRec), o).None? && FeeSettled(env, o)
    requires seq2 > oldRec.seqNo && |Encode(Record(TransferRecord(o, seq1, seq2)))| < TWO63
    ensures var k, buf := RecordKey(key), Encode(Record(TransferRecord(o, seq1, seq2)));
            AfterPut(k, Some(Wrapped(k, oldVal)), Put(env, buf)) == Some(Wrapped(k, buf)) <==>
              |buf| <= MAX_RECORD_SIZE && Content(o.pubkey2) != [] && env.now <= Add64(o.issuetime, o.ttl)
    ensures OwnerOf(Wrapped(RecordKey(key), Encode(Record(TransferRecord(o, seq1, seq2))))) == Content(o.pubkey2)
  {
    hide CheckTransferPara, FeeSettled, Encode, Select, Validate, DecodeRecord, TransferRecord, RecordKey, NormRecord,
         PreparedRecord;
    var buf := Encode(Record(TransferRecord(o, seq1, seq2)));
    TransferSelected(env, key, oldVal, oldRec, o, seq1, seq2);
    TransferValid(env, key, oldRec, o, seq1, seq2);
    TransferRecordRead(o, seq1, seq2);
    OfferFields(o, seq1, seq2);
    NormFields(TransferRecord(o, seq1, seq2));
  }
}
