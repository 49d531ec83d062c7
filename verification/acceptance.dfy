/** What the accepting operations accept, exactly: the local put of dkvs/dht.go and the transfer check of
    dkvs/dkvs.go, in terms of signed bytes, certificates and receipts; and what a transfer record carries. */
module Acceptance {
  import opened GoTypes
  import opened Messages
  import opened RoundTrip
  import opened Services
  import opened Certs
  import opened Records
  import opened LocalStore
  import opened Transfer
  import opened SignedBytes
  import opened Validation

  // ----- the local put

  /** A put is accepted exactly when its value is valid and either nothing is in force under the key, or the same value
      is, or one that it supersedes. */
  lemma PutAccepts(env: Env, key: Bytes, s: Option<Stored>, value: Bytes)
    requires TableOk(env.services)
    ensures PutOutcome(env, s, key, value).None? <==>
              && Validate(env, key, value).None?
              && (|| Current(env, s, key) == None
                  || Current(env, s, key) == Some(value)
                  || (InnerKey(key).Some? &&
                      Supersedes(env, InnerKey(key).value, VersionOf(Current(env, s, key).value), VersionOf(value))))
  {
    if Validate(env, key, value).None? && Current(env, s, key).Some? && Current(env, s, key).value != value {
      PutExact(env, key, s.value, value);
    }
    hide Validate, Select, Supersedes, InnerKey;
  }

  // ----- the transfer check

  /** The value is signed for the key, and under a GUN key it verifies as a GUN value. */
  ghost predicate SignedValue(env: Env, key: Bytes, val: Slice, pk: Slice, issuetime: uint64, ttl: uint64, sig: Slice)
    requires TableOk(env.services)
  {
    && pk.Some?
    && env.verify(Content(pk), key + (Content(val) + (Content(pk) + (LowFirst(issuetime) + LowFirst(ttl)))),
                  Content(sig))
    && (GunName(key) ==> VerifyGunRecordValue(env, key, val, issuetime, ttl))
  }

  lemma SignedValueIs(env: Env, key: Bytes, val: Slice, pk: Slice, issuetime: uint64, ttl: uint64, sig: Slice)
    requires TableOk(env.services) && key != []
    ensures ValidateValue(env, key, val, pk, issuetime, ttl, sig, 1).None? <==>
            SignedValue(env, key, val, pk, issuetime, ttl, sig)
  {
    GunNameIs(key);
    SignData(key, val, pk, issuetime, ttl);
    hide GunName, IsGunName, VerifyGunRecordValue, RecordSignData, LowFirst, Content;
  }

  lemma SignData(key: Bytes, val: Slice, pk: Slice, issuetime: uint64, ttl: uint64)
    ensures RecordSignData(key, val, pk, issuetime, ttl) ==
            key + (Content(val) + (Content(pk) + (LowFirst(issuetime) + LowFirst(ttl))))
  {
    EightBytes(issuetime);
    EightBytes(ttl);
    hide Shifted8;
    assert LittleEndian(issuetime, 8) == LowFirst(issuetime) && LittleEndian(ttl, 8) == LowFirst(ttl);
    hide LittleEndian, LowFirst;
  }

  /** The certificate stands in the user data of a bundle. */
  ghost predicate Bundled(value: Slice, c: CertVal) {
    var rv := DecodeCertsRecordValue(value);
    rv.Some? && rv.value.userData.Some? && DecodeCert(rv.value.userData) == Some(c)
  }

  /** A receipt, if one comes with the offer, is of a public miner, and where a fee is due acknowledges it. */
  ghost predicate Receipted(env: Env, key: Bytes, o: Offer, fee: uint64) {
    o.txcert.Some? ==>
      env.publicService(Ascii("miner"), Content(o.txcert.value.issuerPubkey)) &&
      (fee != 0 ==> Acknowledges(env, key, o.txcert.value, fee, o.pubkey1, o.pubkey2))
  }

  ghost predicate Handed(env: Env, key: Bytes, o: Offer, c: CertVal, fee: uint64) {
    Bundled(o.value1, c) && HandsOver(env, key, c, fee, o.pubkey1, o.pubkey2) && Receipted(env, key, o, fee)
  }

  /** CheckTransferPara accepts exactly: a key of fitting length whose record the first party owns and whose value and
      time to live the offer keeps; both values signed; and the owner's certificate that hands the key over. */
  lemma TransferAccepts(env: Env, key: Bytes, oldRec: RecordVal, o: Offer)
    requires TableOk(env.services)
    ensures CheckTransferPara(env, key, None, o).Some?
    ensures CheckTransferPara(env, key, Some(oldRec), o).None? <==>
              && 0 < |key| <= 256 && key[0] == SLASH
              && Content(o.pubkey1) == Content(oldRec.pubKey)
              && Content(o.value2) == Content(oldRec.value) && o.ttl == oldRec.ttl
              && SignedValue(env, key, o.value1, o.pubkey1, o.issuetime, o.ttl, o.sig1)
              && SignedValue(env, key, o.value2, o.pubkey2, o.issuetime, o.ttl, o.sig2)
              && exists c: CertVal, fee: uint64 :: Handed(env, key, o, c, fee)
  {
    if key != [] {
      SignedValueIs(env, key, o.value1, o.pubkey1, o.issuetime, o.ttl, o.sig1);
      SignedValueIs(env, key, o.value2, o.pubkey2, o.issuetime, o.ttl, o.sig2);
    }
    HandedExactly(env, key, o);
    hide SignedValue, ValidateValue, Handed, CertAccepted, Content;
    ByParts(env, key, oldRec, o);
  }

  /** The part of the check that is about certificates. */
  predicate CertAccepted(env: Env, key: Bytes, o: Offer) {
    var cert1 := GetCertTransferPrepare(env, o.value1);
    && cert1.Some? && VerifyCertTransferPrepare(key, cert1.value, o.pubkey1, o.pubkey2)
    && (o.txcert.Some? ==>
          env.publicService(ServiceMiner(), Content(o.txcert.value.issuerPubkey)) &&
          VerifyCertTxCompleted2(env, key, cert1.value, o.txcert, o.pubkey1, o.pubkey2))
  }

  lemma ByParts(env: Env, key: Bytes, oldRec: RecordVal, o: Offer)
    requires TableOk(env.services)
    ensures CheckTransferPara(env, key, None, o).Some?
    ensures CheckTransferPara(env, key, Some(oldRec), o).None? <==>
              && 0 < |key| <= 256 && key[0] == SLASH
              && Content(o.pubkey1) == Content(oldRec.pubKey)
              && Content(o.value2) == Content(oldRec.value) && o.ttl == oldRec.ttl
              && ValidateValue(env, key, o.value1, o.pubkey1, o.issuetime, o.ttl, o.sig1, 1).None?
              && ValidateValue(env, key, o.value2, o.pubkey2, o.issuetime, o.ttl, o.sig2, 1).None?
              && CertAccepted(env, key, o)
  {
    hide ValidateValue, GetCertTransferPrepare, VerifyCertTransferPrepare, VerifyCertTxCompleted2, Content,
         ServiceMiner;
  }

  lemma HandedExactly(env: Env, key: Bytes, o: Offer)
    ensures CertAccepted(env, key, o) <==> exists c: CertVal, fee: uint64 :: Handed(env, key, o, c, fee)
  {
    GunNamed();
    CertNames();
    hide DecodeCertsRecordValue, DecodeCert, DecodePrepare, GetCertSignData, Unexpired, Ascii, TransferPrepareName,
         VerifyCertTxCompleted, Acknowledges, ServiceMiner;
    if CertAccepted(env, key, o) {
      var c := GetCertTransferPrepare(env, o.value1).value;
      var tp := DecodePrepare(c.data).value;
      assert tp == PrepareVal(key, tp.fee);
      if o.txcert.Some? { ReceiptAcknowledges(env, key, tp.fee, o.txcert, o.pubkey1, o.pubkey2); }
      assert Handed(env, key, o, c, tp.fee);
    }
    if c: CertVal, fee: uint64 :| Handed(env, key, o, c, fee) {
      assert GetCertTransferPrepare(env, o.value1) == Some(c);
      if o.txcert.Some? { ReceiptAcknowledges(env, key, fee, o.txcert, o.pubkey1, o.pubkey2); }
    }
  }

  // ----- what a transfer record carries

  /** A replica reads off the transfer record the receiver's signed value, and out of its Data the owner's, with the
      receipt; both of GUN type, EOL, version 1, and valid until the issue time plus the time to live. */
  lemma TransferCarries(o: Offer, seq1: uint64, seq2: uint64)
    requires |Encode(Record(TransferRecord(o, seq1, seq2)))| < TWO63
    ensures var until := (o.issuetime + o.ttl) % 0x1_0000_0000_0000_0000;
            var r := DecodeRecord(Some(Encode(Record(TransferRecord(o, seq1, seq2)))));
            && r.Some? && CarriedPrepare(r.value).Some?
            && r.value.(data := None) == RecordVal(1, 1, NormSlice(o.value2), NormSlice(o.sig2), 0, until, seq2, o.ttl,
                                                   NormSlice(o.pubkey2), None)
            && CarriedPrepare(r.value).value ==
               RecordVal(1, 1, NormSlice(o.value1), NormSlice(o.sig1), 0, until, seq1, o.ttl, NormSlice(o.pubkey1),
                         if o.txcert.None? then None else NormSlice(Some(EncodeCert(o.txcert.value))))
  {
    TransferRecordRead(o, seq1, seq2);
    hide Encode, DecodeRecord, EncodeCert, CarriedPrepare, NormSlice;
  }
}
