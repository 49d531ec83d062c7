/** Offers that pass CheckTransferPara (dkvs/dkvs.go): what the two parties make with the issuing functions of
    dkvs/cert.go, and with it the transfer from end to end. */
module TransferOffer {
  import opened GoTypes
  import opened Varint
  import opened WireGrammar
  import opened Messages
  import opened Marshal
  import opened RoundTrip
  import opened Services
  import opened Certs
  import opened Records
  import opened LocalStore
  import opened Transfer
  import DkvsPb

  // ----- the bundle the certificate travels in

  predicate HasName(cs: seq<CertVal>, name: Bytes) {
    exists i :: 0 <= i < |cs| && cs[i].name == name
  }

  /** The bundle with the user data replaced, and the certificate added unless one of its name is there. */
  function WithCert(cr: CertsVal, cert: CertVal, userdata: Slice): CertsVal {
    cr.(userData := userdata,
        certVect := if HasName(cr.certVect, cert.name) then cr.certVect else cr.certVect + [cert])
  }

  /** EncodeCertsRecordValueWithCert on a bundle there is; the loop looks for the name. */
  method AddCert(cr: DkvsPb.CertsRecordValue, cert: DkvsPb.Cert, userdata: Slice) returns (buf: array<byte>)
    requires |Encode(Messages.Certs(WithCert(cr.Contents(), cert.Contents(), userdata)))| < TWO63
    modifies cr
    ensures cr.Contents() == WithCert(old(cr.Contents()), cert.Contents(), userdata)
    ensures buf[..] == Encode(Messages.Certs(cr.Contents()))
  {
    hide Print, PrintAll, CertsFields;
    var bFound := false;
    ghost var cs := cr.Contents().certVect;
    for i := 0 to |cr.CertVect|
      invariant !bFound && !HasName(cs[..i], cert.Name)
    {
      if cr.CertVect[i].Name == cert.Name {
        bFound := true;
        assert cs[i].name == cert.Name;
        break;
      }
      assert cs[..i + 1] == cs[..i] + [cs[i]];
    }
    assert !bFound ==> cs[..|cs|] == cs;
    assert bFound == HasName(cs, cert.Name);
    cr.UserData := userdata;
    if !bFound {
      cr.CertVect := cr.CertVect + [cert];
    }
    assert cr.Contents().certVect == WithCert(old(cr.Contents()), cert.Contents(), userdata).certVect;
    buf := cr.Marshal();
  }

  method EncodeCertsRecordValueWithCert(cr: DkvsPb.CertsRecordValue?, cert: DkvsPb.Cert, userdata: Slice)
    returns (buf: array<byte>)
    requires cr == null ==> |Encode(Messages.Certs(WithCert(NoBundle(userdata), cert.Contents(), userdata)))| < TWO63
    requires cr != null ==> |Encode(Messages.Certs(WithCert(cr.Contents(), cert.Contents(), userdata)))| < TWO63
    modifies cr
    ensures cr == null ==>
              buf[..] == Encode(Messages.Certs(WithCert(NoBundle(userdata), cert.Contents(), userdata)))
    ensures cr != null ==>
              cr.Contents() == WithCert(old(cr.Contents()), cert.Contents(), userdata) &&
              buf[..] == Encode(Messages.Certs(cr.Contents()))
  {
    hide Print, PrintAll, CertsFields;
    if cr == null {
      var bundle := new DkvsPb.CertsRecordValue();
      bundle.UserData := userdata;
      bundle.CertVect := [cert];
      assert bundle.Contents() == WithCert(NoBundle(userdata), cert.Contents(), userdata);
      buf := bundle.Marshal();
    } else {
      buf := AddCert(cr, cert, userdata);
    }
  }

  function NoBundle(userdata: Slice): CertsVal {
    CertsVal([], userdata, [])
  }

  // ----- reading it back

  lemma UserDataFits(v: CertsVal)
    ensures |Content(v.userData)| <= |Encode(Messages.Certs(v))|
  {
    hide U, B, Print, PrintAll, Content, CertVectFields;
    var f3 := CertVectFields(v.certVect);
    var f2 := B(2, Content(v.userData)) + f3;
    TailFits(B(1, v.prevBundleAdrr), f2, |Encode(Messages.Certs(v))|);
    PayloadFits(2, Content(v.userData), f3);
  }

  lemma PrepareNamed()
    ensures TransferPrepareName() != []
  {
    assert TransferPrepareName()[0] == 84;
  }

  /** The bundle as it is read back, and the certificate in its user data. */
  lemma BundleRead(v: CertsVal, c: CertVal)
    requires |Encode(Messages.Certs(v))| < TWO63 && v.userData == Some(EncodeCert(c)) && c.name != []
    ensures var r := DecodeCertsRecordValue(Some(Encode(Messages.Certs(v))));
            r.Some? && r.value.userData == v.userData && r.value.certVect == NormVect(v.certVect)
    ensures |EncodeCert(c)| < TWO63 && DecodeCert(v.userData) == Some(NormCert(c))
  {
    hide Print, PrintAll, Parse, CertFields, CertsFields, NormCert, NormVect;
    UserDataFits(v);
    EncodedNonEmpty(EMPTY_RECORD, c);
    UnmarshalMarshal(Messages.Certs(v));
    NormIs(Messages.Certs(v));
    DecodeEncodedCert(c);
  }

  /** A signed prepare certificate comes back out of any bundle that carries it. */
  lemma PrepareRead(env: Env, v: CertsVal, key: Bytes, fee: uint64, receiverpk: Slice, issuerpk: Slice, at: uint64,
                    sig: Slice)
    requires |Encode(Messages.Certs(v))| < TWO63
    requires v.userData == Some(EncodeCert(Prepared(key, fee, receiverpk, issuerpk, at, sig)))
    requires VerifyCert(env, Some(Prepared(key, fee, receiverpk, issuerpk, at, sig)))
    ensures var c := GetCertTransferPrepare(env, Some(Encode(Messages.Certs(v))));
            && c.Some? && VerifyCertTransferPrepare(key, c.value, issuerpk, receiverpk)
            && DecodePrepare(c.value.data) == Some(PrepareVal(key, fee))
  {
    var c := Prepared(key, fee, receiverpk, issuerpk, at, sig);
    PrepareNamed();
    BundleRead(v, c);
    VerifyNorm(env, c);
    PreparedNorm(key, fee, receiverpk, issuerpk, at, sig);
    hide Encode, EncodeCert, VerifyCert, NormCert, DecodeCert, DecodeCertsRecordValue, DecodePrepare,
         TransferPrepareName;
  }

  function Prepared(key: Bytes, fee: uint64, receiverpk: Slice, issuerpk: Slice, at: uint64, sig: Slice): CertVal {
    IssueCertTransferPrepare(key, fee, receiverpk, issuerpk, at).(issuerSign := sig)
  }

  lemma PreparedNorm(key: Bytes, fee: uint64, receiverpk: Slice, issuerpk: Slice, at: uint64, sig: Slice)
    requires |EncodeCert(Prepared(key, fee, receiverpk, issuerpk, at, sig))| < TWO63
    ensures var n := NormCert(Prepared(key, fee, receiverpk, issuerpk, at, sig));
            && DecodePrepare(n.data) == Some(PrepareVal(key, fee))
            && VerifyCertTransferPrepare(key, n, issuerpk, receiverpk)
  {
    hide Print, PrintAll, Parse, CertFields, PrepareFields;
    CertDataFits(Prepared(key, fee, receiverpk, issuerpk, at, sig));
    UnmarshalMarshal(Prepare(PrepareVal(key, fee)));
  }

  /** A receipt that a miner issued and signed verifies, for the fee and the two parties it was issued for. */
  lemma ReceiptVerifies(env: Env, key: Bytes, tx: Bytes, fee: uint64, senderpk: Slice, receiverpk: Slice,
                        issuerpk: Slice, at: uint64, sig: Slice)
    requires tx != [] && IsPublicServiceNameKey(env.services, ServiceMiner(), issuerpk)
    requires var c := IssueCertTxCompleted(key, tx, fee, senderpk, receiverpk, issuerpk, at).(issuerSign := sig);
             VerifyCert(env, Some(c)) && |EncodeCert(c)| < TWO63
    ensures var c := IssueCertTxCompleted(key, tx, fee, senderpk, receiverpk, issuerpk, at).(issuerSign := sig);
            VerifyCertTxCompleted(env, key, fee, Some(c), senderpk, receiverpk)
  {
    hide Print, PrintAll, Parse, CertFields, CompletedFields, VerifyCert, IsPublicServiceNameKey;
    CertDataFits(IssueCertTxCompleted(key, tx, fee, senderpk, receiverpk, issuerpk, at).(issuerSign := sig));
    UnmarshalMarshal(Completed(CompletedVal(key, tx, fee, senderpk, receiverpk)));
  }

  // ----- an offer that passes

  /** What the two parties agree on: the owner's certificate in the user data of a bundle v, both values signed as
      record values, the receiver's being the one that stands; and a miner's receipt where one is brought. */
  predicate WellMade(env: Env, key: Bytes, oldRec: RecordVal, o: Offer, fee: uint64, v: CertsVal, at: uint64,
                     certSig: Slice)
    requires TableOk(env.services)
  {
    && IsValidKey(key)
    && o.pubkey1.Some? && o.pubkey2.Some? && BytesEqual(o.pubkey1, oldRec.pubKey)
    && o.ttl == oldRec.ttl && BytesEqual(oldRec.value, o.value2)
    && v.userData == Some(EncodeCert(Prepared(key, fee, o.pubkey2, o.pubkey1, at, certSig)))
    && VerifyCert(env, Some(Prepared(key, fee, o.pubkey2, o.pubkey1, at, certSig)))
    && o.value1 == Some(Encode(Messages.Certs(v))) && |Content(o.value1)| < TWO63
    && env.verify(Content(o.pubkey1), RecordSignData(key, o.value1, o.pubkey1, o.issuetime, o.ttl), Content(o.sig1))
    && env.verify(Content(o.pubkey2), RecordSignData(key, o.value2, o.pubkey2, o.issuetime, o.ttl), Content(o.sig2))
    && (IsGunName(key) ==>
          VerifyGunRecordValue(env, key, o.value1, o.issuetime, o.ttl) &&
          VerifyGunRecordValue(env, key, o.value2, o.issuetime, o.ttl))
    && (o.txcert.Some? ==>
          env.publicService(ServiceMiner(), Content(o.txcert.value.issuerPubkey)) &&
          (fee != 0 ==> VerifyCertTxCompleted(env, key, fee, o.txcert, o.pubkey1, o.pubkey2)))
  }

  lemma ValuePasses(env: Env, key: Bytes, val: Slice, pk: Slice, issuetime: uint64, ttl: uint64, sig: Slice)
    requires TableOk(env.services) && key != [] && pk.Some?
    requires env.verify(Content(pk), RecordSignData(key, val, pk, issuetime, ttl), Content(sig))
    requires IsGunName(key) ==> VerifyGunRecordValue(env, key, val, issuetime, ttl)
    ensures ValidateValue(env, key, val, pk, issuetime, ttl, sig, 1).None?
  {
    hide RecordSignData, VerifyGunRecordValue, IsGunName, Content;
  }

  lemma WellMadePasses(env: Env, key: Bytes, oldRec: RecordVal, o: Offer, fee: uint64, v: CertsVal, at: uint64,
                       certSig: Slice)
    requires TableOk(env.services) && WellMade(env, key, oldRec, o, fee, v, at, certSig)
    ensures CheckTransferPara(env, key, Some(oldRec), o).None?
    ensures fee == 0 || o.txcert.Some? ==> FeeSettled(env, o)
  {
    PrepareRead(env, v, key, fee, o.pubkey2, o.pubkey1, at, certSig);
    ValuePasses(env, key, o.value1, o.pubkey1, o.issuetime, o.ttl, o.sig1);
    ValuePasses(env, key, o.value2, o.pubkey2, o.issuetime, o.ttl, o.sig2);
    var c := GetCertTransferPrepare(env, o.value1).value;
    assert o.txcert.Some? ==>
             env.publicService(ServiceMiner(), Content(o.txcert.value.issuerPubkey)) &&
             VerifyCertTxCompleted2(env, key, c, o.txcert, o.pubkey1, o.pubkey2);
    ChecksPass(env, key, oldRec, o);
    hide *;
    FeeIsSettled(env, o, key, fee);
  }

  lemma ChecksPass(env: Env, key: Bytes, oldRec: RecordVal, o: Offer)
    requires TableOk(env.services) && IsValidKey(key)
    requires BytesEqual(o.pubkey1, oldRec.pubKey) && o.ttl == oldRec.ttl && BytesEqual(oldRec.value, o.value2)
    requires ValidateValue(env, key, o.value1, o.pubkey1, o.issuetime, o.ttl, o.sig1, 1).None?
    requires ValidateValue(env, key, o.value2, o.pubkey2, o.issuetime, o.ttl, o.sig2, 1).None?
    requires GetCertTransferPrepare(env, o.value1).Some?
    requires VerifyCertTransferPrepare(key, GetCertTransferPrepare(env, o.value1).value, o.pubkey1, o.pubkey2)
    requires o.txcert.Some? ==>
               env.publicService(ServiceMiner(), Content(o.txcert.value.issuerPubkey)) &&
               VerifyCertTxCompleted2(env, key, GetCertTransferPrepare(env, o.value1).value, o.txcert, o.pubkey1,
                                      o.pubkey2)
    ensures CheckTransferPara(env, key, Some(oldRec), o).None?
  {
    hide BytesEqual, ValidateValue, GetCertTransferPrepare, VerifyCertTransferPrepare, VerifyCertTxCompleted2, Content,
         ServiceMiner;
  }

  lemma FeeIsSettled(env: Env, o: Offer, key: Bytes, fee: uint64)
    requires GetCertTransferPrepare(env, o.value1).Some?
    requires DecodePrepare(GetCertTransferPrepare(env, o.value1).value.data) == Some(PrepareVal(key, fee))
    ensures fee == 0 || o.txcert.Some? ==> FeeSettled(env, o)
  {
    hide GetCertTransferPrepare, DecodePrepare;
  }

  /** The transfer from end to end: a well-made offer with its fee settled makes the record that takes the place of
      the old one on every replica that holds it, and the receiver owns the key, provided the record is small enough
      and not expired. */
  lemma TransferGoesThrough(env: Env, key: Bytes, oldVal: Bytes, oldRec: RecordVal, o: Offer, fee: uint64, v: CertsVal,
                            at: uint64, certSig: Slice, seq1: uint64, seq2: uint64)
    requires TableOk(env.services) && DecodeRecord(Some(oldVal)) == Some(oldRec)
    requires WellMade(env, key, oldRec, o, fee, v, at, certSig) && (fee == 0 || o.txcert.Some?)
    requires seq2 > oldRec.seqNo && |Encode(Record(TransferRecord(o, seq1, seq2)))| <= MAX_RECORD_SIZE
    requires Content(o.pubkey2) != [] && env.now <= Add64(o.issuetime, o.ttl)
    ensures var k, buf := RecordKey(key), Encode(Record(TransferRecord(o, seq1, seq2)));
            && AfterPut(k, Some(Wrapped(k, oldVal)), Put(env, buf)) == Some(Wrapped(k, buf))
            && OwnerOf(Wrapped(k, buf)) == Content(o.pubkey2)
  {
    hide WellMade, Encode, TransferRecord, DecodeRecord, CheckTransferPara, FeeSettled, AfterPut, OwnerOf;
    WellMadePasses(env, key, oldRec, o, fee, v, at, certSig);
    TransferStored(env, key, oldVal, oldRec, o, seq1, seq2);
  }

  // ----- GUN keys

  lemma {:induction false} SearchNorm(cv: seq<CertVal>, pubkey: Slice)
    ensures SearchCertByPubkey(NormVect(cv), pubkey) ==
            var c := SearchCertByPubkey(cv, pubkey);
            if c.Some? then Some(NormCert(c.value)) else None
  {
    if cv != [] {
      SearchNorm(cv[1..], pubkey);
      assert NormVect(cv)[1..] == NormVect(cv[1..]);
    }
  }

  lemma {:induction false} SearchKeysNorm(env: Env, keys: seq<Bytes>, cv: seq<CertVal>)
    requires forall k | k in keys :: |k| != 1
    ensures SearchKeys(env, keys, NormVect(cv)) ==
            var c := SearchKeys(env, keys, cv);
            if c.Some? then Some(NormCert(c.value)) else None
  {
    hide NormVect, NormCert, VerifyCert, HexStringToBytes, SearchCertByPubkey;
    if keys != [] {
      assert keys[0] in keys;
      var pubkey := HexStringToBytes(keys[0]);
      SearchNorm(cv, pubkey);
      var c := SearchCertByPubkey(cv, pubkey);
      if c.Some? {
        VerifyNorm(env, c.value);
      }
      SearchKeysNorm(env, keys[1..], cv);
    }
  }

  /** Under a GUN key the owner's value is the one that stands with its user data replaced, and verifies as that
      does. */
  lemma GunKept(env: Env, key: Bytes, value: Slice, rv: CertsVal, c: CertVal, issuetime: uint64, ttl: uint64)
    requires TableOk(env.services) && VerifyGunRecordValue(env, key, value, issuetime, ttl)
    requires DecodeCertsRecordValue(value) == Some(rv) && c.name != []
    requires |Encode(Messages.Certs(rv.(userData := Some(EncodeCert(c)))))| < TWO63
    ensures VerifyGunRecordValue(env, key, Some(Encode(Messages.Certs(rv.(userData := Some(EncodeCert(c)))))),
                                 issuetime, ttl)
  {
    var v := rv.(userData := Some(EncodeCert(c)));
    BundleRead(v, c);
    FindGunNorm(env, rv.certVect);
    hide NormVect, FindGunCert, EncodeCert, Encode, DecodeCert;
    SameGun(env, key, value, Some(Encode(Messages.Certs(v))), issuetime, ttl);
  }

  lemma SameGun(env: Env, key: Bytes, value: Slice, value': Slice, issuetime: uint64, ttl: uint64)
    requires TableOk(env.services) && VerifyGunRecordValue(env, key, value, issuetime, ttl)
    requires DecodeCertsRecordValue(value').Some?
    requires var c := FindGunCert(env, DecodeCertsRecordValue(value).value.certVect);
             FindGunCert(env, DecodeCertsRecordValue(value').value.certVect) ==
             if c.Some? then Some(NormCert(c.value)) else None
    ensures VerifyGunRecordValue(env, key, value', issuetime, ttl)
  {
    hide DecodeCertsRecordValue, FindGunCert, Parse, GetGunKey;
  }

  lemma FindGunNorm(env: Env, cv: seq<CertVal>)
    requires TableOk(env.services)
    ensures FindGunCert(env, NormVect(cv)) ==
            var c := FindGunCert(env, cv);
            if c.Some? then Some(NormCert(c.value)) else None
  {
    hide NormVect, SearchKeys, NormCert;
    if ServiceGun() in env.services {
      SearchKeysNorm(env, env.services[ServiceGun()], cv);
    }
  }

  // ----- from the standing record

  /** A miner's receipt: what was paid, and when and by whom it was issued and signed. */
  datatype Payment = Payment(tx: Bytes, issuerpk: Slice, at: uint64, sig: Slice)

  function ReceiptFor(key: Bytes, fee: uint64, senderpk: Slice, receiverpk: Slice, p: Payment): CertVal {
    IssueCertTxCompleted(key, p.tx, fee, senderpk, receiverpk, p.issuerpk, p.at).(issuerSign := p.sig)
  }

  /** The owner puts the signed certificate into the user data of the standing value, rv; both sides sign, and a
      miner's receipt comes with it, as it must when there is a fee. */
  predicate Agreed(env: Env, key: Bytes, oldRec: RecordVal, o: Offer, fee: uint64, rv: CertsVal, at: uint64,
                   certSig: Slice, payment: Option<Payment>)
  {
    var c := Prepared(key, fee, o.pubkey2, o.pubkey1, at, certSig);
    && o.pubkey1.Some? && o.pubkey2.Some? && BytesEqual(o.pubkey1, oldRec.pubKey)
    && o.ttl == oldRec.ttl && BytesEqual(oldRec.value, o.value2)
    && DecodeCertsRecordValue(oldRec.value) == Some(rv)
    && o.value1 == Some(Encode(Messages.Certs(rv.(userData := Some(EncodeCert(c)))))) && |Content(o.value1)| < TWO63
    && VerifyCert(env, Some(c))
    && env.verify(Content(o.pubkey1), RecordSignData(key, o.value1, o.pubkey1, o.issuetime, o.ttl), Content(o.sig1))
    && env.verify(Content(o.pubkey2), RecordSignData(key, o.value2, o.pubkey2, o.issuetime, o.ttl), Content(o.sig2))
    && (payment.None? ==> fee == 0 && o.txcert.None?)
    && (payment.Some? ==> Paid(env, key, fee, o, payment.value))
  }

  predicate Paid(env: Env, key: Bytes, fee: uint64, o: Offer, p: Payment) {
    var r := ReceiptFor(key, fee, o.pubkey1, o.pubkey2, p);
    && o.txcert == Some(r) && p.tx != [] && VerifyCert(env, Some(r)) && |EncodeCert(r)| < TWO63
    && env.publicService(ServiceMiner(), Content(p.issuerpk))
    && IsPublicServiceNameKey(env.services, ServiceMiner(), p.issuerpk)
  }

  /** The standing record is valid, and under a GUN key the offer keeps its type and issue time. */
  predicate Stands(env: Env, key: Bytes, oldVal: Bytes, oldRec: RecordVal, o: Offer)
    requires TableOk(env.services)
  {
    && IsValidKey(key) && DecodeRecord(Some(oldVal)) == Some(oldRec)
    && Validate(env, RecordKey(key), oldVal).None?
    && (IsGunName(key) ==> oldRec.valueType == 1 && o.issuetime == Sub64(oldRec.validity, oldRec.ttl))
  }

  lemma PaidVerifies(env: Env, key: Bytes, fee: uint64, o: Offer, p: Payment)
    requires Paid(env, key, fee, o, p)
    ensures o.txcert.Some? && o.txcert.value.issuerPubkey == p.issuerpk
    ensures VerifyCertTxCompleted(env, key, fee, o.txcert, o.pubkey1, o.pubkey2)
  {
    hide EncodeCert, VerifyCert, IsPublicServiceNameKey, VerifyCertTxCompleted, Encode;
    ReceiptVerifies(env, key, p.tx, fee, o.pubkey1, o.pubkey2, p.issuerpk, p.at, p.sig);
  }

  /** A valid record under a GUN key has a value that verifies for its issue time. */
  lemma StandingGun(env: Env, key: Bytes, oldVal: Bytes, oldRec: RecordVal, o: Offer)
    requires TableOk(env.services) && Stands(env, key, oldVal, oldRec, o) && IsGunName(key)
    ensures VerifyGunRecordValue(env, key, oldRec.value, o.issuetime, oldRec.ttl)
  {
    InnerOfRecordKey(key);
    hide InnerKey, RecordKey, DecodeRecord, Encode, RecordSignData, VerifyGunRecordValue, IsGunName, Sub64;
  }

  lemma GunContent(env: Env, key: Bytes, v: Slice, w: Slice, issuetime: uint64, ttl: uint64)
    requires TableOk(env.services) && BytesEqual(v, w)
    ensures VerifyGunRecordValue(env, key, v, issuetime, ttl) == VerifyGunRecordValue(env, key, w, issuetime, ttl)
  {
    hide Parse, FindGunCert, DecodeToken, GetGunKey;
  }

  lemma AgreedIsWellMade(env: Env, key: Bytes, oldVal: Bytes, oldRec: RecordVal, o: Offer, fee: uint64, rv: CertsVal,
                         at: uint64, certSig: Slice, payment: Option<Payment>)
    requires TableOk(env.services) && Stands(env, key, oldVal, oldRec, o)
    requires Agreed(env, key, oldRec, o, fee, rv, at, certSig, payment)
    ensures var v := rv.(userData := Some(EncodeCert(Prepared(key, fee, o.pubkey2, o.pubkey1, at, certSig))));
            WellMade(env, key, oldRec, o, fee, v, at, certSig)
    ensures fee == 0 || o.txcert.Some?
  {
    if payment.Some? {
      PaidVerifies(env, key, fee, o, payment.value);
    }
    if IsGunName(key) {
      var c := Prepared(key, fee, o.pubkey2, o.pubkey1, at, certSig);
      assert c.name != [] by { PrepareNamed(); }
      StandingGun(env, key, oldVal, oldRec, o);
      GunContent(env, key, oldRec.value, o.value2, o.issuetime, o.ttl);
      GunKept(env, key, oldRec.value, rv, c, o.issuetime, o.ttl);
    }
    hide Encode, EncodeCert, VerifyCert, VerifyGunRecordValue, RecordSignData, DecodeCertsRecordValue, DecodeRecord,
         VerifyCertTxCompleted, Prepared, IsGunName, ReceiptFor, Validate, RecordKey, IsPublicServiceNameKey;
  }

  /** The transfer from a standing record of any key, with or without a fee: what the two parties and the miner make
      of it gives the receiver the key on every replica that holds it. */
  lemma AgreedGoesThrough(env: Env, key: Bytes, oldVal: Bytes, oldRec: RecordVal, o: Offer, fee: uint64, rv: CertsVal,
                          at: uint64, certSig: Slice, payment: Option<Payment>, seq1: uint64, seq2: uint64)
    requires TableOk(env.services) && Stands(env, key, oldVal, oldRec, o)
    requires Agreed(env, key, oldRec, o, fee, rv, at, certSig, payment)
    requires seq2 > oldRec.seqNo && |Encode(Record(TransferRecord(o, seq1, seq2)))| <= MAX_RECORD_SIZE
    requires Content(o.pubkey2) != [] && env.now <= Add64(o.issuetime, o.ttl)
    ensures var k, buf := RecordKey(key), Encode(Record(TransferRecord(o, seq1, seq2)));
            && AfterPut(k, Some(Wrapped(k, oldVal)), Put(env, buf)) == Some(Wrapped(k, buf))
            && OwnerOf(Wrapped(k, buf)) == Content(o.pubkey2)
  {
    assert DecodeRecord(Some(oldVal)) == Some(oldRec);
    AgreedIsWellMade(env, key, oldVal, oldRec, o, fee, rv, at, certSig, payment);
    var v := rv.(userData := Some(EncodeCert(Prepared(key, fee, o.pubkey2, o.pubkey1, at, certSig))));
    hide *;
    TransferGoesThrough(env, key, oldVal, oldRec, o, fee, v, at, certSig, seq1, seq2);
  }
}
