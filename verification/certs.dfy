/** Certificates: signing, verification and the transfer family (dkvs/cert.go). Signature verification is
    a parameter, the clock an input. */
module Certs {
  import opened GoTypes
  import opened Varint
  import opened WireGrammar
  import opened Messages
  import opened Marshal
  import opened RoundTrip
  import opened Services

  /** What the code asks its surroundings: (public key, data, signature) verification, which fails on keys
      that do not unmarshal; the service table; service standings read from other records; the clock. */
  datatype Env = Env(
    verify: (Bytes, Bytes, Bytes) -> bool,
    services: ServiceTable,
    publicService: (Bytes, Bytes) -> bool,
    approvedService: Bytes -> bool,
    approvedPubkey: (Bytes, Bytes) -> bool,
    now: uint64)

  function TransferPrepareName(): Bytes { Ascii("TransferPrepare") }
  function TxCompletedName(): Bytes { Ascii("TxCompleted") }

  // ----- decoding

  function DecodeCert(value: Slice): Option<CertVal> {
    match Parse(Messages.Cert(EMPTY_CERT), Content(value), 0)
    case Parsed(m) => Some(m.cert)
    case ParseErr(_) => None
  }

  function DecodeCertsRecordValue(value: Slice): Option<CertsVal> {
    match Parse(Messages.Certs(EMPTY_CERTS), Content(value), 0)
    case Parsed(m) => Some(m.certs)
    case ParseErr(_) => None
  }

  function DecodePrepare(value: Slice): Option<PrepareVal> {
    match Parse(Prepare(EMPTY_PREPARE), Content(value), 0)
    case Parsed(m) => Some(m.prep)
    case ParseErr(_) => None
  }

  function DecodeCompleted(value: Slice): Option<CompletedVal> {
    match Parse(Completed(EMPTY_COMPLETED), Content(value), 0)
    case Parsed(m) => Some(m.comp)
    case ParseErr(_) => None
  }

  function DecodeToken(value: Slice): Option<TokenVal> {
    match Parse(Token(EMPTY_TOKEN), Content(value), 0)
    case Parsed(m) => Some(m.token)
    case ParseErr(_) => None
  }

  // ----- signatures

  function GetCertSignData(c: CertVal): Bytes {
    EncodeCert(c.(issuerSign := None))
  }

  predicate Unexpired(env: Env, issueTime: uint64, ttl: uint64) {
    ttl != 0 ==> env.now <= Add64(issueTime, ttl)
  }

  predicate VerifyCert(env: Env, cert: Option<CertVal>) {
    cert.Some? &&
    var c := cert.value;
    env.verify(Content(c.issuerPubkey), GetCertSignData(c), Content(c.issuerSign)) && Unexpired(env, c.issueTime, c.ttl)
  }

  /** The signed bytes determine the certificate: equal sign data means equal in every field but the
      signature, up to nil versus empty. */
  lemma SignDataDetermines(c: CertVal, d: CertVal)
    requires |GetCertSignData(c)| < TWO63 && GetCertSignData(c) == GetCertSignData(d)
    ensures NormCert(c.(issuerSign := None)) == NormCert(d.(issuerSign := None))
  {
    hide Print, PrintAll, NormCert, CertFields;
    var c', d' := c.(issuerSign := None), d.(issuerSign := None);
    MarshalInjective(Messages.Cert(c'), Messages.Cert(d'));
    NormIs(Messages.Cert(c'));
    NormIs(Messages.Cert(d'));
  }

  /** A certificate verifies after a trip over the wire just when it did before. */
  lemma VerifyNorm(env: Env, c: CertVal)
    ensures VerifyCert(env, Some(NormCert(c))) == VerifyCert(env, Some(c))
  {
    var c' := c.(issuerSign := None);
    assert NormCert(c).(issuerSign := None) == NormCert(c');
    CertNorm(c');
  }

  lemma DecodeEncodedCert(c: CertVal)
    requires |EncodeCert(c)| < TWO63
    ensures DecodeCert(Some(EncodeCert(c))) == Some(NormCert(c))
  {
    hide Print, PrintAll, NormCert, CertFields, Parse;
    CertRoundTrip(c);
  }

  // ----- transfer certificates

  function GetCertTransferPrepare(env: Env, value: Slice): Option<CertVal> {
    var certs := DecodeCertsRecordValue(value);
    if certs.None? || certs.value.userData.None? then None
    else
      var cert := DecodeCert(certs.value.userData);
      if VerifyCert(env, cert) then cert else None
  }

  predicate VerifyCertTransferPrepare(key: Bytes, cert: CertVal, oldpk: Slice, newpk: Slice) {
    var tp := DecodePrepare(cert.data);
    tp.Some? &&
    BytesEqual(cert.issuerPubkey, oldpk) && cert.name == TransferPrepareName() && tp.value.key == key &&
    (cert.userPubkey.Some? ==> BytesEqual(cert.userPubkey, newpk))
  }

  predicate VerifyCertTxCompleted(env: Env, key: Bytes, fee: uint64, txcert: Option<CertVal>, oldpk: Slice,
                                  newpk: Slice) {
    VerifyCert(env, txcert) &&
    IsPublicServiceNameKey(env.services, ServiceMiner(), txcert.value.issuerPubkey) &&
    txcert.value.name == TxCompletedName() &&
    var tc := DecodeCompleted(txcert.value.data);
    tc.Some? && tc.value.key == key && tc.value.tx != [] && tc.value.fee == fee &&
    ((BytesEqual(oldpk, tc.value.senderkey) && BytesEqual(newpk, tc.value.receiverkey)) ||
     (BytesEqual(newpk, tc.value.senderkey) && BytesEqual(oldpk, tc.value.receiverkey)))
  }

  predicate VerifyCertTxCompleted2(env: Env, key: Bytes, transfercert: CertVal, txcert: Option<CertVal>,
                                   oldpk: Slice, newpk: Slice) {
    var tp := DecodePrepare(transfercert.data);
    tp.Some? && (tp.value.fee != 0 ==> VerifyCertTxCompleted(env, key, tp.value.fee, txcert, oldpk, newpk))
  }

  predicate VerifyCertTransferConfirm(env: Env, key: Bytes, oldvalue: Slice, txcert: Option<CertVal>, pubkey1: Slice,
                                      pubkey2: Slice) {
    var cert1 := GetCertTransferPrepare(env, oldvalue);
    cert1.Some? &&
    VerifyCertTransferPrepare(key, cert1.value, pubkey1, pubkey2) &&
    VerifyCertTxCompleted2(env, key, cert1.value, txcert, pubkey1, pubkey2)
  }

  // ----- issuing them

  /** A hundred years, in milliseconds. */
  const DEFAULT_CERT_TTL: uint64 := 3153600000000

  function IssueCertTransferPrepare(key: Bytes, fee: uint64, receiverpk: Slice, issuePubkey: Slice,
                                    now: uint64): CertVal {
    CertVal(1, TransferPrepareName(), 0, 0, receiverpk, Some(Encode(Prepare(PrepareVal(key, fee)))), now,
            DEFAULT_CERT_TTL, issuePubkey, None)
  }

  function IssueCertTxCompleted(key: Bytes, tx: Bytes, fee: uint64, senderpk: Slice, receiverpk: Slice,
                                issuerpk: Slice, now: uint64): CertVal {
    CertVal(1, TxCompletedName(), 0, 0, receiverpk,
            Some(Encode(Completed(CompletedVal(key, tx, fee, senderpk, receiverpk)))), now,
            DEFAULT_CERT_TTL, issuerpk, None)
  }

  // ----- GUN values

  function IssueCertGun(name: Bytes, num: uint64, gunPubkey: Slice, issueTime: uint64, ttl: uint64): CertVal {
    var si := TokenVal(name, num, gunPubkey, None);
    CertVal(1, name, 1, 1, None, Some(Encode(Token(si))), issueTime, ttl, gunPubkey, None)
  }

  function GetGunSignData(name: Bytes, num: uint64, gunPubkey: Slice, issueTime: uint64, ttl: uint64): Bytes {
    EncodeCert(IssueCertGun(name, num, gunPubkey, issueTime, ttl))
  }

  function EncodeGunValue(name: Bytes, num: uint64, issueTime: uint64, ttl: uint64, gunPubkey: Slice, gunSign: Slice,
                          userData: Slice): Bytes {
    var cert := IssueCertGun(name, num, gunPubkey, issueTime, ttl).(issuerSign := gunSign);
    Encode(Messages.Certs(CertsVal([], userData, [cert])))
  }

  function SearchCertByPubkey(cv: seq<CertVal>, pubkey: Slice): Option<CertVal> {
    if cv == [] then None
    else if BytesEqual(pubkey, cv[0].issuerPubkey) then Some(cv[0])
    else SearchCertByPubkey(cv[1..], pubkey)
  }

  /** The loop over the service's keys, first verified certificate first. */
  function SearchKeys(env: Env, keys: seq<Bytes>, cv: seq<CertVal>): Option<CertVal>
    requires forall k | k in keys :: |k| != 1
  {
    if keys == [] then None
    else
      var cert := SearchCertByPubkey(cv, HexStringToBytes(keys[0]));
      if cert.Some? && VerifyCert(env, cert) then cert else SearchKeys(env, keys[1..], cv)
  }

  predicate TableOk(table: ServiceTable) {
    forall sn, k | sn in table && k in table[sn] :: |k| != 1
  }

  function FindGunCert(env: Env, cv: seq<CertVal>): Option<CertVal>
    requires TableOk(env.services)
  {
    if ServiceGun() in env.services then SearchKeys(env, env.services[ServiceGun()], cv) else None
  }

  predicate VerifyGunRecordValue(env: Env, key: Bytes, value: Slice, issuetime: uint64, ttl: uint64)
    requires TableOk(env.services)
  {
    var rv := DecodeCertsRecordValue(value);
    rv.Some? &&
    var cert := FindGunCert(env, rv.value.certVect);
    cert.Some? &&
    var si := DecodeToken(cert.value.data);
    si.Some? && cert.value.ttl == ttl && cert.value.issueTime == issuetime && GetGunKey(si.value.name) == key
  }

  lemma SearchOne(c: CertVal, pubkey: Slice)
    ensures SearchCertByPubkey([c], pubkey) == if BytesEqual(pubkey, c.issuerPubkey) then Some(c) else None
  {
    assert [c][1..] == [];
  }

  /** With a single certificate that verifies, every table that names its issuer finds it. */
  lemma {:induction false} SearchKeysFinds(env: Env, keys: seq<Bytes>, c: CertVal)
    requires forall k | k in keys :: |k| != 1
    requires VerifyCert(env, Some(c)) && Hex(Content(c.issuerPubkey)) in keys
    ensures SearchKeys(env, keys, [c]) == Some(c)
  {
    hide VerifyCert, Hex;
    assert keys[0] in keys;
    SearchOne(c, HexStringToBytes(keys[0]));
    if keys[0] == Hex(Content(c.issuerPubkey)) {
      HexRoundTrip(Content(c.issuerPubkey));
    } else if !BytesEqual(HexStringToBytes(keys[0]), c.issuerPubkey) {
      SearchKeysFinds(env, keys[1..], c);
    }
  }

  lemma GunToken(name: Bytes, num: uint64, gunPubkey: Slice)
    requires |Encode(Token(TokenVal(name, num, gunPubkey, None)))| < TWO63
    ensures var si := DecodeToken(NormSlice(Some(Encode(Token(TokenVal(name, num, gunPubkey, None))))));
            si.Some? && si.value.name == name
  {
    hide Print, PrintAll, Parse, TokenFields;
    UnmarshalMarshal(Token(TokenVal(name, num, gunPubkey, None)));
  }

  /** GUN completeness: a value from EncodeGunValue, whose issuer is in the gun table, signed over
      GetGunSignData and not expired, verifies as the record value of the name's key. */
  lemma GunValueVerifies(env: Env, name: Bytes, num: uint64, issueTime: uint64, ttl: uint64,
                         gunPubkey: Slice, gunSign: Slice, userData: Slice)
    requires TableOk(env.services) && IsPublicServiceNameKey(env.services, ServiceGun(), gunPubkey)
    requires env.verify(Content(gunPubkey), GetGunSignData(name, num, gunPubkey, issueTime, ttl), Content(gunSign))
    requires Unexpired(env, issueTime, ttl)
    requires |EncodeGunValue(name, num, issueTime, ttl, gunPubkey, gunSign, userData)| < TWO63
    ensures VerifyGunRecordValue(env, GetGunKey(name),
                                 Some(EncodeGunValue(name, num, issueTime, ttl, gunPubkey, gunSign, userData)),
                                 issueTime, ttl)
  {
    var cert := IssueCertGun(name, num, gunPubkey, issueTime, ttl).(issuerSign := gunSign);
    assert cert.(issuerSign := None) == IssueCertGun(name, num, gunPubkey, issueTime, ttl);
    assert VerifyCert(env, Some(cert));
    GunSizes(name, num, issueTime, ttl, gunPubkey, gunSign, userData);
    hide VerifyCert, Print, PrintAll, Parse, CertFields, TokenFields, SearchKeys, Hex, GetGunKey;
    var v := CertsVal([], userData, [cert]);
    UnmarshalMarshal(Messages.Certs(v));
    assert NormVect([cert]) == [NormCert(cert)];
    VerifyNorm(env, cert);
    SearchKeysFinds(env, env.services[ServiceGun()], NormCert(cert));
    GunToken(name, num, gunPubkey);
  }

  lemma GunSizes(name: Bytes, num: uint64, issueTime: uint64, ttl: uint64, gunPubkey: Slice, gunSign: Slice,
                 userData: Slice)
    requires |EncodeGunValue(name, num, issueTime, ttl, gunPubkey, gunSign, userData)| < TWO63
    ensures |Encode(Token(TokenVal(name, num, gunPubkey, None)))| < TWO63
  {
    var cert := IssueCertGun(name, num, gunPubkey, issueTime, ttl).(issuerSign := gunSign);
    var p := EncodeCert(cert);
    hide TokenFields, EncodeCert;
    assert CertVectFields([cert][1..]) == [];
    assert CertVectFields([cert]) == [BytesField(3, p)];
    PartFits(B(2, Content(userData)), BytesField(3, p), []);
    assert [BytesField(3, p)] + [] == [BytesField(3, p)];
    assert CertsFields(CertsVal([], userData, [cert])) == B(2, Content(userData)) + [BytesField(3, p)];
    CertDataFits(cert);
  }

  lemma PartFits(fs: seq<Field>, f: Field, gs: seq<Field>)
    ensures |Print(f)| <= |PrintAll(fs + ([f] + gs))|
  {
    PrintAllAppend(fs, [f] + gs);
    PrintAllAppend([f], gs);
    PrintAllOne(f);
  }

  lemma CertDataFits(c: CertVal)
    ensures |Content(c.data)| <= |EncodeCert(c)|
  {
    hide U, B, Print, PrintAll, Content;
    var p := Content(c.data);
    var gs := U(7, c.issueTime) + (U(8, c.ttl) + (B(10, Content(c.issuerPubkey)) + B(11, Content(c.issuerSign))));
    var f5 := B(5, Content(c.userPubkey)) + (B(6, p) + gs);
    var f4 := U(4, c.subType) + f5;
    var f3 := U(3, c.certType) + f4;
    var f2 := B(2, c.name) + f3;
    var size := |EncodeCert(c)|;
    TailFits(U(1, c.version), f2, size);
    TailFits(B(2, c.name), f3, size);
    TailFits(U(3, c.certType), f4, size);
    TailFits(U(4, c.subType), f5, size);
    TailFits(B(5, Content(c.userPubkey)), B(6, p) + gs, size);
    PayloadFits(6, p, gs);
  }

  lemma PayloadFits(n: FieldNo, p: Bytes, gs: seq<Field>)
    ensures |p| <= |PrintAll(B(n, p) + gs)|
  {
    hide Sov, PrintAll, Print;
    SizeB(n, p, gs);
  }
}
