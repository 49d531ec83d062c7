/** What a record must be to be valid, spelled out, and what follows for the owners of keys: ValidateRecord and
    ValidateValue of dkvs/dkvs_record.go, Validate of dkvs/record.go, VerifyGunRecordValue of dkvs/cert.go. */
module Validation {
  import opened GoTypes
  import opened GoStrings
  import opened Messages
  import opened RoundTrip
  import opened Services
  import opened Certs
  import opened Records
  import opened LocalStore
  import opened SignedBytes

  // ----- keys

  /** The full keys of the dkvs namespace are "/dkvs" in front of an inner key that begins with a slash. */
  lemma InnerKeyExactly(fullkey: Bytes, key: Bytes)
    ensures InnerKey(fullkey) == Some(key) <==> key != [] && key[0] == SLASH && fullkey == Ascii("/dkvs") + key
  {
    assert Ascii("/dkvs") == [SLASH] + Namespace();
    if key != [] && key[0] == SLASH && fullkey == Ascii("/dkvs") + key {
      InnerOfRecordKey(key);
    }
    if InnerKey(fullkey) == Some(key) {
      var i := IndexByte(fullkey[1..], SLASH);
      assert fullkey[1..] == fullkey[1..][..i] + ([SLASH] + fullkey[1..][i + 1..]);
    }
  }

  // ----- certificates

  /** A certificate with a time to live is in force until its issue time plus that, modulo 2^64; one without always. */
  lemma CertInForce(env: Env, c: CertVal)
    ensures VerifyCert(env, Some(c)) <==>
              && env.verify(Content(c.issuerPubkey), GetCertSignData(c), Content(c.issuerSign))
              && (c.ttl == 0 || env.now <= (c.issueTime + c.ttl) % 0x1_0000_0000_0000_0000)
  {
  }

  /** An expired certificate hands no key over and acknowledges no payment, whoever signed it. */
  lemma ExpiredBacksNothing(env: Env, key: Bytes, c: CertVal, fee: uint64, from: Slice, to: Slice)
    requires c.ttl != 0 && env.now > (c.issueTime + c.ttl) % 0x1_0000_0000_0000_0000
    ensures !HandsOver(env, key, c, fee, from, to) && !Acknowledges(env, key, c, fee, from, to)
  {
  }

  /** The names that tell the certificates of a transfer apart. */
  lemma CertNames()
    ensures TransferPrepareName() == Ascii("TransferPrepare") && TxCompletedName() == Ascii("TxCompleted")
    ensures TransferPrepareName() != TxCompletedName()
  {
    assert |Ascii("TransferPrepare")| == 15 && |Ascii("TxCompleted")| == 11;
  }

  // ----- GUN values

  /** The certificate is that of a key of the gun service. */
  ghost predicate ByGunService(env: Env, c: CertVal)
    requires TableOk(env.services)
  {
    Ascii("gun") in env.services && KeyAmong(env.services[Ascii("gun")], c.issuerPubkey)
  }

  ghost predicate KeyAmong(keys: seq<Bytes>, pk: Slice)
    requires forall k | k in keys :: |k| != 1
  {
    exists k :: k in keys && Content(HexStringToBytes(k)) == Content(pk)
  }

  /** The token of a certificate of the gun service names this key, and its times are the record's. */
  ghost predicate TokenFor(env: Env, key: Bytes, c: CertVal, issuetime: uint64, ttl: uint64)
    requires TableOk(env.services)
  {
    && ByGunService(env, c) && VerifyCert(env, Some(c))
    && c.issueTime == issuetime && c.ttl == ttl
    && DecodeToken(c.data).Some? && key == Ascii("/contract/") + DecodeToken(c.data).value.name
  }

  /** The i-th certificate is c, and the first of this issuer. */
  predicate FirstBy(cv: seq<CertVal>, pubkey: Slice, c: CertVal, i: nat) {
    i < |cv| && cv[i] == c && Content(c.issuerPubkey) == Content(pubkey) &&
    forall j | 0 <= j < i :: Content(cv[j].issuerPubkey) != Content(pubkey)
  }

  lemma {:induction false} SearchFinds(cv: seq<CertVal>, pubkey: Slice)
    ensures match SearchCertByPubkey(cv, pubkey)
            case Some(c) => c in cv && Content(c.issuerPubkey) == Content(pubkey)
            case None => forall c | c in cv :: Content(c.issuerPubkey) != Content(pubkey)
  {
    if cv != [] {
      SearchFinds(cv[1..], pubkey);
    }
  }

  lemma {:induction false} SearchFirst(cv: seq<CertVal>, pubkey: Slice) returns (i: nat)
    requires SearchCertByPubkey(cv, pubkey).Some?
    ensures FirstBy(cv, pubkey, SearchCertByPubkey(cv, pubkey).value, i)
  {
    hide Content;
    i := 0;
    if !BytesEqual(pubkey, cv[0].issuerPubkey) {
      i := SearchFirst(cv[1..], pubkey);
      assert forall j | 0 < j < |cv| :: cv[j] == cv[1..][j - 1];
      i := i + 1;
    }
  }

  /** The certificate of the i-th key is c and in force, and that of no key before it is. */
  ghost predicate FirstInForce(env: Env, keys: seq<Bytes>, cv: seq<CertVal>, c: CertVal, i: nat)
    requires forall k | k in keys :: |k| != 1
  {
    && i < |keys| && SearchCertByPubkey(cv, KeyAt(keys, i)) == Some(c) && VerifyCert(env, Some(c))
    && forall j | 0 <= j < i :: !VerifyCert(env, SearchCertByPubkey(cv, KeyAt(keys, j)))
  }

  function KeyAt(keys: seq<Bytes>, i: nat): Slice
    requires i < |keys| && forall k | k in keys :: |k| != 1
  {
    assert keys[i] in keys;
    HexStringToBytes(keys[i])
  }

  /** The keys of the table are gone through in order; a certificate that does not verify is passed over. */
  lemma {:induction false} KeysInOrder(env: Env, keys: seq<Bytes>, cv: seq<CertVal>) returns (i: nat)
    requires forall k | k in keys :: |k| != 1
    ensures match SearchKeys(env, keys, cv)
            case Some(c) => FirstInForce(env, keys, cv, c, i)
            case None => forall j | 0 <= j < |keys| :: !VerifyCert(env, SearchCertByPubkey(cv, KeyAt(keys, j)))
  {
    hide HexStringToBytes, SearchCertByPubkey, GetCertSignData, Unexpired;
    i := 0;
    if keys != [] {
      assert keys[0] in keys;
      var c := SearchCertByPubkey(cv, KeyAt(keys, 0));
      if !VerifyCert(env, c) {
        i := KeysInOrder(env, keys[1..], cv);
        i := i + 1;
        assert forall j | 0 < j < |keys| :: KeyAt(keys, j) == KeyAt(keys[1..], j - 1);
      }
    }
  }

  lemma {:induction false} KeysFind(env: Env, keys: seq<Bytes>, cv: seq<CertVal>)
    requires forall k | k in keys :: |k| != 1
    ensures var c := SearchKeys(env, keys, cv);
            c.Some? ==> c.value in cv && KeyAmong(keys, c.value.issuerPubkey) && VerifyCert(env, c)
  {
    hide VerifyCert, HexStringToBytes, Content;
    if keys != [] {
      assert keys[0] in keys;
      SearchFinds(cv, HexStringToBytes(keys[0]));
      KeysFind(env, keys[1..], cv);
    }
  }

  lemma {:induction false} KeysFindOnly(env: Env, keys: seq<Bytes>, cv: seq<CertVal>, c: CertVal)
    requires forall k | k in keys :: |k| != 1
    requires c in cv && KeyAmong(keys, c.issuerPubkey) && VerifyCert(env, Some(c))
    requires forall d | d in cv && KeyAmong(keys, d.issuerPubkey) :: d == c
    ensures SearchKeys(env, keys, cv) == Some(c)
  {
    hide VerifyCert, HexStringToBytes, Content;
    assert keys[0] in keys;
    var pubkey := HexStringToBytes(keys[0]);
    SearchFinds(cv, pubkey);
    var d := SearchCertByPubkey(cv, pubkey);
    if d.Some? {
      assert KeyAmong(keys, d.value.issuerPubkey);
    } else {
      var k :| k in keys && Content(HexStringToBytes(k)) == Content(c.issuerPubkey);
      assert k in keys[1..];
      assert forall e | e in cv && KeyAmong(keys[1..], e.issuerPubkey) :: KeyAmong(keys, e.issuerPubkey);
      KeysFindOnly(env, keys[1..], cv, c);
    }
  }

  /** A GUN value is accepted only with a certificate of the gun service whose token names the key. */
  lemma GunSound(env: Env, key: Bytes, value: Slice, issuetime: uint64, ttl: uint64)
    requires TableOk(env.services) && VerifyGunRecordValue(env, key, value, issuetime, ttl)
    ensures var rv := DecodeCertsRecordValue(value);
            rv.Some? && exists c :: c in rv.value.certVect && TokenFor(env, key, c, issuetime, ttl)
  {
    hide DecodeCertsRecordValue, DecodeToken, VerifyCert, SearchKeys;
    var cv := DecodeCertsRecordValue(value).value.certVect;
    GunNamed();
    KeysFind(env, env.services[ServiceGun()], cv);
    var c := FindGunCert(env, cv).value;
    GunKeyIs(DecodeToken(c.data).value.name);
    assert TokenFor(env, key, c, issuetime, ttl);
  }

  /** And it is accepted when that is the only certificate in it of the gun service. */
  lemma GunComplete(env: Env, key: Bytes, value: Slice, issuetime: uint64, ttl: uint64, c: CertVal)
    requires TableOk(env.services) && DecodeCertsRecordValue(value).Some?
    requires c in DecodeCertsRecordValue(value).value.certVect && TokenFor(env, key, c, issuetime, ttl)
    requires forall d | d in DecodeCertsRecordValue(value).value.certVect && ByGunService(env, d) :: d == c
    ensures VerifyGunRecordValue(env, key, value, issuetime, ttl)
  {
    hide DecodeCertsRecordValue, DecodeToken, VerifyCert, SearchKeys;
    GunNamed();
    KeysFindOnly(env, env.services[ServiceGun()], DecodeCertsRecordValue(value).value.certVect, c);
    GunKeyIs(DecodeToken(c.data).value.name);
  }

  lemma GunNamed()
    ensures ServiceGun() == Ascii("gun") && ServiceMiner() == Ascii("miner")
  {
  }

  lemma GunKeyIs(name: Bytes)
    ensures GetGunKey(name) == Ascii("/contract/") + name
  {
    ContractPrefix();
  }

  // ----- records

  /** Eight bytes, the lowest first. */
  function LowFirst(x: uint64): Bytes {
    seq(8, i requires 0 <= i < 8 => Shifted8(x, i) % 256)
  }

  /** Signed by its own public key for this inner key, with the issue time Validity - Ttl modulo 2^64. */
  predicate OwnSigned(env: Env, key: Bytes, r: RecordVal) {
    var issuetime := IssueTime(r);
    env.verify(Content(r.pubKey),
               key + (Content(r.value) + (Content(r.pubKey) + (LowFirst(issuetime) + LowFirst(r.ttl)))),
               Content(r.signature))
  }

  /** Validity - Ttl, which may wrap. */
  function IssueTime(r: RecordVal): uint64 {
    (r.validity - r.ttl) % 0x1_0000_0000_0000_0000
  }

  /** Of fitting size, its type and signature in order, and not expired. */
  ghost predicate Genuine(env: Env, key: Bytes, r: RecordVal)
    requires TableOk(env.services)
  {
    |Encode(Record(r))| <= 10240 && Vouched(env, key, r) && (r.validityType == 0 ==> env.now <= r.validity)
  }

  ghost predicate Vouched(env: Env, key: Bytes, r: RecordVal)
    requires TableOk(env.services)
  {
    && r.pubKey.Some? && OwnSigned(env, key, r)
    && (r.valueType == 0 ||
        (r.valueType == 1 &&
         (GunName(key) ==>
            VerifyGunRecordValue(env, key, r.value, IssueTime(r), r.ttl))))
  }

  ghost predicate GunName(key: Bytes) {
    exists name: Bytes :: SLASH !in name && |name| <= 32 && key == Ascii("/contract/") + name
  }

  lemma SignDataIs(env: Env, key: Bytes, r: RecordVal)
    ensures OwnSigned(env, key, r) <==>
              env.verify(Content(r.pubKey), RecordSignData(key, r.value, r.pubKey, IssueTime(r), r.ttl),
                         Content(r.signature))
  {
    var issuetime: uint64 := IssueTime(r);
    EightBytes(issuetime);
    EightBytes(r.ttl);
    hide Shifted8;
    assert LittleEndian(issuetime, 8) == LowFirst(issuetime) && LittleEndian(r.ttl, 8) == LowFirst(r.ttl);
    hide LittleEndian, LowFirst;
  }

  lemma RecordExactly(env: Env, key: Bytes, r: RecordVal)
    requires TableOk(env.services) && key != []
    ensures ValidateRecord(env, key, r) ==
            if |Encode(Record(r))| > 10240 then Some(RecordSize)
            else if !Vouched(env, key, r) then Some(SignatureError)
            else if r.validityType == 0 && env.now > r.validity then Some(Expired)
            else None
  {
    hide OwnSigned, GunName, IssueTime, Sub64, RecordSignData, VerifyGunRecordValue, IsGunName, Encode, Content,
         ValidateValue;
    SignDataIs(env, key, r);
    GunNameIs(key);
    IssueTimeIs(r);
    if r.pubKey.Some? { ValueExactly(env, key, r, IssueTime(r)); }
  }

  lemma RecordGenuine(env: Env, key: Bytes, r: RecordVal)
    requires TableOk(env.services) && key != []
    ensures ValidateRecord(env, key, r).None? <==> Genuine(env, key, r)
  {
    hide ValidateRecord, Vouched, Encode;
    RecordExactly(env, key, r);
  }

  lemma GunNameIs(key: Bytes)
    requires key != []
    ensures GunName(key) <==> IsGunName(key)
  {
    hide IsGunName, Ascii;
    GunNameExactly(key);
  }

  lemma IssueTimeIs(r: RecordVal)
    ensures Sub64(r.validity, r.ttl) == IssueTime(r)
  {
  }

  lemma ValueExactly(env: Env, key: Bytes, r: RecordVal, issuetime: uint64)
    requires TableOk(env.services) && key != [] && r.pubKey.Some?
    ensures ValidateValue(env, key, r.value, r.pubKey, issuetime, r.ttl, r.signature, r.valueType).None? <==>
              && env.verify(Content(r.pubKey), RecordSignData(key, r.value, r.pubKey, issuetime, r.ttl),
                            Content(r.signature))
              && (r.valueType == 0 || (r.valueType == 1 &&
                    (IsGunName(key) ==> VerifyGunRecordValue(env, key, r.value, issuetime, r.ttl))))
    ensures ValidateValue(env, key, r.value, r.pubKey, issuetime, r.ttl, r.signature, r.valueType) in
              {None, Some(SignatureError)}
  {
    hide RecordSignData, VerifyGunRecordValue, IsGunName, Content;
  }

  /** A value is valid under a full key exactly when that is "/dkvs" and an inner key, and the value decodes to a
      genuine record for the inner key. */
  lemma ValidExactly(env: Env, fullkey: Bytes, value: Bytes)
    requires TableOk(env.services)
    ensures Validate(env, fullkey, value).None? <==>
              exists key: Bytes, r: RecordVal ::
                && key != [] && key[0] == SLASH && fullkey == Ascii("/dkvs") + key
                && DecodeRecord(Some(value)) == Some(r) && Genuine(env, key, r)
  {
    hide InnerKey, DecodeRecord, ValidateRecord, Genuine, Ascii;
    if Validate(env, fullkey, value).None? {
      var key, r := InnerKey(fullkey).value, DecodeRecord(Some(value)).value;
      InnerKeyExactly(fullkey, key);
      RecordGenuine(env, key, r);
    }
    forall key: Bytes, r: RecordVal
        | key != [] && key[0] == SLASH && fullkey == Ascii("/dkvs") + key &&
          DecodeRecord(Some(value)) == Some(r) && Genuine(env, key, r)
      ensures Validate(env, fullkey, value).None?
    {
      InnerKeyExactly(fullkey, key);
      RecordGenuine(env, key, r);
    }
  }

  /** What Validate returns, exactly: the first thing that fails, in this order. */
  lemma ErrorExactly(env: Env, fullkey: Bytes, value: Bytes)
    requires TableOk(env.services)
    ensures Validate(env, fullkey, value) ==
            if InnerKey(fullkey).None? then Some(InvalidPath)
            else if DecodeRecord(Some(value)).None? then Some(BadRecord)
            else
              var key, r := InnerKey(fullkey).value, DecodeRecord(Some(value)).value;
              if |Encode(Record(r))| > 10240 then Some(RecordSize)
              else if !Vouched(env, key, r) then Some(SignatureError)
              else if r.validityType == 0 && env.now > r.validity then Some(Expired)
              else None
  {
    hide InnerKey, DecodeRecord, ValidateRecord, Vouched, Encode;
    if InnerKey(fullkey).Some? && DecodeRecord(Some(value)).Some? {
      RecordExactly(env, InnerKey(fullkey).value, DecodeRecord(Some(value)).value);
    }
  }

  // ----- nobody owns a key who has not signed for it

  /** A record that a put stores is signed by the owner it gives the key to. */
  lemma StoredIsSigned(key: Bytes, s: Option<Stored>, p: Put)
    requires TableOk(p.env.services) && AfterPut(key, s, p) != s
    ensures AfterPut(key, s, p) == Some(Wrapped(key, p.value))
    ensures exists inner: Bytes, r: RecordVal ::
              && key == Ascii("/dkvs") + inner && DecodeRecord(Some(p.value)) == Some(r)
              && Genuine(p.env, inner, r) && OwnerOf(Wrapped(key, p.value)) == Content(r.pubKey)
  {
    hide Validate, Select, Genuine, DecodeRecord, Ascii;
    ValidExactly(p.env, key, p.value);
    var inner: Bytes, r: RecordVal :|
      inner != [] && inner[0] == SLASH && key == Ascii("/dkvs") + inner &&
      DecodeRecord(Some(p.value)) == Some(r) && Genuine(p.env, inner, r);
  }

  /** A public key under which nothing verifies never comes to own a key, along any run of puts. */
  lemma {:induction false} ForgedNeverOwns(key: Bytes, s: Stored, puts: seq<Put>, n: nat, pk: Bytes)
    requires PutsOk(puts) && n <= |puts| && OwnerOf(s) != pk
    requires forall i, d, sig | 0 <= i < |puts| :: !puts[i].env.verify(pk, d, sig)
    ensures OwnerOf(At(key, s, puts, n)) != pk
  {
    hide OwnerOf, AfterPut, Genuine, DecodeRecord, Ascii;
    if n == 0 {
      assert puts[..0] == [];
    } else {
      ForgedNeverOwns(key, s, puts, n - 1, pk);
      AtStep(key, s, puts, n - 1);
      var s0, p := At(key, s, puts, n - 1), puts[n - 1];
      assert p in puts;
      if AfterPut(key, Some(s0), p) != Some(s0) {
        StoredIsSigned(key, Some(s0), p);
        var inner: Bytes, r: RecordVal :|
          key == Ascii("/dkvs") + inner && DecodeRecord(Some(p.value)) == Some(r) &&
          Genuine(p.env, inner, r) && OwnerOf(Wrapped(key, p.value)) == Content(r.pubKey);
        assert OwnSigned(p.env, inner, r) by { GenuineSigned(p.env, inner, r); }
      }
    }
  }

  lemma GenuineSigned(env: Env, key: Bytes, r: RecordVal)
    requires TableOk(env.services) && Genuine(env, key, r)
    ensures OwnSigned(env, key, r)
  {
  }
}
