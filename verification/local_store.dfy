/** A node's local record store (dkvs/dht.go): what one put does, who may take over a key along any run of
    puts, and what replicas converge to. */
module LocalStore {
  import opened GoTypes
  import opened GoStrings
  import opened Varint
  import opened WireGrammar
  import opened Messages
  import opened Marshal
  import opened RoundTrip
  import opened Services
  import opened Certs
  import opened Records

  /** A datastore entry: the wrapper record with its key, or bytes that do not unmarshal. */
  datatype Stored = Wrapped(key: Bytes, value: Bytes) | Corrupt

  function Lookup(db: map<Bytes, Stored>, key: Bytes): Option<Stored> {
    if key in db then Some(db[key]) else None
  }

  /** getLocal: bad, invalid and misfiled entries read as absent. */
  function Current(env: Env, stored: Option<Stored>, key: Bytes): Option<Bytes>
    requires TableOk(env.services)
  {
    if stored.None? || stored.value.Corrupt? then None
    else if Validate(env, stored.value.key, stored.value.value).Some? then None
    else if stored.value.key != key then None
    else Some(stored.value.value)
  }

  /** Why a put of value over a stored entry is refused, if it is. */
  function PutOutcome(env: Env, stored: Option<Stored>, key: Bytes, value: Bytes): Option<DkvsError>
    requires TableOk(env.services)
  {
    var valid := Validate(env, key, value);
    if valid.Some? then valid
    else
      var old' := Current(env, stored, key);
      if old'.None? || old'.value == value then None
      else match Select(env, key, [value, old'.value])
        case Failure(e) => Some(e)
        case Success(i) => if i != 0 then Some(NotNewer) else None
  }

  /** Entries are filed under the key itself: the base32 datastore key is injective. */
  class Dkvs {
    var dhtDatastore: map<Bytes, Stored>

    constructor ()
      ensures dhtDatastore == map[]
    {
      dhtDatastore := map[];
    }

    /** The record in force under the key, if there is one; `fails` is an error of the datastore. */
    method GetLocal(env: Env, key: Bytes, fails: bool) returns (rec: Option<Bytes>, err: Option<DkvsError>)
      requires TableOk(env.services)
      ensures err == if fails then Some(StoreError) else None
      ensures fails ==> rec == None
      ensures !fails ==> rec == Current(env, Lookup(dhtDatastore, key), key)
      ensures !fails ==> forall v :: rec == Some(v) <==>
                key in dhtDatastore && dhtDatastore[key] == Wrapped(key, v) && Validate(env, key, v).None?
    {
      hide Validate;
      if fails {
        return None, Some(StoreError);
      }
      if key !in dhtDatastore {
        return None, None;
      }
      match dhtDatastore[key] {
        case Corrupt => return None, None;
        case Wrapped(recKey, value) =>
          if Validate(env, recKey, value).Some? {
            return None, None;
          }
          if recKey != key {
            return None, None;
          }
          return Some(value), None;
      }
    }

    method PutLocal(key: Bytes, value: Bytes, fails: bool) returns (err: Option<DkvsError>)
      modifies this
      ensures err == if fails then Some(StoreError) else None
      ensures dhtDatastore == if fails then old(dhtDatastore) else old(dhtDatastore)[key := Wrapped(key, value)]
    {
      if fails {
        return Some(StoreError);
      }
      dhtDatastore := dhtDatastore[key := Wrapped(key, value)];
      err := None;
    }

    method PutKeyToLocalNode(env: Env, key: Bytes, value: Bytes, readFails: bool, writeFails: bool)
      returns (err: Option<DkvsError>)
      requires TableOk(env.services)
      modifies this
      ensures !readFails && !writeFails ==> err == PutOutcome(env, Lookup(old(dhtDatastore), key), key, value)
      ensures err.None? <==>
                !readFails && !writeFails && PutOutcome(env, Lookup(old(dhtDatastore), key), key, value).None?
      ensures readFails && Validate(env, key, value).None? ==> err == Some(StoreError)
      ensures err.None? ==> dhtDatastore == old(dhtDatastore)[key := Wrapped(key, value)]
      ensures err.Some? ==> dhtDatastore == old(dhtDatastore)
    {
      hide Validate, Select, Current;
      err := Validate(env, key, value);
      if err.Some? {
        return;
      }
      var old';
      old', err := GetLocal(env, key, readFails);
      if err.Some? {
        return;
      }
      if old'.Some? && old'.value != value {
        var i := Select(env, key, [value, old'.value]);
        if i.Failure? {
          return Some(i.error);
        }
        if i.value != 0 {
          return Some(NotNewer);
        }
      }
      err := PutLocal(key, value, writeFails);
    }
  }

  // ----- runs of puts to one key

  /** One put, with the surroundings it met: each has its own clock reading and approvals. */
  datatype Put = Put(env: Env, value: Bytes)

  ghost predicate PutsOk(puts: seq<Put>) {
    forall p | p in puts :: TableOk(p.env.services)
  }

  ghost function AfterPut(key: Bytes, s: Option<Stored>, p: Put): Option<Stored>
    requires TableOk(p.env.services)
  {
    if PutOutcome(p.env, s, key, p.value).None? then Some(Wrapped(key, p.value)) else s
  }

  ghost function After(key: Bytes, s: Option<Stored>, puts: seq<Put>): Option<Stored>
    requires PutsOk(puts)
    decreases |puts|
  {
    if puts == [] then s
    else
      var last := |puts| - 1;
      AfterPut(key, After(key, s, puts[..last]), puts[last])
  }

  // ----- what backs a change of owner

  /** Signed by the holder of pk, and in force. */
  ghost predicate SignedBy(env: Env, c: CertVal, pk: Slice) {
    && Content(c.issuerPubkey) == Content(pk)
    && env.verify(Content(pk), GetCertSignData(c), Content(c.issuerSign))
    && Unexpired(env, c.issueTime, c.ttl)
  }

  /** The old owner's certificate that the key may pass from one public key to another for a fee. */
  ghost predicate HandsOver(env: Env, key: Bytes, c: CertVal, fee: uint64, from: Slice, to: Slice) {
    && SignedBy(env, c, from)
    && c.name == TransferPrepareName()
    && DecodePrepare(c.data) == Some(PrepareVal(key, fee))
    && (c.userPubkey.Some? ==> Content(c.userPubkey) == Content(to))
  }

  /** A miner's receipt that the fee for this key has passed between the two. */
  ghost predicate Acknowledges(env: Env, key: Bytes, r: CertVal, fee: uint64, from: Slice, to: Slice) {
    && SignedBy(env, r, r.issuerPubkey)
    && IsPublicServiceNameKey(env.services, ServiceMiner(), r.issuerPubkey)
    && r.name == TxCompletedName()
    && (exists tx: Bytes, a: Slice, b: Slice ::
          && tx != []
          && DecodeCompleted(r.data) == Some(CompletedVal(key, tx, fee, a, b))
          && ((Content(a) == Content(from) && Content(b) == Content(to)) ||
              (Content(a) == Content(to) && Content(b) == Content(from))))
  }

  /** The certificate and the receipt nested in a transfer record: Data is the prepared record, whose value
      holds the certificate in UserData and whose Data is the receipt. */
  ghost predicate CarriesCert(newRec: RecordVal, c: CertVal) {
    && CarriedPrepare(newRec).Some?
    && var certs := DecodeCertsRecordValue(CarriedPrepare(newRec).value.value);
    certs.Some? && certs.value.userData.Some? && DecodeCert(certs.value.userData) == Some(c)
  }

  ghost predicate CarriesReceipt(newRec: RecordVal, r: CertVal) {
    && CarriedPrepare(newRec).Some?
    && CarriedPrepare(newRec).value.data.Some?
    && DecodeCert(CarriedPrepare(newRec).value.data) == Some(r)
  }

  /** No receipt at all, or one that decodes: anything else is refused even when no fee is due. */
  ghost predicate ReceiptReadable(newRec: RecordVal) {
    CarriedPrepare(newRec).Some? &&
    (CarriedPrepare(newRec).value.data.Some? ==> DecodeCert(CarriedPrepare(newRec).value.data).Some?)
  }

  ghost predicate FeePaid(env: Env, key: Bytes, fee: uint64, from: Slice, to: Slice, newRec: RecordVal) {
    exists r: CertVal :: CarriesReceipt(newRec, r) && Acknowledges(env, key, r, fee, from, to)
  }

  ghost predicate TransferBy(env: Env, key: Bytes, c: CertVal, fee: uint64, from: Slice, to: Slice, newRec: RecordVal) {
    && CarriesCert(newRec, c)
    && HandsOver(env, key, c, fee, from, to)
    && (fee != 0 ==> FeePaid(env, key, fee, from, to, newRec))
  }

  ghost predicate BackedByTransfer(env: Env, key: Bytes, from: Slice, to: Slice, newRec: RecordVal) {
    exists c: CertVal, fee: uint64 :: TransferBy(env, key, c, fee, from, to, newRec)
  }

  /** The key is of the service sn: its second component. */
  predicate UnderService(key: Bytes, lead: Bytes, sn: Bytes, rest: Bytes) {
    SLASH !in lead && SLASH !in sn && key == lead + [SLASH] + sn + [SLASH] + rest
  }

  /** A public key is in a service if the table lists its name there, or the service's own records approve it. */
  predicate InService(env: Env, sn: Bytes, pk: Slice) {
    (sn in env.services && Hex(Content(pk)) in env.services[sn]) || env.approvedPubkey(sn, Content(pk))
  }

  /** Both are in the service of the key, which the table lists or which is approved itself. */
  ghost predicate BackedByService(env: Env, key: Bytes, from: Slice, to: Slice) {
    exists lead: Bytes, sn: Bytes, rest: Bytes ::
      && UnderService(key, lead, sn, rest) && (sn in env.services || env.approvedService(sn))
      && InService(env, sn, from) && InService(env, sn, to)
  }

  ghost predicate Backed(env: Env, key: Bytes, from: Slice, to: Slice, newRec: RecordVal) {
    BackedByTransfer(env, key, from, to, newRec) || BackedByService(env, key, from, to)
  }

  lemma ServiceIsBacking(env: Env, key: Bytes, from: Slice, to: Slice)
    ensures BackedByService(env, key, from, to) <==>
            |Split(key, SLASH)| >= 3 && IsServiceColleague(env, Split(key, SLASH)[1], from, to)
  {
    hide Hex, Content;
    if lead: Bytes, sn: Bytes, rest: Bytes :|
        UnderService(key, lead, sn, rest) && (sn in env.services || env.approvedService(sn)) &&
        InService(env, sn, from) && InService(env, sn, to) {
      SecondPart(key, lead, sn, rest);
    }
    if |Split(key, SLASH)| >= 3 && IsServiceColleague(env, Split(key, SLASH)[1], from, to) {
      var lead, rest := AroundSecond(key);
      assert UnderService(key, lead, Split(key, SLASH)[1], rest);
    }
  }

  lemma SecondPart(key: Bytes, lead: Bytes, sn: Bytes, rest: Bytes)
    requires UnderService(key, lead, sn, rest)
    ensures |Split(key, SLASH)| >= 3 && Split(key, SLASH)[1] == sn
  {
    SplitPrefix(sn, SLASH, rest);
    SplitPrefix(lead, SLASH, sn + [SLASH] + rest);
    assert key == lead + [SLASH] + (sn + [SLASH] + rest);
    hide Split;
  }

  lemma AroundSecond(key: Bytes) returns (lead: Bytes, rest: Bytes)
    requires |Split(key, SLASH)| >= 3
    ensures UnderService(key, lead, Split(key, SLASH)[1], rest)
  {
    var parts := Split(key, SLASH);
    SplitGlue(key, SLASH);
    PartsHaveNoSep(key, SLASH);
    assert parts[0] in parts && parts[1] in parts;
    hide Split;
    lead, rest := parts[0], Glue(parts[2..], SLASH);
    assert parts[1..][1..] == parts[2..] && parts[1..][0] == parts[1];
    assert Glue(parts[1..], SLASH) == parts[1] + ([SLASH] + rest);
    assert lead + ([SLASH] + (parts[1] + ([SLASH] + rest))) == lead + [SLASH] + parts[1] + [SLASH] + rest;
  }

  lemma ConfirmIsBacking(env: Env, key: Bytes, newRec: RecordVal, txcert: Option<CertVal>, from: Slice, to: Slice)
    requires CarriedPrepare(newRec).Some? && ReceiptReadable(newRec)
    requires txcert == if CarriedPrepare(newRec).value.data.None? then None
                       else DecodeCert(CarriedPrepare(newRec).value.data)
    ensures VerifyCertTransferConfirm(env, key, CarriedPrepare(newRec).value.value, txcert, from, to) <==>
            BackedByTransfer(env, key, from, to, newRec)
  {
    hide DecodeCertsRecordValue, DecodeCert, DecodePrepare, DecodeCompleted, GetCertSignData, IsPublicServiceNameKey,
         CarriedPrepare,
         TransferPrepareName, TxCompletedName, Unexpired;
    var value := CarriedPrepare(newRec).value.value;
    if VerifyCertTransferConfirm(env, key, value, txcert, from, to) {
      var c := GetCertTransferPrepare(env, value).value;
      var tp := DecodePrepare(c.data).value;
      assert tp == PrepareVal(key, tp.fee);
      assert CarriesCert(newRec, c) && HandsOver(env, key, c, tp.fee, from, to);
      if tp.fee != 0 {
        ReceiptAcknowledges(env, key, tp.fee, txcert, from, to);
        assert CarriesReceipt(newRec, txcert.value);
      }
      assert TransferBy(env, key, c, tp.fee, from, to, newRec);
    }
    if c: CertVal, fee: uint64 :| TransferBy(env, key, c, fee, from, to, newRec) {
      assert GetCertTransferPrepare(env, value) == Some(c);
      if fee != 0 {
        ReceiptAcknowledges(env, key, fee, txcert, from, to);
      }
    }
  }

  lemma ReceiptAcknowledges(env: Env, key: Bytes, fee: uint64, txcert: Option<CertVal>, from: Slice, to: Slice)
    ensures VerifyCertTxCompleted(env, key, fee, txcert, from, to) <==>
            txcert.Some? && Acknowledges(env, key, txcert.value, fee, from, to)
  {
    hide DecodeCompleted, GetCertSignData, IsPublicServiceNameKey, TxCompletedName, Unexpired;
    if VerifyCertTxCompleted(env, key, fee, txcert, from, to) {
      var tc := DecodeCompleted(txcert.value.data).value;
      assert tc == CompletedVal(key, tc.tx, fee, tc.senderkey, tc.receiverkey);
    }
  }

  /** When one record may follow another under a key. */
  ghost predicate MayFollow(env: Env, key: Bytes, oldRec: RecordVal, newRec: RecordVal) {
    || oldRec.validityType != EOL
    || Content(oldRec.pubKey) == Content(newRec.pubKey)
    || (newRec.data.Some? && ReceiptReadable(newRec) &&
        BackedByTransfer(env, key, oldRec.pubKey, newRec.pubKey, newRec))
    || (newRec.data.None? && BackedByService(env, key, oldRec.pubKey, newRec.pubKey))
  }

  lemma CheckOwnerExact(env: Env, key: Bytes, oldRec: RecordVal, newRec: RecordVal)
    ensures CheckOwner(env, key, oldRec, newRec).None? <==> MayFollow(env, key, oldRec, newRec)
  {
    hide VerifyCertTransferConfirm, BackedByTransfer, BackedByService, CarriedPrepare, IsServiceColleague, Split;
    ServiceIsBacking(env, key, oldRec.pubKey, newRec.pubKey);
    if newRec.data.Some? && ReceiptReadable(newRec) {
      var prepare := CarriedPrepare(newRec).value;
      ConfirmIsBacking(env, key, newRec, if prepare.data.Some? then DecodeCert(prepare.data) else None,
                       oldRec.pubKey, newRec.pubKey);
    }
  }

  // ----- ownership over whole runs

  function RecOf(s: Stored): (r: RecordVal)
  {
    if s.Wrapped? && DecodeRecord(Some(s.value)).Some? then DecodeRecord(Some(s.value)).value else EMPTY_RECORD
  }

  function OwnerOf(s: Stored): Bytes {
    Content(RecOf(s).pubKey)
  }

  /** The put is refused, stores nothing new, or replaces a record that is in force, of EOL type and
      strictly older. */
  ghost predicate ReplacesOlder(key: Bytes, s: Stored, p: Put)
    requires TableOk(p.env.services)
  {
    var before := Current(p.env, Some(s), key);
    PutOutcome(p.env, Some(s), key, p.value).None? && before != Some(p.value) ==>
      before.Some? && RecOf(s).validityType == EOL && RecOf(s).seqNo < RecOf(Wrapped(key, p.value)).seqNo
  }

  /** An accepted replacement passes the owner check of the two records, in the order of their Seq. */
  lemma AcceptedReplacement(env: Env, key: Bytes, s: Stored, value: Bytes)
    requires TableOk(env.services) && PutOutcome(env, Some(s), key, value).None?
    requires Current(env, Some(s), key).Some? && Current(env, Some(s), key).value != value
    ensures InnerKey(key).Some? && s == Wrapped(key, s.value)
    ensures DecodeRecord(Some(value)).Some? && DecodeRecord(Some(s.value)).Some?
    ensures RecOf(Wrapped(key, value)).seqNo >= RecOf(s).seqNo
    ensures RecOf(Wrapped(key, value)).seqNo > RecOf(s).seqNo ==>
              CheckOwner(env, InnerKey(key).value, RecOf(s), RecOf(Wrapped(key, value))).None?
    ensures RecOf(Wrapped(key, value)).seqNo == RecOf(s).seqNo ==>
              CheckOwner(env, InnerKey(key).value, RecOf(Wrapped(key, value)), RecOf(s)).None?
  {
    hide Select, CheckOwner, ValidateRecord, InnerKey, CompareBytes, DecodeRecord;
    SelectTwo(env, key, value, s.value);
  }

  /** A key changes hands only with the backing of its owner, or among colleagues of one service. */
  lemma OwnerStep(key: Bytes, s: Stored, p: Put)
    requires TableOk(p.env.services) && ReplacesOlder(key, s, p)
    ensures AfterPut(key, Some(s), p).Some?
    ensures var s' := AfterPut(key, Some(s), p).value;
            OwnerOf(s') == OwnerOf(s) ||
            (InnerKey(key).Some? && Backed(p.env, InnerKey(key).value, RecOf(s).pubKey, RecOf(s').pubKey, RecOf(s')))
  {
    hide Select, CheckOwner, Validate, InnerKey, DecodeRecord, BackedByTransfer, BackedByService, ReceiptReadable;
    var before := Current(p.env, Some(s), key);
    if PutOutcome(p.env, Some(s), key, p.value).None? && before != Some(p.value) {
      AcceptedReplacement(p.env, key, s, p.value);
      CheckOwnerExact(p.env, InnerKey(key).value, RecOf(s), RecOf(Wrapped(key, p.value)));
    }
  }

  /** The entry after the first i puts of a run. */
  ghost function At(key: Bytes, s: Stored, puts: seq<Put>, i: nat): Stored
    requires PutsOk(puts) && i <= |puts|
  {
    var a := After(key, Some(s), puts[..i]);
    if a.Some? then a.value else s
  }

  lemma {:induction false} AtStep(key: Bytes, s: Stored, puts: seq<Put>, i: nat)
    requires PutsOk(puts) && i <= |puts|
    ensures After(key, Some(s), puts[..i]) == Some(At(key, s, puts, i))
    ensures i < |puts| ==> AfterPut(key, Some(At(key, s, puts, i)), puts[i]) == Some(At(key, s, puts, i + 1))
  {
    hide PutOutcome;
    if i > 0 {
      AtStep(key, s, puts, i - 1);
      assert puts[..i][..i - 1] == puts[..i - 1];
    }
    if i < |puts| {
      assert puts[..i + 1][..i] == puts[..i];
    }
  }

  /** Each change of owner along a run is backed by what was put. */
  lemma EveryChangeIsBacked(key: Bytes, s: Stored, puts: seq<Put>, i: nat)
    requires PutsOk(puts) && i < |puts|
    requires forall j | 0 <= j < |puts| :: ReplacesOlder(key, At(key, s, puts, j), puts[j])
    ensures var s0, s1 := At(key, s, puts, i), At(key, s, puts, i + 1);
            OwnerOf(s1) == OwnerOf(s0) ||
            (InnerKey(key).Some? &&
             Backed(puts[i].env, InnerKey(key).value, RecOf(s0).pubKey, RecOf(s1).pubKey, RecOf(s1)))
  {
    hide OwnerOf, Backed, ReplacesOlder, InnerKey, AfterPut, RecOf;
    AtStep(key, s, puts, i);
    assert puts[i] in puts && ReplacesOlder(key, At(key, s, puts, i), puts[i]);
    OwnerStep(key, At(key, s, puts, i), puts[i]);
  }

  /** Ownership over whole runs: if every put of a run is refused, repeats the stored bytes or replaces an
      older record in force, then the owner at the end is the owner at the start, or at some put of the
      run the starting owner still held the key and that very put carried its backing away from it. */
  lemma {:induction false} OwnerLosesOnlyByBacking(key: Bytes, s: Stored, puts: seq<Put>, n: nat)
    requires PutsOk(puts) && n <= |puts|
    requires forall i | 0 <= i < |puts| :: ReplacesOlder(key, At(key, s, puts, i), puts[i])
    ensures OwnerOf(At(key, s, puts, n)) == OwnerOf(s) ||
            exists i ::
              && 0 <= i < n
              && OwnerOf(At(key, s, puts, i)) == OwnerOf(s)
              && InnerKey(key).Some?
              && Backed(puts[i].env, InnerKey(key).value, RecOf(At(key, s, puts, i)).pubKey,
                        RecOf(At(key, s, puts, i + 1)).pubKey, RecOf(At(key, s, puts, i + 1)))
  {
    hide OwnerOf, Backed, ReplacesOlder, InnerKey, AfterPut, RecOf;
    if n == 0 {
      assert puts[..0] == [];
    } else {
      OwnerLosesOnlyByBacking(key, s, puts, n - 1);
      AtStep(key, s, puts, n - 1);
      var s0, p := At(key, s, puts, n - 1), puts[n - 1];
      assert p in puts && ReplacesOlder(key, s0, p);
      OwnerStep(key, s0, p);
      assert AfterPut(key, Some(s0), p) == Some(At(key, s, puts, n));
    }
  }

  // ----- without assuming an older record

  /** Exactly when a valid put takes the place of a record in force. The greater Seq must be able to follow the
      smaller; on a tie the stored record must be able to follow the incoming one, which must be the greater
      version. */
  lemma PutExact(env: Env, key: Bytes, s: Stored, value: Bytes)
    requires TableOk(env.services) && Validate(env, key, value).None?
    requires Current(env, Some(s), key).Some? && Current(env, Some(s), key).value != value
    ensures InnerKey(key).Some?
    ensures PutOutcome(env, Some(s), key, value).None? <==>
              Supersedes(env, InnerKey(key).value, VersionOf(s.value), VersionOf(value))
  {
    hide CheckOwner, MayFollow, ValidateRecord, InnerKey, CompareBytes, DecodeRecord, Select;
    SelectTwo(env, key, value, s.value);
    CheckOwnerExact(env, InnerKey(key).value, VersionOf(s.value).rec, VersionOf(value).rec);
    CheckOwnerExact(env, InnerKey(key).value, VersionOf(value).rec, VersionOf(s.value).rec);
  }

  ghost predicate Supersedes(env: Env, key: Bytes, was: Version, now: Version) {
    || (now.rec.seqNo > was.rec.seqNo && MayFollow(env, key, was.rec, now.rec))
    || (now.rec.seqNo == was.rec.seqNo && MayFollow(env, key, now.rec, was.rec) && CompareVersions(now, was) >= 0)
  }

  /** Which puts hand a key to an owner nobody backed: those of a greater Seq over a record that is not EOL, and
      the greater versions of equal Seq that are not EOL or that the stored record may follow. */
  lemma UnbackedExactly(env: Env, key: Bytes, s: Stored, value: Bytes)
    requires TableOk(env.services) && Validate(env, key, value).None?
    requires Current(env, Some(s), key).Some? && OwnerOf(Wrapped(key, value)) != OwnerOf(s)
    ensures InnerKey(key).Some?
    ensures var k, was, now := InnerKey(key).value, VersionOf(s.value), VersionOf(value);
            !Backed(env, k, was.rec.pubKey, now.rec.pubKey, now.rec) ==>
              (PutOutcome(env, Some(s), key, value).None? <==>
                 || (now.rec.seqNo > was.rec.seqNo && was.rec.validityType != EOL)
                 || (now.rec.seqNo == was.rec.seqNo && CompareVersions(now, was) >= 0 &&
                     (now.rec.validityType != EOL || MayFollow(env, k, now.rec, was.rec))))
  {
    hide BackedByTransfer, BackedByService, ReceiptReadable, CompareVersions, Validate, PutOutcome, InnerKey,
         DecodeRecord;
    assert s == Wrapped(key, s.value);
    PutExact(env, key, s, value);
  }

  /** What stands behind a change of owner, the two records in force one after the other. */
  ghost predicate Explained(env: Env, key: Bytes, was: RecordVal, now: RecordVal) {
    || (now.seqNo > was.seqNo &&
        (was.validityType != EOL || Backed(env, key, was.pubKey, now.pubKey, now)))
    || (now.seqNo == was.seqNo &&
        (now.validityType != EOL || Backed(env, key, now.pubKey, was.pubKey, was)))
  }

  lemma ChangeExplained(key: Bytes, s: Stored, p: Put)
    requires TableOk(p.env.services) && Current(p.env, Some(s), key).Some?
    ensures AfterPut(key, Some(s), p).Some?
    ensures var s' := AfterPut(key, Some(s), p).value;
            OwnerOf(s') == OwnerOf(s) ||
            (InnerKey(key).Some? && Explained(p.env, InnerKey(key).value, RecOf(s), RecOf(s')))
  {
    hide Select, CheckOwner, Validate, InnerKey, DecodeRecord, BackedByTransfer, BackedByService, ReceiptReadable;
    if PutOutcome(p.env, Some(s), key, p.value).None? && Current(p.env, Some(s), key) != Some(p.value) {
      AcceptedReplacement(p.env, key, s, p.value);
      var was, now := RecOf(s), RecOf(Wrapped(key, p.value));
      CheckOwnerExact(p.env, InnerKey(key).value, was, now);
      CheckOwnerExact(p.env, InnerKey(key).value, now, was);
    }
  }

  /** At the i-th put the entry s is a record in force. */
  ghost predicate InForce(key: Bytes, s: Stored, puts: seq<Put>, i: nat)
    requires PutsOk(puts) && i < |puts|
  {
    assert puts[i] in puts;
    Current(puts[i].env, Some(s), key).Some?
  }

  /** Along every run of puts, whatever their Seq and type, a key changes owner only where its record was no
      longer in force, or with the backing that the two records' Seq and types call for. */
  lemma EveryChangeExplained(key: Bytes, s: Stored, puts: seq<Put>, i: nat)
    requires PutsOk(puts) && i < |puts|
    ensures var s0, s1 := At(key, s, puts, i), At(key, s, puts, i + 1);
            || OwnerOf(s1) == OwnerOf(s0)
            || !InForce(key, s0, puts, i)
            || (InnerKey(key).Some? && Explained(puts[i].env, InnerKey(key).value, RecOf(s0), RecOf(s1)))
  {
    hide OwnerOf, Explained, InnerKey, AfterPut, RecOf, Current;
    AtStep(key, s, puts, i);
    assert puts[i] in puts;
    if InForce(key, At(key, s, puts, i), puts, i) {
      ChangeExplained(key, At(key, s, puts, i), puts[i]);
    }
  }

  /** On a tie of Seq the check runs the other way: unless the incoming record is not EOL, and then nothing is
      checked, it is the stored record that must carry the backing, from the incoming owner to the stored one. */
  lemma TieBackedInReverse(env: Env, key: Bytes, s: Stored, value: Bytes)
    requires TableOk(env.services) && PutOutcome(env, Some(s), key, value).None?
    requires Current(env, Some(s), key).Some? && Current(env, Some(s), key).value != value
    requires RecOf(Wrapped(key, value)).seqNo == RecOf(s).seqNo
    requires OwnerOf(Wrapped(key, value)) != OwnerOf(s)
    ensures RecOf(Wrapped(key, value)).validityType != EOL ||
            (InnerKey(key).Some? &&
             Backed(env, InnerKey(key).value, RecOf(Wrapped(key, value)).pubKey, RecOf(s).pubKey, RecOf(s)))
  {
    hide Select, CheckOwner, Validate, InnerKey, DecodeRecord, BackedByTransfer, BackedByService, ReceiptReadable,
         PutOutcome, Current;
    AcceptedReplacement(env, key, s, value);
    CheckOwnerExact(env, InnerKey(key).value, RecOf(Wrapped(key, value)), RecOf(s));
  }

  // ----- a key lost without backing

  const STORED_ON_TIE := RecordVal(1, 0, None, None, EOL, 100, 5, 0, Some([1]), None)
  const INCOMING_ON_TIE := RecordVal(1, 0, None, None, 1, 101, 5, 0, Some([2]), None)

  /** A tag byte and at most ten bytes of varint for each field, besides the contents. */
  lemma RecordBound(r: RecordVal)
    requires |Content(r.value)| < TWO63 && |Content(r.signature)| < TWO63
    requires |Content(r.pubKey)| < TWO63 && |Content(r.data)| < TWO63
    ensures |Encode(Record(r))| <=
            110 + |Content(r.value)| + |Content(r.signature)| + |Content(r.pubKey)| + |Content(r.data)|
  {
    hide U, B, Print, PrintAll, Content, Extend32, UintSize, BytesSize;
    var f10 := B(10, Content(r.data));
    var f9 := B(9, Content(r.pubKey)) + f10;
    var f8 := U(8, r.ttl) + f9;
    var f7 := U(7, r.seqNo) + f8;
    var f6 := U(6, r.validity) + f7;
    var f5 := U(5, Extend32(r.validityType)) + f6;
    var f4 := B(4, Content(r.signature)) + f5;
    var f3 := B(3, Content(r.value)) + f4;
    var f2 := U(2, r.valueType) + f3;
    var none: seq<Field> := [];
    assert f10 + none == f10;
    PrintNothing();
    BytesBound(10, Content(r.data), none);
    BytesBound(9, Content(r.pubKey), f10);
    UintBound(8, r.ttl, f9);
    UintBound(7, r.seqNo, f8);
    UintBound(6, r.validity, f7);
    UintBound(5, Extend32(r.validityType), f6);
    BytesBound(4, Content(r.signature), f5);
    BytesBound(3, Content(r.value), f4);
    UintBound(2, r.valueType, f3);
    UintBound(1, r.version, f2);
  }

  lemma UintBound(n: FieldNo, v: uint64, fs: seq<Field>)
    ensures |PrintAll(U(n, v) + fs)| <= 11 + |PrintAll(fs)|
  {
    hide U, Print, PrintAll, Sov, EncVarint;
    SizeU(n, v, fs);
    SovIsLength(v);
    EncLength64(v);
  }

  lemma BytesBound(n: FieldNo, p: Bytes, fs: seq<Field>)
    requires |p| < TWO63
    ensures |PrintAll(B(n, p) + fs)| <= 11 + |p| + |PrintAll(fs)|
  {
    hide B, Print, PrintAll, Sov, EncVarint;
    SizeB(n, p, fs);
    SovIsLength(|p|);
    EncLength64(|p|);
  }

  /** A record of raw type with a public key and nothing else to sign is in force until it expires. */
  lemma BareRecordInForce(env: Env, key: Bytes, r: RecordVal)
    requires TableOk(env.services) && key != [] && key[0] == SLASH
    requires env.verify(Content(r.pubKey), RecordSignData(key, None, r.pubKey, r.validity, 0), [])
    requires r == RecordVal(1, 0, None, None, r.validityType, r.validity, r.seqNo, 0, r.pubKey, None)
    requires r.pubKey.Some? && 0 < |r.pubKey.value| <= 100 && env.now <= r.validity
    ensures var value := Encode(Record(r));
            && DecodeRecord(Some(value)) == Some(r) && Validate(env, RecordKey(key), value).None?
            && VersionOf(value) == Version(r, value)
  {
    hide Print, PrintAll, Parse, InnerKey, RecordKey, RecordSignData, RecordFields;
    assert Norm(Record(r)) == Record(r);
    RecordBound(r);
    UnmarshalMarshal(Record(r));
    InnerOfRecordKey(key);
  }

  /** A record of another type than EOL, of the same Seq and a greater Validity, takes a key from its owner with
      no certificate, no receipt and no service, in either direction. */
  lemma TieTakesKey(env: Env, key: Bytes)
    requires env.services == map[] && env.now <= 100 && (forall sn :: !env.approvedService(sn))
    requires env.verify([1], RecordSignData(key, None, Some([1]), 100, 0), [])
    requires env.verify([2], RecordSignData(key, None, Some([2]), 101, 0), [])
    requires key != [] && key[0] == SLASH
    ensures var k, was, now := RecordKey(key), STORED_ON_TIE, INCOMING_ON_TIE;
            && AfterPut(k, Some(Wrapped(k, Encode(Record(was)))), Put(env, Encode(Record(now)))) ==
               Some(Wrapped(k, Encode(Record(now))))
            && OwnerOf(Wrapped(k, Encode(Record(was)))) == [1] && OwnerOf(Wrapped(k, Encode(Record(now)))) == [2]
            && !Backed(env, key, was.pubKey, now.pubKey, now) && !Backed(env, key, now.pubKey, was.pubKey, was)
  {
    hide Encode, Validate, InnerKey, RecordKey, DecodeRecord, CheckOwner, Split, PutOutcome, RecordSignData;
    BareRecordInForce(env, key, STORED_ON_TIE);
    BareRecordInForce(env, key, INCOMING_ON_TIE);
    InnerOfRecordKey(key);
    var k, was, now := RecordKey(key), Encode(Record(STORED_ON_TIE)), Encode(Record(INCOMING_ON_TIE));
    PutExact(env, k, Wrapped(k, was), now);
  }

  // ----- convergence

  function VersionOf(value: Bytes): Version {
    Version(RecOf(Wrapped([], value)), value)
  }

  /** A pool of record byte strings of one owner, all in force under a key. */
  ghost predicate Pool(key: Bytes, pool: set<Bytes>, env: Env) {
    && TableOk(env.services)
    && (forall v | v in pool :: Validate(env, key, v).None?)
    && (forall v, w | v in pool && w in pool :: Content(VersionOf(v).rec.pubKey) == Content(VersionOf(w).rec.pubKey))
  }

  /** Between two records of one owner the store keeps the greater. */
  lemma SameOwnerPut(key: Bytes, pool: set<Bytes>, stored: Bytes, p: Put)
    requires Pool(key, pool, p.env) && stored in pool && p.value in pool
    ensures AfterPut(key, Some(Wrapped(key, stored)), p) ==
            Some(Wrapped(key, if CompareVersions(VersionOf(p.value), VersionOf(stored)) >= 0 then p.value else stored))
    ensures IsVersion(VersionOf(p.value)) && IsVersion(VersionOf(stored))
  {
    hide ValidateRecord, InnerKey, Compare, CompareBytes, DecodeRecord, Select, CarriedPrepare, IsServiceColleague;
    assert Current(p.env, Some(Wrapped(key, stored)), key) == Some(stored);
    SelectTwo(p.env, key, p.value, stored);
    VersionOrderTotal(VersionOf(p.value), VersionOf(stored), VersionOf(stored));
  }

  /** Over an entry that reads as absent any record of the pool is stored. */
  lemma FirstPut(key: Bytes, pool: set<Bytes>, s: Option<Stored>, p: Put)
    requires Pool(key, pool, p.env) && p.value in pool && Current(p.env, s, key).None?
    ensures AfterPut(key, s, p) == Some(Wrapped(key, p.value)) && IsVersion(VersionOf(p.value))
  {
    hide ValidateRecord, InnerKey, DecodeRecord, Select;
  }

  ghost predicate AllInForce(key: Bytes, pool: set<Bytes>, puts: seq<Put>) {
    forall p | p in puts :: Pool(key, pool, p.env) && p.value in pool
  }

  ghost predicate Delivered(v: Bytes, puts: seq<Put>) {
    exists p :: p in puts && p.value == v
  }

  ghost predicate IsGreatest(best: Bytes, puts: seq<Put>) {
    && Delivered(best, puts)
    && (forall p | p in puts :: CompareVersions(VersionOf(p.value), VersionOf(best)) <= 0)
  }

  /** The run starts from nothing: no entry, or one that is corrupt, misfiled or no longer in force. */
  ghost predicate StartsAbsent(key: Bytes, s: Option<Stored>, puts: seq<Put>)
    requires PutsOk(puts)
  {
    puts != [] ==> assert puts[0] in puts; Current(puts[0].env, s, key).None?
  }

  lemma {:induction false} FreshKeepsGreatest(key: Bytes, pool: set<Bytes>, s: Option<Stored>, puts: seq<Put>)
    returns (best: Bytes)
    requires puts != [] && PutsOk(puts) && AllInForce(key, pool, puts) && StartsAbsent(key, s, puts)
    ensures After(key, s, puts) == Some(Wrapped(key, best)) && best in pool && IsGreatest(best, puts)
    decreases |puts|
  {
    hide AfterPut, CompareVersions, Pool, VersionOf, IsVersion, Current;
    var n := |puts| - 1;
    var p := puts[n];
    assert p in puts;
    if n == 0 {
      assert puts[..0] == [];
      FirstPut(key, pool, s, p);
      VersionOrderTotal(VersionOf(p.value), VersionOf(p.value), VersionOf(p.value));
      best := p.value;
    } else {
      var front := puts[..n];
      assert forall q | q in front :: q in puts;
      var b := FreshKeepsGreatest(key, pool, s, front);
      SameOwnerPut(key, pool, b, p);
      best := if CompareVersions(VersionOf(p.value), VersionOf(b)) >= 0 then p.value else b;
      VersionOrderTotal(VersionOf(p.value), VersionOf(b), VersionOf(b));
      VersionOrderTotal(VersionOf(p.value), VersionOf(p.value), VersionOf(b));
      forall q | q in puts
        ensures CompareVersions(VersionOf(q.value), VersionOf(best)) <= 0
      {
        var k :| 0 <= k < |puts| && puts[k] == q;
        if k < n {
          assert front[k] == q;
          InPool(key, pool, q);
          VersionOrderTotal(VersionOf(q.value), VersionOf(b), VersionOf(p.value));
        }
      }
    }
  }

  lemma InPool(key: Bytes, pool: set<Bytes>, p: Put)
    requires Pool(key, pool, p.env) && p.value in pool
    ensures IsVersion(VersionOf(p.value))
  {
    FirstPut(key, pool, None, p);
  }

  /** What a run has to choose from: the puts, and before them the record in force that the first of them met. */
  ghost function Offered(key: Bytes, s: Option<Stored>, puts: seq<Put>): seq<Put>
    requires PutsOk(puts)
  {
    if puts == [] then []
    else
      assert puts[0] in puts;
      var standing := Current(puts[0].env, s, key);
      if standing.None? then puts else [Put(puts[0].env, standing.value)] + puts
  }

  lemma {:induction false} AfterMore(key: Bytes, s: Option<Stored>, a: seq<Put>, b: seq<Put>)
    requires PutsOk(a) && PutsOk(b)
    ensures PutsOk(a + b) && After(key, s, a + b) == After(key, After(key, s, a), b)
    decreases |b|
  {
    hide AfterPut, TableOk;
    if b == [] {
      assert a + b == a;
    } else {
      var n := |b| - 1;
      assert (a + b)[..|a + b| - 1] == a + b[..n];
      AfterMore(key, s, a, b[..n]);
    }
  }

  /** A run over a record of the pool in force is one over nothing that has put that record first. */
  lemma OfferedFirst(key: Bytes, pool: set<Bytes>, s: Option<Stored>, puts: seq<Put>)
    requires puts != [] && PutsOk(puts) && AllInForce(key, pool, Offered(key, s, puts))
    requires puts[0] in puts && Current(puts[0].env, s, key).Some?
    ensures PutsOk(Offered(key, s, puts)) && After(key, None, Offered(key, s, puts)) == After(key, s, puts)
  {
    var p := Put(puts[0].env, Current(puts[0].env, s, key).value);
    assert s == Some(Wrapped(key, p.value));
    hide AfterPut, TableOk, Current, Pool;
    assert Offered(key, s, puts) == [p] + puts && p in [p] + puts;
    FirstPut(key, pool, None, p);
    assert [p][..0] == [];
    assert After(key, None, [p]) == s;
    AfterMore(key, None, [p], puts);
  }

  /** Whatever the order and the repetitions, and whether or not a record was in force before, the store ends with
      the greatest of those offered. */
  lemma StoreKeepsGreatest(key: Bytes, pool: set<Bytes>, s: Option<Stored>, puts: seq<Put>) returns (best: Bytes)
    requires puts != [] && PutsOk(puts) && AllInForce(key, pool, Offered(key, s, puts))
    ensures After(key, s, puts) == Some(Wrapped(key, best)) && best in pool
    ensures IsGreatest(best, Offered(key, s, puts))
  {
    hide After, IsGreatest, AllInForce, Current, TableOk;
    assert puts[0] in puts;
    if Current(puts[0].env, s, key).None? {
      best := FreshKeepsGreatest(key, pool, s, puts);
    } else {
      OfferedFirst(key, pool, s, puts);
      NoneIsAbsent(key, Offered(key, s, puts));
      best := FreshKeepsGreatest(key, pool, None, Offered(key, s, puts));
    }
  }

  lemma NoneIsAbsent(key: Bytes, puts: seq<Put>)
    requires PutsOk(puts)
    ensures StartsAbsent(key, None, puts)
  {
  }

  /** Replica convergence: two replicas that are offered the same records, in any order and any number of times and
      whichever of them they had in force before, store the same bytes. */
  lemma ReplicasConverge(key: Bytes, pool: set<Bytes>, s1: Option<Stored>, puts1: seq<Put>,
                         s2: Option<Stored>, puts2: seq<Put>)
    requires PutsOk(puts1) && AllInForce(key, pool, Offered(key, s1, puts1))
    requires PutsOk(puts2) && AllInForce(key, pool, Offered(key, s2, puts2))
    requires forall v: Bytes :: Delivered(v, Offered(key, s1, puts1)) <==> Delivered(v, Offered(key, s2, puts2))
    ensures puts1 != [] || s1 == s2 ==> After(key, s1, puts1) == After(key, s2, puts2)
  {
    hide AfterPut, CompareVersions, Pool, VersionOf, IsVersion, Offered;
    OfferedSome(key, s1, puts1);
    OfferedSome(key, s2, puts2);
    var all1, all2 := Offered(key, s1, puts1), Offered(key, s2, puts2);
    if all1 != [] { assert Delivered(all1[0].value, all1); }
    if all2 != [] { assert Delivered(all2[0].value, all2); }
    if puts1 != [] && puts2 != [] {
      var b1 := StoreKeepsGreatest(key, pool, s1, puts1);
      var b2 := StoreKeepsGreatest(key, pool, s2, puts2);
      hide After;
      SameGreatest(key, pool, all1, all2, b1, b2);
    }
  }

  lemma OfferedSome(key: Bytes, s: Option<Stored>, puts: seq<Put>)
    requires PutsOk(puts)
    ensures Offered(key, s, puts) == [] <==> puts == []
  {
  }

  lemma SameGreatest(key: Bytes, pool: set<Bytes>, puts1: seq<Put>, puts2: seq<Put>, b1: Bytes, b2: Bytes)
    requires AllInForce(key, pool, puts1) && AllInForce(key, pool, puts2)
    requires forall v: Bytes :: Delivered(v, puts1) <==> Delivered(v, puts2)
    requires IsGreatest(b1, puts1) && IsGreatest(b2, puts2)
    ensures b1 == b2
  {
    hide CompareVersions, Pool, VersionOf, IsVersion;
    var p1 :| p1 in puts1 && p1.value == b1;
    var p2 :| p2 in puts2 && p2.value == b2;
    var q1 :| q1 in puts2 && q1.value == b1;
    var q2 :| q2 in puts1 && q2.value == b2;
    InPool(key, pool, p1);
    InPool(key, pool, p2);
    VersionOrderTotal(VersionOf(b1), VersionOf(b2), VersionOf(b2));
    SameVersion(b1, b2);
  }

  lemma SameVersion(v: Bytes, w: Bytes)
    requires VersionOf(v) == VersionOf(w)
    ensures v == w
  {
  }
}
