/** DKVS records: what is signed, the order of versions, validation and selection (dkvs/record.go,
    dkvs/dkvs_record.go, and GetRecordSignData of dkvs/dkvs.go). */
module Records {
  import opened GoTypes
  import opened GoStrings
  import opened Messages
  import opened Marshal
  import opened Services
  import opened Certs

  datatype DkvsError =
    | InvalidPath
    | BadRecord
    | RecordSize
    | SignatureError
    | Expired
    | PublicKeyMismatch
    | DifferentPublicKey
    | BadCert
    | NoRecords
    | NotNewer
    | TransferFailed
    | StoreError

  datatype Result<+T> = Success(value: T) | Failure(error: DkvsError)

  const EOL: int32 := 0
  const MAX_RECORD_SIZE := 10240

  function DecodeRecord(value: Slice): Option<RecordVal> {
    match Parse(Record(EMPTY_RECORD), Content(value), 0)
    case Parsed(m) => Some(m.rec)
    case ParseErr(_) => None
  }

  // ----- what a record's signature covers

  /** k little-endian bytes. */
  function LittleEndian(x: nat, k: nat): (bs: Bytes)
    ensures |bs| == k
  {
    if k == 0 then [] else [x % 256] + LittleEndian(x / 256, k - 1)
  }

  function FromLittleEndian(bs: Bytes): nat {
    if bs == [] then 0 else bs[0] + 256 * FromLittleEndian(bs[1..])
  }

  function RecordSignData(key: Bytes, val: Slice, pubkey: Slice, issuetime: uint64, ttl: uint64): Bytes {
    key + (Content(val) + (Content(pubkey) + (LittleEndian(issuetime, 8) + LittleEndian(ttl, 8))))
  }

  method GetRecordSignData(key: Bytes, val: Slice, pubkey: Slice, issuetime: uint64, ttl: uint64)
    returns (sigData: array<byte>)
    ensures fresh(sigData) && sigData[..] == RecordSignData(key, val, pubkey, issuetime, ttl)
  {
    hide LittleEndian;
    var v, p := Content(val), Content(pubkey);
    hide Content;
    sigData := new byte[|key| + |v| + |p| + 16](_ => 0);
    var i := 0;
    i := AppendAt(sigData, i, key);
    i := AppendAt(sigData, i, v);
    i := AppendAt(sigData, i, p);
    i := AppendAt(sigData, i, LittleEndian(issuetime, 8));
    i := AppendAt(sigData, i, LittleEndian(ttl, 8));
    assert sigData[..i] == sigData[..];
    Regroup(key, v, p, LittleEndian(issuetime, 8), LittleEndian(ttl, 8));
  }

  lemma Regroup(a: Bytes, b: Bytes, c: Bytes, d: Bytes, e: Bytes)
    ensures a + b + c + d + e == a + (b + (c + (d + e)))
  {
    assert a + b + c == a + (b + c);
    assert a + (b + c) + d == a + (b + c + d);
    assert b + c + d == b + (c + d);
    assert a + (b + (c + d)) + e == a + (b + (c + d) + e);
    assert b + (c + d) + e == b + (c + d + e);
    assert c + d + e == c + (d + e);
  }

  /** Where the parts of five concatenated strings stand, the last two being of length 8. */
  lemma PartsAt(a: Bytes, b: Bytes, c: Bytes, d: Bytes, e: Bytes, s: Bytes)
    requires s == a + (b + (c + (d + e))) && |d| == |e| == 8
    ensures |s| == |a| + |b| + |c| + 16
    ensures s[|a|..|s| - 16 - |c|] == b && s[|s| - 16..|s| - 8] == d && s[|s| - 8..] == e
  {
    assert s[|a|..] == b + (c + (d + e));
    assert s[|a| + |b|..] == c + (d + e);
    assert s[|a| + |b| + |c|..] == d + e;
  }

  /** Copies p in at i and moves past it. */
  method AppendAt(sigData: array<byte>, i: nat, p: Bytes) returns (j: nat)
    requires i + |p| <= sigData.Length
    modifies sigData
    ensures j == i + |p| && sigData[..j] == old(sigData[..i]) + p
  {
    Copy(sigData, i, p);
    j := i + |p|;
    assert sigData[..j] == sigData[..][..j];
  }

  lemma {:induction false} LittleEndianRoundTrip(x: nat, k: nat, bound: nat)
    requires x < bound && bound == Pow256(k)
    ensures FromLittleEndian(LittleEndian(x, k)) == x
  {
    if k > 0 {
      assert LittleEndian(x, k)[1..] == LittleEndian(x / 256, k - 1);
      LittleEndianRoundTrip(x / 256, k - 1, Pow256(k - 1));
    }
  }

  function Pow256(k: nat): nat {
    if k == 0 then 1 else 256 * Pow256(k - 1)
  }

  lemma LittleEndian64(x: uint64)
    ensures FromLittleEndian(LittleEndian(x, 8)) == x
  {
    assert Pow256(4) == 0x1_0000_0000;
    assert Pow256(8) == TWO64;
    LittleEndianRoundTrip(x, 8, TWO64);
  }

  /** For a fixed key and public key the signed bytes determine value, issue time and time to live. */
  lemma SignDataDetermines(key: Bytes, pubkey: Slice, v1: Slice, i1: uint64, t1: uint64, v2: Slice, i2: uint64,
                           t2: uint64)
    requires RecordSignData(key, v1, pubkey, i1, t1) == RecordSignData(key, v2, pubkey, i2, t2)
    ensures Content(v1) == Content(v2) && i1 == i2 && t1 == t2
  {
    hide LittleEndian, FromLittleEndian;
    var s := RecordSignData(key, v1, pubkey, i1, t1);
    PartsAt(key, Content(v1), Content(pubkey), LittleEndian(i1, 8), LittleEndian(t1, 8), s);
    PartsAt(key, Content(v2), Content(pubkey), LittleEndian(i2, 8), LittleEndian(t2, 8), s);
    LittleEndian64(i1);
    LittleEndian64(i2);
    LittleEndian64(t1);
    LittleEndian64(t2);
  }

  // ----- building records

  /** CreateRecordWithType, given the sequence number TimestampSeq returned. */
  function CreateRecord(val: Slice, pk: Slice, issuetime: uint64, ttl: uint64, sig: Slice, vt: uint32,
                        seqNo: uint64): RecordVal {
    RecordVal(1, vt, val, sig, EOL, Add64(issuetime, ttl), seqNo, ttl, pk, None)
  }

  /** The issue time read back off a record, Validity - Ttl, is the one supplied, wrap-around included. */
  lemma IssueTimeRecovered(val: Slice, pk: Slice, issuetime: uint64, ttl: uint64, sig: Slice, vt: uint32, seqNo: uint64)
    ensures var r := CreateRecord(val, pk, issuetime, ttl, sig, vt, seqNo);
            Sub64(r.validity, r.ttl) == issuetime
  {
    assert (issuetime + ttl) % TWO64 == issuetime + ttl || (issuetime + ttl) % TWO64 == issuetime + ttl - TWO64;
  }

  /** The process-wide clock behind TimestampSeq. */
  class SeqClock {
    var lastTimestamp: uint64

    constructor ()
      ensures lastTimestamp == 0
    {
      lastTimestamp := 0;
    }

    /** Strictly increasing whatever the wall clock does, until uint64 is exhausted. */
    method TimestampSeq(wallClock: uint64) returns (now: uint64)
      modifies this
      ensures lastTimestamp == now
      ensures old(lastTimestamp) < TWO64 - 1 ==> now > old(lastTimestamp)
      ensures now == wallClock || (wallClock <= old(lastTimestamp) && now == Add64(old(lastTimestamp), 1))
    {
      now := wallClock;
      if now <= lastTimestamp {
        now := Add64(lastTimestamp, 1);
      }
      lastTimestamp := now;
    }
  }

  // ----- validation

  function ValidateValue(env: Env, key: Bytes, val: Slice, pubKey: Slice, issuetime: uint64, ttl: uint64, sig: Slice,
                         valueType: int): Option<DkvsError>
    requires key != [] && TableOk(env.services)
  {
    if pubKey.None? then Some(SignatureError)
    else if !env.verify(Content(pubKey), RecordSignData(key, val, pubKey, issuetime, ttl), Content(sig)) then
      Some(SignatureError)
    else if valueType == 1 && IsGunName(key) && !VerifyGunRecordValue(env, key, val, issuetime, ttl) then
      Some(SignatureError)
    else if valueType !in {0, 1} then Some(SignatureError)
    else None
  }

  function ValidateRecord(env: Env, key: Bytes, r: RecordVal): Option<DkvsError>
    requires key != [] && TableOk(env.services)
  {
    if |Encode(Record(r))| > MAX_RECORD_SIZE then Some(RecordSize)
    else if r.pubKey.None? then Some(SignatureError)
    else
      var v := ValidateValue(env, key, r.value, r.pubKey, Sub64(r.validity, r.ttl), r.ttl, r.signature, r.valueType);
      if v.Some? then v
      else if r.validityType == EOL && env.now > r.validity then Some(Expired)
      else None
  }

  /** The first place of c in s, or the length of s. */
  function IndexByte(s: Bytes, c: byte): (i: nat)
    ensures i <= |s| && c !in s[..i] && (i < |s| ==> s[i] == c)
  {
    if s == [] || s[0] == c then 0
    else
      assert s[..IndexByte(s[1..], c) + 1][1..] == s[1..][..IndexByte(s[1..], c)];
      1 + IndexByte(s[1..], c)
  }

  lemma {:induction false} IndexByteIs(s: Bytes, c: byte, k: nat)
    requires k < |s| && s[k] == c && c !in s[..k]
    ensures IndexByte(s, c) == k
  {
    if k > 0 {
      assert s[..k][0] == s[0] && s[..k][1..] == s[1..][..k - 1];
      IndexByteIs(s[1..], c, k - 1);
    }
  }

  /** record.SplitKey: "/ns/rest" to (ns, rest). */
  function SplitKey(key: Bytes): Option<(Bytes, Bytes)> {
    if key == [] || key[0] != SLASH then None
    else
      var i := IndexByte(key[1..], SLASH);
      if i == 0 || i == |key| - 1 then None else Some((key[1..][..i], key[1..][i + 1..]))
  }

  function Namespace(): Bytes { Ascii("dkvs") }

  /** The key a record is stored and validated under. */
  function RecordKey(key: Bytes): Bytes {
    [SLASH] + Namespace() + key
  }

  /** The inner key of a full key in the dkvs namespace. */
  function InnerKey(fullkey: Bytes): (k: Option<Bytes>)
    ensures k.Some? ==> k.value != [] && k.value[0] == SLASH
  {
    var split := SplitKey(fullkey);
    if split.None? || split.value.0 != Namespace() then None else Some([SLASH] + split.value.1)
  }

  lemma InnerOfRecordKey(key: Bytes)
    requires key != [] && key[0] == SLASH
    ensures InnerKey(RecordKey(key)) == Some(key)
  {
    var ns, tail := Namespace(), RecordKey(key)[1..];
    assert ns == [100, 107, 118, 115];
    assert tail == ns + key;
    assert tail[4] == SLASH && tail[..4] == ns;
    IndexByteIs(tail, SLASH, 4);
    assert tail[..4] == ns && [SLASH] + tail[5..] == key;
  }

  /** Validator.Validate */
  function Validate(env: Env, fullkey: Bytes, value: Bytes): Option<DkvsError>
    requires TableOk(env.services)
  {
    var key := InnerKey(fullkey);
    if key.None? then Some(InvalidPath)
    else
      var entry := DecodeRecord(Some(value));
      if entry.None? then Some(BadRecord) else ValidateRecord(env, key.value, entry.value)
  }

  // ----- the order of versions

  /** bytes.Compare */
  function CompareBytes(a: Bytes, b: Bytes): int {
    if a == [] then (if b == [] then 0 else -1)
    else if b == [] then 1
    else if a[0] < b[0] then -1
    else if a[0] > b[0] then 1
    else CompareBytes(a[1..], b[1..])
  }

  function Compare(a: RecordVal, b: RecordVal): int {
    if a.seqNo > b.seqNo then 1
    else if a.seqNo < b.seqNo then -1
    else if a.validity > b.validity then 1
    else if a.validity < b.validity then -1
    else 0
  }

  /** A stored value together with the record it decodes to. */
  datatype Version = Version(rec: RecordVal, bytes: Bytes)

  /** The record order, with ties broken on the serialized bytes. */
  function CompareVersions(a: Version, b: Version): int {
    var cmp := Compare(a.rec, b.rec);
    if cmp == 0 then CompareBytes(a.bytes, b.bytes) else cmp
  }

  /** Decoding makes the record a function of the bytes. */
  ghost predicate IsVersion(v: Version) {
    DecodeRecord(Some(v.bytes)) == Some(v.rec)
  }

  lemma {:induction false} CompareBytesOrder(a: Bytes, b: Bytes)
    ensures CompareBytes(a, b) in {-1, 0, 1} && CompareBytes(b, a) == -CompareBytes(a, b)
    ensures CompareBytes(a, b) == 0 <==> a == b
  {
    if a != [] && b != [] && a[0] == b[0] {
      CompareBytesOrder(a[1..], b[1..]);
      assert a == [a[0]] + a[1..] && b == [b[0]] + b[1..];
    }
  }

  lemma {:induction false} CompareBytesTransitive(a: Bytes, b: Bytes, c: Bytes)
    requires CompareBytes(a, b) <= 0 && CompareBytes(b, c) <= 0
    ensures CompareBytes(a, c) <= 0
  {
    if a != [] && b != [] && c != [] && a[0] == b[0] == c[0] {
      CompareBytesTransitive(a[1..], b[1..], c[1..]);
    }
  }

  /** (Seq, Validity, bytes) is a total order on the byte strings of records. */
  lemma VersionOrderTotal(a: Version, b: Version, c: Version)
    requires IsVersion(a) && IsVersion(b)
    ensures CompareVersions(b, a) == -CompareVersions(a, b)
    ensures CompareVersions(a, b) == 0 <==> a == b
    ensures CompareVersions(a, b) <= 0 && CompareVersions(b, c) <= 0 ==> CompareVersions(a, c) <= 0
  {
    CompareBytesOrder(a.bytes, b.bytes);
    CompareBytesOrder(b.bytes, c.bytes);
    CompareBytesOrder(a.bytes, c.bytes);
    if CompareBytes(a.bytes, b.bytes) <= 0 && CompareBytes(b.bytes, c.bytes) <= 0 {
      CompareBytesTransitive(a.bytes, b.bytes, c.bytes);
    }
  }

  // ----- selection

  function BestIndex(vs: seq<Version>): (i: nat)
    requires vs != []
    ensures i < |vs|
  {
    if |vs| == 1 then 0
    else
      var i := BestIndex(vs[..|vs| - 1]);
      if CompareVersions(vs[i], vs[|vs| - 1]) < 0 then |vs| - 1 else i
  }

  /** The loop of selectRecord. */
  method SelectRecord(vs: seq<Version>) returns (r: Result<nat>)
    ensures vs == [] ==> r == Failure(NoRecords)
    ensures vs != [] ==> r == Success(BestIndex(vs))
  {
    if |vs| == 0 {
      return Failure(NoRecords);
    }
    if |vs| == 1 {
      return Success(0);
    }
    var i := 0;
    for j := 1 to |vs|
      invariant i == BestIndex(vs[..j])
    {
      assert vs[..j + 1][..j] == vs[..j];
      if CompareVersions(vs[i], vs[j]) < 0 {
        i := j;
      }
    }
    assert vs[..|vs|] == vs;
    return Success(i);
  }

  /** The selected version is a maximum, and the first one. */
  lemma {:induction false} BestIndexIsMax(vs: seq<Version>)
    requires vs != [] && forall v | v in vs :: IsVersion(v)
    ensures forall j | 0 <= j < |vs| :: CompareVersions(vs[j], vs[BestIndex(vs)]) <= 0
    ensures forall j | 0 <= j < BestIndex(vs) :: vs[j] != vs[BestIndex(vs)]
  {
    hide CompareVersions, IsVersion;
    var n := |vs| - 1;
    if n == 0 {
      VersionOrderTotal(vs[0], vs[0], vs[0]);
    } else {
      var front := vs[..n];
      BestIndexIsMax(front);
      var i := BestIndex(front);
      VersionOrderTotal(vs[i], vs[n], vs[n]);
      VersionOrderTotal(vs[n], vs[i], vs[n]);
      VersionOrderTotal(vs[n], vs[n], vs[n]);
      forall j | 0 <= j < n
        ensures CompareVersions(vs[i], vs[n]) < 0 ==> CompareVersions(vs[j], vs[n]) <= 0 && vs[j] != vs[n]
      {
        assert vs[j] == front[j];
        VersionOrderTotal(vs[j], vs[i], vs[n]);
      }
    }
  }

  // ----- ownership

  /** What a transfer record carries in Data: the record prepared by the old owner, nested as bytes. */
  function CarriedPrepare(r: RecordVal): Option<RecordVal> {
    if r.data.Some? then DecodeRecord(r.data) else None
  }

  predicate IsServiceColleague(env: Env, sn: Bytes, oldpk: Slice, newpk: Slice) {
    var b11 := IsPublicServiceNameKey(env.services, sn, oldpk);
    var b21 := IsPublicServiceNameKey(env.services, sn, newpk);
    (IsPublicServiceName(env.services, sn) || env.approvedService(sn)) &&
    ((b11 && b21) ||
     ((env.approvedPubkey(sn, Content(oldpk)) || b11) && (env.approvedPubkey(sn, Content(newpk)) || b21)))
  }

  /** verifyPubKey once the two records have been told apart by Seq. */
  function CheckOwner(env: Env, key: Bytes, oldRec: RecordVal, newRec: RecordVal): Option<DkvsError> {
    if oldRec.validityType != EOL || BytesEqual(newRec.pubKey, oldRec.pubKey) then None
    else if newRec.data.Some? then
      var prepare := CarriedPrepare(newRec);
      if prepare.None? then Some(PublicKeyMismatch)
      else
        var txcert := if prepare.value.data.Some? then DecodeCert(prepare.value.data) else None;
        if prepare.value.data.Some? && txcert.None? then Some(BadCert)
        else if VerifyCertTransferConfirm(env, key, prepare.value.value, txcert, oldRec.pubKey, newRec.pubKey) then None
        else Some(PublicKeyMismatch)
    else
      var subkeys := Split(key, SLASH);
      if |subkeys| < 3 then Some(DifferentPublicKey)
      else if IsServiceColleague(env, subkeys[1], oldRec.pubKey, newRec.pubKey) then None
      else Some(DifferentPublicKey)
  }

  /** verifyPubKey: the record with the greater Seq is the new one; on a tie it is the second. */
  function VerifyPubKey(env: Env, key: Bytes, val1: Bytes, val2: Bytes): Option<DkvsError> {
    var record1, record2 := DecodeRecord(Some(val1)), DecodeRecord(Some(val2));
    if record1.None? || record2.None? then Some(BadRecord)
    else if record1.value.seqNo > record2.value.seqNo then CheckOwner(env, key, record2.value, record1.value)
    else CheckOwner(env, key, record1.value, record2.value)
  }

  function Versions(vals: seq<Bytes>): Option<seq<Version>> {
    if vals == [] then Some([])
    else
      var r, rest := DecodeRecord(Some(vals[0])), Versions(vals[1..]);
      if r.Some? && rest.Some? then Some([Version(r.value, vals[0])] + rest.value) else None
  }

  /** Validator.Select, which compares the owners of the first two values without counting them. */
  function Select(env: Env, fullkey: Bytes, vals: seq<Bytes>): Result<nat>
    requires |vals| >= 2
  {
    var key := InnerKey(fullkey);
    if key.None? then Failure(InvalidPath)
    else
      var owner := VerifyPubKey(env, key.value, vals[0], vals[1]);
      if owner.Some? then Failure(owner.value)
      else
        var vs := Versions(vals);
        if vs.None? then Failure(BadRecord)
        else if vs.value == [] then Failure(NoRecords)
        else Success(BestIndex(vs.value))
  }

  /** Select on two values, as the local store calls it. */
  lemma SelectTwo(env: Env, fullkey: Bytes, v1: Bytes, v2: Bytes)
    ensures InnerKey(fullkey).Some? && VerifyPubKey(env, InnerKey(fullkey).value, v1, v2).None? ==>
              var a := Version(DecodeRecord(Some(v1)).value, v1);
              var b := Version(DecodeRecord(Some(v2)).value, v2);
              Select(env, fullkey, [v1, v2]) == Success(if CompareVersions(a, b) < 0 then 1 else 0)
    ensures InnerKey(fullkey).None? || VerifyPubKey(env, InnerKey(fullkey).value, v1, v2).Some? ==>
              Select(env, fullkey, [v1, v2]).Failure?
  {
    hide CompareVersions, CheckOwner, InnerKey, DecodeRecord;
    var vals := [v1, v2];
    assert vals[1..] == [v2] && [v2][1..] == [];
    if InnerKey(fullkey).Some? && VerifyPubKey(env, InnerKey(fullkey).value, v1, v2).None? {
      var a := Version(DecodeRecord(Some(v1)).value, v1);
      var b := Version(DecodeRecord(Some(v2)).value, v2);
      var none: seq<Version> := [];
      assert Versions([]) == Some(none);
      assert Versions([v2]) == Some([b] + none);
      assert Versions(vals) == Some([a] + ([b] + none));
      assert [a] + ([b] + none) == [a, b];
      assert [a, b][..1] == [a];
    }
  }

  /** A newer record whose owner check passes is selected. */
  lemma SelectNewer(env: Env, fullkey: Bytes, key: Bytes, v1: Bytes, r1: RecordVal, v2: Bytes, r2: RecordVal)
    requires InnerKey(fullkey) == Some(key) && DecodeRecord(Some(v1)) == Some(r1) && DecodeRecord(Some(v2)) == Some(r2)
    requires r1.seqNo > r2.seqNo && CheckOwner(env, key, r2, r1).None?
    ensures Select(env, fullkey, [v1, v2]) == Success(0)
  {
    hide CheckOwner, InnerKey, DecodeRecord, CompareBytes, Select;
    SelectTwo(env, fullkey, v1, v2);
  }
}
