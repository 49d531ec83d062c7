/** Which of two records is the newer, said on their fields and bytes, and that selection and the local put go by
    it: Compare of dkvs/dkvs_record.go, selectRecord of dkvs/record.go, putKeyToLocalNode of dkvs/dht.go. */
module VersionOrder {
  import opened GoTypes
  import opened Messages
  import opened Services
  import opened Certs
  import opened Records
  import opened LocalStore

  /** The byte strings agree up to some place where the first ends or has the smaller byte. */
  ghost predicate BytesBelow(a: Bytes, b: Bytes) {
    exists k :: DifferAt(a, b, k)
  }

  predicate DifferAt(a: Bytes, b: Bytes, k: nat) {
    k <= |a| && k < |b| && a[..k] == b[..k] && (k == |a| || a[k] < b[k])
  }

  /** A greater Seq, or of equal Seq a greater Validity, or of equal both the greater bytes. */
  ghost predicate Newer(r: RecordVal, v: Bytes, s: RecordVal, w: Bytes) {
    || r.seqNo > s.seqNo
    || (r.seqNo == s.seqNo && r.validity > s.validity)
    || (r.seqNo == s.seqNo && r.validity == s.validity && BytesBelow(w, v))
  }

  lemma {:induction false} CompareBytesExactly(a: Bytes, b: Bytes)
    ensures CompareBytes(a, b) < 0 <==> BytesBelow(a, b)
    ensures CompareBytes(a, b) > 0 <==> BytesBelow(b, a)
  {
    if a != [] && b != [] && a[0] == b[0] {
      CompareBytesExactly(a[1..], b[1..]);
      BelowTail(a, b);
      BelowTail(b, a);
    } else {
      if k: nat :| DifferAt(a, b, k) && k > 0 { SameFirst(a, b, k); }
      if k: nat :| DifferAt(b, a, k) && k > 0 { SameFirst(b, a, k); }
      if a == [] && b != [] { assert DifferAt(a, b, 0); }
      if b == [] && a != [] { assert DifferAt(b, a, 0); }
      if a != [] && b != [] {
        assert a[0] < b[0] ==> DifferAt(a, b, 0);
        assert b[0] < a[0] ==> DifferAt(b, a, 0);
      }
    }
  }

  lemma SameFirst(a: Bytes, b: Bytes, k: nat)
    requires DifferAt(a, b, k) && k > 0
    ensures a != [] && b != [] && a[0] == b[0]
  {
    assert a[..k][0] == b[..k][0];
  }

  lemma BelowTail(a: Bytes, b: Bytes)
    requires a != [] && b != [] && a[0] == b[0]
    ensures BytesBelow(a, b) <==> BytesBelow(a[1..], b[1..])
  {
    if k: nat :| DifferAt(a, b, k) {
      assert k > 0;
      assert a[1..][..k - 1] == a[..k][1..] && b[1..][..k - 1] == b[..k][1..];
      assert DifferAt(a[1..], b[1..], k - 1);
    }
    if k: nat :| DifferAt(a[1..], b[1..], k) {
      assert a[..k + 1] == [a[0]] + a[1..][..k] && b[..k + 1] == [b[0]] + b[1..][..k];
      assert DifferAt(a, b, k + 1);
    }
  }

  lemma VersionsExactly(a: Version, b: Version)
    ensures CompareVersions(a, b) < 0 <==> Newer(b.rec, b.bytes, a.rec, a.bytes)
    ensures CompareVersions(a, b) > 0 <==> Newer(a.rec, a.bytes, b.rec, b.bytes)
  {
    CompareBytesExactly(a.bytes, b.bytes);
    hide CompareBytes, BytesBelow;
  }

  /** Of two records whose owners agree, or of which the check of owners lets one follow the other, selection takes the
      newer, wherever it stands. */
  lemma SelectsNewer(env: Env, fullkey: Bytes, v: Bytes, r: RecordVal, w: Bytes, s: RecordVal)
    requires DecodeRecord(Some(v)) == Some(r) && DecodeRecord(Some(w)) == Some(s) && Newer(r, v, s, w)
    ensures Select(env, fullkey, [v, w]).Success? ==> Select(env, fullkey, [v, w]) == Success(0)
    ensures Select(env, fullkey, [w, v]).Success? ==> Select(env, fullkey, [w, v]) == Success(1)
    ensures InnerKey(fullkey).Some? && Content(r.pubKey) == Content(s.pubKey) ==>
              Select(env, fullkey, [v, w]) == Success(0) && Select(env, fullkey, [w, v]) == Success(1)
  {
    hide DecodeRecord, InnerKey, CompareVersions, Newer;
    SelectTwo(env, fullkey, v, w);
    SelectTwo(env, fullkey, w, v);
    VersionsExactly(Version(r, v), Version(s, w));
    VersionsExactly(Version(s, w), Version(r, v));
    VersionOrderTotal(Version(r, v), Version(s, w), Version(r, v));
    SameOwnerPasses(env, fullkey, v, r, w, s);
    SameOwnerPasses(env, fullkey, w, s, v, r);
    hide Select, VerifyPubKey;
  }

  lemma SameOwnerPasses(env: Env, fullkey: Bytes, v: Bytes, r: RecordVal, w: Bytes, s: RecordVal)
    requires DecodeRecord(Some(v)) == Some(r) && DecodeRecord(Some(w)) == Some(s)
    ensures Content(r.pubKey) == Content(s.pubKey) && InnerKey(fullkey).Some? ==>
              VerifyPubKey(env, InnerKey(fullkey).value, v, w).None?
  {
    hide DecodeRecord, InnerKey;
  }

  /** Of two valid records of one owner the newer is stored, whichever is put over the other. */
  lemma PutKeepsNewer(env: Env, key: Bytes, v: Bytes, r: RecordVal, w: Bytes, s: RecordVal)
    requires TableOk(env.services) && Validate(env, key, v).None? && Validate(env, key, w).None?
    requires DecodeRecord(Some(v)) == Some(r) && DecodeRecord(Some(w)) == Some(s) && Newer(r, v, s, w)
    requires Content(r.pubKey) == Content(s.pubKey)
    ensures AfterPut(key, Some(Wrapped(key, w)), Put(env, v)) == Some(Wrapped(key, v))
    ensures AfterPut(key, Some(Wrapped(key, v)), Put(env, w)) == Some(Wrapped(key, v))
  {
    NotNewerThanItself(r, v);
    assert InnerKey(key).Some?;
    hide Validate, Select, DecodeRecord, Newer, InnerKey;
    SelectsNewer(env, key, v, r, w, s);
  }

  lemma NotNewerThanItself(r: RecordVal, v: Bytes)
    ensures !Newer(r, v, r, v)
  {
  }

  /** Of any number of values whose selection succeeds, no other is newer than the one selected, and none before it is
      the same. */
  lemma SelectsNewest(env: Env, fullkey: Bytes, vals: seq<Bytes>, j: nat)
    requires |vals| >= 2 && Select(env, fullkey, vals).Success? && j < |vals|
    ensures var i := Select(env, fullkey, vals).value;
            && i < |vals| && DecodeRecord(Some(vals[i])).Some? && DecodeRecord(Some(vals[j])).Some?
            && !Newer(DecodeRecord(Some(vals[j])).value, vals[j], DecodeRecord(Some(vals[i])).value, vals[i])
            && (j < i ==> vals[j] != vals[i])
  {
    hide DecodeRecord, InnerKey, VerifyPubKey, CompareVersions, Newer;
    VersionsOf(vals);
    var vs := Versions(vals).value;
    assert forall v | v in vs :: IsVersion(v);
    BestIndexIsMax(vs);
    VersionsExactly(vs[j], vs[BestIndex(vs)]);
  }

  lemma {:induction false} VersionsOf(vals: seq<Bytes>)
    ensures Versions(vals).Some? ==>
              && |Versions(vals).value| == |vals|
              && forall i | 0 <= i < |vals| ::
                   Versions(vals).value[i].bytes == vals[i] &&
                   DecodeRecord(Some(vals[i])) == Some(Versions(vals).value[i].rec)
  {
    hide DecodeRecord;
    if vals != [] {
      VersionsOf(vals[1..]);
    }
  }
}
