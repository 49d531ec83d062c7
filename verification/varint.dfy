/** Base-128 varints as dkvs/pb/dkvs_record.pb.go reads and writes them. */
module Varint {
  import opened GoTypes

  datatype WireError =
    | IntOverflow
    | UnexpectedEof
    | InvalidLength
    | UnexpectedEndOfGroup
    | IllegalWireType
    | EndGroupForNonGroup
    | IllegalTag
    | WrongWireType

  /** Value (untruncated) and number of bytes of the varint a buffer starts with. */
  datatype ScanResult = Ok(raw: nat, len: nat) | Err(error: WireError)

  /** Scans a varint of which k bytes were already read; the code gives up when shift = 7k reaches 64. */
  function ScanVarint(bs: Bytes, k: nat): (r: ScanResult)
    ensures r.Ok? ==> 0 < r.len <= |bs| && r.len + k <= 10
    decreases |bs|
  {
    if k >= 10 then Err(IntOverflow)
    else if bs == [] then Err(UnexpectedEof)
    else if bs[0] < 128 then Ok(bs[0], 1)
    else match ScanVarint(bs[1..], k + 1)
      case Ok(raw, len) => Ok(bs[0] - 128 + 128 * raw, len + 1)
      case Err(e) => Err(e)
  }

  /** The canonical varint of v. */
  function EncVarint(v: nat): (bs: Bytes)
    ensures bs != []
  {
    if v < 128 then [v] else [v % 128 + 128] + EncVarint(v / 128)
  }

  function Pow128(k: nat): (p: nat)
    ensures p > 0
  {
    if k == 0 then 1 else 128 * Pow128(k - 1)
  }

  function BitLen(x: nat): nat {
    if x == 0 then 0 else 1 + BitLen(x / 2)
  }

  /** The size formula: bits.Len64(x|1), plus six, over seven. */
  function Sov(x: nat): nat {
    (BitLen(if x % 2 == 0 then x + 1 else x) + 6) / 7
  }

  // ----- the size formula counts the bytes written

  lemma {:induction false} BitLenTwice(x: nat)
    requires x >= 2
    ensures BitLen(x) == 2 + BitLen(x / 4)
  {
    assert BitLen(x) == 1 + BitLen(x / 2);
    assert x / 2 / 2 == x / 4;
    assert BitLen(x / 2) == 1 + BitLen(x / 2 / 2);
  }

  lemma {:induction false} BitLenShift7(x: nat)
    requires x >= 128
    ensures BitLen(x) == 7 + BitLen(x / 128)
  {
    BitLenTwice(x);
    BitLenTwice(x / 4);
    BitLenTwice(x / 16);
    assert x / 4 / 4 == x / 16 && x / 16 / 4 == x / 64 && x / 64 / 2 == x / 128;
    assert BitLen(x / 64) == 1 + BitLen(x / 128);
  }

  lemma {:induction false} BitLenSmall(x: nat)
    requires 0 < x < 128
    ensures 1 <= BitLen(x) <= 7
  {
    var x2 := x / 2 / 2;
    assert x2 < 32;
    var x4 := x2 / 2 / 2;
    assert x4 < 8;
    assert BitLen(x4) <= 3;
    assert BitLen(x2) <= 5;
  }

  lemma BitLenLowBit(x: nat)
    requires x > 0
    ensures BitLen(if x % 2 == 0 then x + 1 else x) == BitLen(x)
  {
    if x % 2 == 0 {
      assert (x + 1) / 2 == x / 2;
      assert BitLen(x + 1) == 1 + BitLen((x + 1) / 2);
    }
  }

  lemma {:induction false} SovStep(x: nat)
    requires x >= 128
    ensures Sov(x) == 1 + Sov(x / 128)
  {
    BitLenLowBit(x);
    BitLenLowBit(x / 128);
    BitLenShift7(x);
  }

  lemma {:induction false} SovIsLength(x: nat)
    ensures Sov(x) == |EncVarint(x)|
  {
    if x < 128 {
      BitLenSmall(if x % 2 == 0 then x + 1 else x);
    } else {
      SovStep(x);
      SovIsLength(x / 128);
    }
  }

  // ----- scanning what was written

  lemma {:induction false} EncLength(v: nat, k: nat)
    requires v < Pow128(k + 1)
    ensures |EncVarint(v)| <= k + 1
  {
    if v >= 128 {
      assert k > 0;
      EncLength(v / 128, k - 1);
    }
  }

  lemma EncLength64(v: uint64)
    ensures |EncVarint(v)| <= 10
  {
    assert Pow128(3) == 0x20_0000;
    assert Pow128(6) == 0x400_0000_0000;
    assert Pow128(9) == 0x8000_0000_0000_0000;
    assert Pow128(10) == 0x40_0000_0000_0000_0000;
    EncLength(v, 9);
  }

  lemma {:induction false} ScanEnc(v: nat, rest: Bytes, k: nat)
    requires |EncVarint(v)| + k <= 10
    ensures ScanVarint(EncVarint(v) + rest, k) == Ok(v, |EncVarint(v)|)
  {
    var bs := EncVarint(v) + rest;
    if v >= 128 {
      assert bs[1..] == EncVarint(v / 128) + rest;
      ScanEnc(v / 128, rest, k + 1);
    }
  }

  /** Bytes after the varint do not matter, and it is a varint on its own. */
  lemma {:induction false} ScanLocal(a: Bytes, b: Bytes, k: nat)
    requires ScanVarint(a, k).Ok?
    ensures ScanVarint(a + b, k) == ScanVarint(a, k)
    ensures ScanVarint(a[..ScanVarint(a, k).len], k) == ScanVarint(a, k)
    decreases |a|
  {
    if a[0] >= 128 {
      ScanLocal(a[1..], b, k + 1);
      assert (a + b)[1..] == a[1..] + b;
      var n := ScanVarint(a, k).len;
      assert a[..n][1..] == a[1..][..n - 1];
    }
  }

  // ----- the loops

  /** x << 7k, before truncation to the width of the variable. */
  function Shl7(x: nat, k: nat): nat
    decreases k
  {
    if k == 0 then x else Shl7(128 * x, k - 1)
  }

  lemma {:induction false} Shl7Add(x: nat, y: nat, k: nat)
    ensures Shl7(x + y, k) == Shl7(x, k) + Shl7(y, k)
    decreases k
  {
    if k > 0 {
      Shl7Add(128 * x, 128 * y, k - 1);
    }
  }

  /** The width of the Go variable a varint is read into. */
  datatype Width = W32 | W64

  function Truncate(x: nat, w: Width): (r: uint64)
    ensures w == W32 ==> r < TWO32
  {
    if w == W32 then x % TWO32 else x % TWO64
  }

  lemma TruncateAdd(a: nat, b: nat, w: Width)
    ensures Truncate(Truncate(a, w) + b, w) == Truncate(a + b, w)
  {
  }

  /** What the rest of the scan makes of the bits accumulated so far. */
  ghost function Resume(acc: nat, done: nat, rest: Bytes): ScanResult {
    match ScanVarint(rest, done)
    case Ok(raw, len) => Ok(acc + Shl7(raw, done), done + len)
    case Err(e) => Err(e)
  }

  lemma ResumeStart(bs: Bytes)
    ensures Resume(0, 0, bs) == ScanVarint(bs, 0)
  {
  }

  /** One round of the scanning loop on a continuation byte. */
  lemma ResumeStep(acc: nat, done: nat, rest: Bytes)
    requires done < 10 && rest != [] && rest[0] >= 128
    ensures Resume(acc, done, rest) == Resume(acc + Shl7(rest[0] % 128, done), done + 1, rest[1..])
  {
    var r := ScanVarint(rest[1..], done + 1);
    if r.Ok? {
      Shl7Add(rest[0] - 128, 128 * r.raw, done);
    }
  }

  /** The accumulating loop used for every tag, length and integer field. The bits a round brings in lie
      above those gathered before it, so the source's |= is an addition; shifting drops the bits above
      the width of the Go variable. */
  method ReadVarint(dAtA: Bytes, start: nat, w: Width) returns (r: ScanResult)
    requires start <= |dAtA|
    ensures match ScanVarint(dAtA[start..], 0)
            case Ok(raw, len) => r == Ok(Truncate(raw, w), len)
            case Err(e) => r == Err(e)
  {
    hide Truncate, Shl7;
    ghost var whole := ScanVarint(dAtA[start..], 0);
    var v: nat, iNdEx: nat, shift: nat := Truncate(0, w), start, 0;
    ghost var acc: nat := 0;
    ResumeStart(dAtA[start..]);
    while true
      invariant start <= iNdEx <= |dAtA|
      invariant shift == 7 * (iNdEx - start)
      invariant v == Truncate(acc, w)
      invariant whole == Resume(acc, iNdEx - start, dAtA[iNdEx..])
      decreases |dAtA| - iNdEx
    {
      if shift >= 64 {
        return Err(IntOverflow);
      }
      if iNdEx >= |dAtA| {
        return Err(UnexpectedEof);
      }
      var b := dAtA[iNdEx];
      var bits := Shl7(b % 128, shift / 7);
      assert shift / 7 == iNdEx - start;
      TruncateAdd(acc, bits, w);
      v := Truncate(v + bits, w);
      if b < 0x80 {
        return Ok(v, iNdEx + 1 - start);
      }
      ResumeStep(acc, iNdEx - start, dAtA[iNdEx..]);
      acc := acc + bits;
      assert dAtA[iNdEx..][1..] == dAtA[iNdEx + 1..];
      iNdEx := iNdEx + 1;
      shift := shift + 7;
    }
  }

  /** encodeVarintDkvsRecord: steps back by the size formula, then writes forward. */
  method EncodeVarint(dAtA: array<byte>, offset: nat, v: uint64) returns (base: nat)
    requires |EncVarint(v)| <= offset <= dAtA.Length
    modifies dAtA
    ensures base == offset - |EncVarint(v)|
    ensures dAtA[base..offset] == EncVarint(v)
    ensures dAtA[..base] == old(dAtA[..base]) && dAtA[offset..] == old(dAtA[offset..])
  {
    SovIsLength(v);
    hide Sov;
    var o := offset - Sov(v);
    base := o;
    var w: nat := v;
    while w >= 0x80
      invariant w <= v && base <= o && o + |EncVarint(w)| == offset
      invariant dAtA[base..o] + EncVarint(w) == EncVarint(v)
      invariant dAtA[..base] == old(dAtA[..base]) && dAtA[offset..] == old(dAtA[offset..])
    {
      ghost var before, b := dAtA[base..o], w % 0x80 + 0x80;
      assert EncVarint(w) == [b] + EncVarint(w / 0x80);
      dAtA[o] := w % 0x80 + 0x80;
      assert dAtA[base..o + 1] == before + [b];
      assert before + [b] + EncVarint(w / 0x80) == before + ([b] + EncVarint(w / 0x80));
      w := w / 0x80;
      o := o + 1;
    }
    dAtA[o] := w;
  }
}
