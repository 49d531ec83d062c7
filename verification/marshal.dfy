/** The pieces every generated Marshal and Unmarshal is made of: printing a field backwards into a
    pre-sized buffer, and reading one off an input. */
module Marshal {
  import opened GoTypes
  import opened Varint
  import opened WireGrammar
  import opened Messages

  // ----- sizes

  /** The summand a Size method adds for an integer field, and for a bytes field. */
  function UintSize(v: uint64): nat {
    if v != 0 then 1 + Sov(v) else 0
  }

  function BytesSize(p: Bytes): nat {
    if |p| > 0 then 1 + |p| + Sov(|p|) else 0
  }

  lemma SizeU(n: FieldNo, v: uint64, fs: seq<Field>)
    ensures |PrintAll(U(n, v) + fs)| == UintSize(v) + |PrintAll(fs)|
  {
    PrintAllAppend(U(n, v), fs);
    if v != 0 {
      SovIsLength(v);
      PrintAllOne(UintField(n, v));
    }
  }

  lemma SizeField(n: FieldNo, p: Bytes, fs: seq<Field>)
    ensures |PrintAll([BytesField(n, p)] + fs)| == 1 + |p| + Sov(|p|) + |PrintAll(fs)|
  {
    PrintAllAppend([BytesField(n, p)], fs);
    SovIsLength(|p|);
    PrintAllOne(BytesField(n, p));
  }

  lemma SizeB(n: FieldNo, p: Bytes, fs: seq<Field>)
    ensures |PrintAll(B(n, p) + fs)| == BytesSize(p) + |PrintAll(fs)|
  {
    if p == [] {
      assert B(n, p) + fs == fs;
    } else {
      SizeField(n, p, fs);
    }
  }

  lemma TailFits(fs: seq<Field>, gs: seq<Field>, size: nat)
    requires |PrintAll(fs + gs)| <= size
    ensures |PrintAll(gs)| <= size
  {
    PrintAllAppend(fs, gs);
  }

  // ----- printing backwards

  /** The buffer, which was `was` at first, holds the fields fs just before index `end`, from index i on,
      and is otherwise as it was. */
  ghost predicate Printed(was: Bytes, now: Bytes, i: nat, end: nat, fs: seq<Field>) {
    && i <= end <= |was| == |now|
    && now[i..end] == PrintAll(fs)
    && now[..i] == was[..i]
    && now[end..] == was[end..]
  }

  lemma NothingPrinted(was: Bytes, end: nat)
    requires end <= |was|
    ensures Printed(was, was, end, end, [])
  {
  }

  /** `new` has the bytes p written in front of what was printed before. */
  lemma PrintedMore(was: Bytes, old': Bytes, new': Bytes, i: nat, j: nat, end: nat, fs: seq<Field>, f: Field)
    requires Printed(was, old', i, end, fs) && j + |Print(f)| == i
    requires |new'| == |old'| && new'[j..i] == Print(f) && new'[..j] == old'[..j] && new'[i..] == old'[i..]
    ensures Printed(was, new', j, end, [f] + fs)
  {
    hide Print;
    PrintAllAppend([f], fs);
    PrintAllOne(f);
    assert new'[i..end] == new'[i..][..end - i] == old'[i..][..end - i] == old'[i..end];
    assert new'[j..end] == new'[j..i] + new'[i..end];
    assert new'[..j] == old'[..i][..j] == was[..i][..j] == was[..j];
    assert new'[end..] == new'[i..][end - i..] == old'[i..][end - i..] == old'[end..];
  }

  /** The one-byte tag in front of a varint or a length. */
  method PutTag(dAtA: array<byte>, i: nat, tag: byte) returns (j: nat)
    requires 0 < i <= dAtA.Length
    modifies dAtA
    ensures j == i - 1 && dAtA[..] == old(dAtA[..])[j := tag]
  {
    j := i - 1;
    dAtA[j] := tag;
  }

  lemma TagWritten(before: Bytes, after: Bytes, tag: byte, j: nat, i: nat, old': Bytes, body: Bytes)
    requires 0 < j <= i <= |before| == |old'| && after == before[j - 1 := tag]
    requires before[j..i] == body && before[..j] == old'[..j] && before[i..] == old'[i..]
    ensures after[j - 1..i] == [tag] + body && after[..j - 1] == old'[..j - 1] && after[i..] == old'[i..]
  {
    assert after[j..i] == before[j..i];
    assert after[j - 1..i] == [tag] + after[j..i];
    assert after[..j - 1] == before[..j][..j - 1] == old'[..j][..j - 1] == old'[..j - 1];
    assert after[i..] == before[i..];
  }

  /** An integer field, unless it is zero: the varint, then the tag in front of it. */
  method MarshalUint(dAtA: array<byte>, i: nat, n: FieldNo, v: uint64, ghost was: Bytes, ghost end: nat,
                     ghost fs: seq<Field>)
    returns (j: nat)
    requires Printed(was, dAtA[..], i, end, fs) && |PrintAll(U(n, v) + fs)| <= end
    modifies dAtA
    ensures Printed(was, dAtA[..], j, end, U(n, v) + fs)
  {
    hide Printed, Sov, Print, PrintAll;
    j := i;
    if v != 0 {
      ghost var before := dAtA[..];
      UintRoom(n, v, was, before, i, end, fs);
      j := EncodeVarint(dAtA, i, v);
      ghost var mid, k := dAtA[..], j;
      assert mid[j..i] == EncVarint(v) && mid[..j] == before[..j] && mid[i..] == before[i..];
      j := PutTag(dAtA, j, 8 * n);
      TagWritten(mid, dAtA[..], 8 * n, k, i, before, EncVarint(v));
      assert Print(UintField(n, v)) == [8 * n] + EncVarint(v) by { PrintUintField(n, v); }
      PrintedMore(was, before, dAtA[..], i, j, end, fs, UintField(n, v));
    } else {
      assert U(n, v) + fs == fs;
    }
  }

  lemma PrintUintField(n: FieldNo, v: uint64)
    ensures Print(UintField(n, v)) == [8 * n] + EncVarint(v)
  {
  }

  lemma UintRoom(n: FieldNo, v: uint64, was: Bytes, now: Bytes, i: nat, end: nat, fs: seq<Field>)
    requires v != 0 && Printed(was, now, i, end, fs) && |PrintAll(U(n, v) + fs)| <= end
    ensures |EncVarint(v)| < i <= |now|
  {
    hide Sov;
    SizeU(n, v, fs);
    SovIsLength(v);
  }

  /** Writes p at index i. */
  method Copy(dAtA: array<byte>, i: nat, p: Bytes)
    requires i + |p| <= dAtA.Length
    modifies dAtA
    ensures dAtA[..] == old(dAtA[..i]) + p + old(dAtA[i + |p|..])
  {
    for k := 0 to |p|
      invariant dAtA[..i] == old(dAtA[..i]) && dAtA[i..i + k] == p[..k]
      invariant dAtA[i + |p|..] == old(dAtA[i + |p|..])
    {
      dAtA[i + k] := p[k];
    }
    assert dAtA[..] == dAtA[..i] + dAtA[i..i + |p|] + dAtA[i + |p|..];
  }

  /** The length and tag of a payload that already stands at dAtA[from..i]. */
  method PutLengthAndTag(dAtA: array<byte>, from: nat, i: nat, n: FieldNo, ghost old': Bytes) returns (j: nat)
    requires from <= i <= dAtA.Length && i - from < TWO63 && |EncVarint(i - from)| < from
    requires |old'| == dAtA.Length && dAtA[..from] == old'[..from] && dAtA[i..] == old'[i..]
    modifies dAtA
    ensures j == from - |EncVarint(i - from)| - 1
    ensures dAtA[j..i] == Print(BytesField(n, old(dAtA[from..i])))
    ensures dAtA[..j] == old'[..j] && dAtA[i..] == old'[i..]
  {
    hide Sov, PrintAll;
    ghost var p, at := dAtA[from..i], dAtA[from..];
    j := EncodeVarint(dAtA, from, i - from);
    ghost var mid, k := dAtA[..], j;
    LengthWritten(mid, at, old', k, from, i, p);
    j := PutTag(dAtA, j, 8 * n + 2);
    TagWritten(mid, dAtA[..], 8 * n + 2, k, i, old', EncVarint(|p|) + p);
  }

  lemma LengthWritten(mid: Bytes, at: Bytes, old': Bytes, k: nat, from: nat, i: nat, p: Bytes)
    requires k <= from <= i <= |mid| == |old'| && |at| == |mid| - from && p == at[..i - from]
    requires mid[k..from] == EncVarint(|p|) && mid[from..] == at
    requires mid[..k] == old'[..k] && at[i - from..] == old'[i..]
    ensures mid[k..i] == EncVarint(|p|) + p && mid[i..] == old'[i..]
  {
    assert mid[from..i] == mid[from..][..i - from];
    assert mid[k..i] == mid[k..from] + mid[from..i];
    assert mid[i..] == mid[from..][i - from..];
  }

  /** A bytes field, unless it is empty: the payload, then length and tag in front of it. */
  method MarshalBytes(dAtA: array<byte>, i: nat, n: FieldNo, p: Bytes, ghost was: Bytes, ghost end: nat,
                      ghost fs: seq<Field>)
    returns (j: nat)
    requires Printed(was, dAtA[..], i, end, fs) && |PrintAll(B(n, p) + fs)| <= end
    requires dAtA.Length < TWO63
    modifies dAtA
    ensures Printed(was, dAtA[..], j, end, B(n, p) + fs)
  {
    hide Printed, Sov, Print, PrintAll, EncVarint;
    j := i;
    if |p| > 0 {
      ghost var before := dAtA[..];
      BytesRoom(n, p, was, before, i, end, fs);
      j := i - |p|;
      Copy(dAtA, j, p);
      assert dAtA[j..i] == p && dAtA[..j] == before[..j] && dAtA[i..] == before[i..];
      j := PutLengthAndTag(dAtA, j, i, n, before);
      PrintedMore(was, before, dAtA[..], i, j, end, fs, BytesField(n, p));
    } else {
      assert B(n, p) + fs == fs;
    }
  }

  lemma BytesRoom(n: FieldNo, p: Bytes, was: Bytes, now: Bytes, i: nat, end: nat, fs: seq<Field>)
    requires Printed(was, now, i, end, fs) && |PrintAll([BytesField(n, p)] + fs)| <= end
    ensures |p| + |EncVarint(|p|)| < i <= |now|
    ensures |Print(BytesField(n, p))| == 1 + |EncVarint(|p|)| + |p|
  {
    hide Sov;
    SizeField(n, p, fs);
    SovIsLength(|p|);
  }

  // ----- reading forwards

  method ReadTag(dAtA: Bytes, start: nat) returns (t: TagRead)
    requires start <= |dAtA|
    ensures t == TagAt(dAtA[start..])
  {
    hide Truncate;
    var wire := ReadVarint(dAtA, start, W64);
    if wire.Err? {
      return BadTag(wire.error);
    }
    var fieldNum, wireType := FieldNum(wire.raw), WireType(wire.raw);
    if wireType == 4 {
      return BadTag(EndGroupForNonGroup);
    }
    if fieldNum <= 0 {
      return BadTag(IllegalTag);
    }
    return Tag(fieldNum, wireType, wire.len);
  }

  method ReadUint(dAtA: Bytes, start: nat, wireType: nat, w: Width) returns (r: ScanResult)
    requires start <= |dAtA|
    ensures match UintAt(dAtA[start..], wireType)
            case Ok(raw, len) => r == Ok(Truncate(raw, w), len)
            case Err(e) => r == Err(e)
  {
    if wireType != 0 {
      return Err(WrongWireType);
    }
    r := ReadVarint(dAtA, start, w);
  }

  /** A payload, copied out of the input as the source's append and string conversions do. */
  method ReadBytes(dAtA: Bytes, start: nat, wireType: nat) returns (c: Cut, p: Bytes)
    requires start <= |dAtA| < TWO63
    ensures c == BytesAt(dAtA[start..], wireType, start)
    ensures c.Cut? ==> p == dAtA[start..][c.from..c.to]
  {
    hide Truncate;
    p := [];
    if wireType != 2 {
      return BadCut(WrongWireType), p;
    }
    var r := ReadVarint(dAtA, start, W64);
    if r.Err? {
      return BadCut(r.error), p;
    }
    if r.raw >= TWO63 {
      return BadCut(InvalidLength), p;
    }
    var postIndex := start + r.len + r.raw;
    if postIndex >= TWO63 {
      return BadCut(InvalidLength), p;
    }
    if postIndex > |dAtA| {
      return BadCut(UnexpectedEof), p;
    }
    c, p := Cut(r.len, r.len + r.raw), dAtA[start + r.len..postIndex];
    assert p == dAtA[start..][c.from..c.to];
  }

  method SkipUnknown(dAtA: Bytes, preIndex: nat) returns (c: Cut)
    requires preIndex <= |dAtA| < TWO63
    ensures c == UnknownAt(dAtA[preIndex..], preIndex)
  {
    var skippy := SkipDkvsRecord(dAtA[preIndex..]);
    if skippy.SkipErr? {
      return BadCut(skippy.error);
    }
    if preIndex + skippy.end >= TWO63 {
      return BadCut(InvalidLength);
    }
    if preIndex + skippy.end > |dAtA| {
      return BadCut(UnexpectedEof);
    }
    return Cut(0, skippy.end);
  }

  lemma PrintedSize(was: Bytes, now: Bytes, i: nat, end: nat, fs: seq<Field>)
    requires Printed(was, now, i, end, fs)
    ensures end - i == |PrintAll(fs)|
  {
  }

  lemma EnumTruncated(raw: nat)
    ensures ToInt32(Truncate(raw, W32)) == ToInt32(raw)
  {
  }
}
