/** Skipping an unknown field (skipDkvsRecord), against the recursive grammar of wire-format fields. */
module WireGrammar {
  import opened GoTypes
  import opened Varint

  // ----- the grammar

  /** One field of the wire format; every varint is kept as the bytes it was written with. */
  datatype Field =
    | VarintField(tag: Bytes, varint: Bytes)
    | Fixed64Field(tag: Bytes, data: Bytes)
    | LenField(tag: Bytes, varint: Bytes, data: Bytes)
    | GroupField(tag: Bytes, body: seq<Field>, endTag: Bytes)
    | Fixed32Field(tag: Bytes, data: Bytes)

  predicate IsVarint(bs: Bytes) {
    ScanVarint(bs, 0).Ok? && ScanVarint(bs, 0).len == |bs|
  }

  /** The varint's value as a uint64. */
  function Value64(bs: Bytes): uint64
    requires IsVarint(bs)
  {
    Truncate(ScanVarint(bs, 0).raw, W64)
  }

  function WireType(wire: uint64): nat {
    wire % 8
  }

  predicate IsTag(bs: Bytes, wireType: nat) {
    IsVarint(bs) && WireType(Value64(bs)) == wireType
  }

  predicate WellFormed(f: Field)
    decreases f
  {
    match f
    case VarintField(tag, v) => IsTag(tag, 0) && IsVarint(v)
    case Fixed64Field(tag, data) => IsTag(tag, 1) && |data| == 8
    case LenField(tag, v, data) => IsTag(tag, 2) && IsVarint(v) && Value64(v) == |data| < TWO63
    case GroupField(tag, body, endTag) =>
      IsTag(tag, 3) && IsTag(endTag, 4) && forall g | g in body :: WellFormed(g)
    case Fixed32Field(tag, data) => IsTag(tag, 5) && |data| == 4
  }

  predicate AllWellFormed(fs: seq<Field>) {
    forall f | f in fs :: WellFormed(f)
  }

  function Print(f: Field): Bytes
    decreases f, 1
  {
    match f
    case VarintField(tag, v) => tag + v
    case Fixed64Field(tag, data) => tag + data
    case LenField(tag, v, data) => tag + (v + data)
    case GroupField(tag, body, endTag) => tag + (PrintAll(body) + endTag)
    case Fixed32Field(tag, data) => tag + data
  }

  function PrintAll(fs: seq<Field>): Bytes
    decreases fs, 0
  {
    if fs == [] then [] else Print(fs[0]) + PrintAll(fs[1..])
  }

  lemma {:induction false} PrintAllAppend(fs: seq<Field>, gs: seq<Field>)
    ensures PrintAll(fs + gs) == PrintAll(fs) + PrintAll(gs)
  {
    if fs == [] {
      assert fs + gs == gs;
    } else {
      assert (fs + gs)[1..] == fs[1..] + gs;
      PrintAllAppend(fs[1..], gs);
    }
  }

  lemma PrintNothing()
    ensures PrintAll([]) == []
  {
  }

  lemma PrintAllOne(f: Field)
    ensures PrintAll([f]) == Print(f)
  {
    assert [f][1..] == [];
  }

  // ----- the skipping loop as a function

  datatype SkipResult = Skipped(end: nat) | SkipErr(error: WireError)

  /** The length of the tag and payload one round of the loop passes, and the group depth after it. */
  datatype Item = Item(len: nat, depth: nat) | BadItem(error: WireError)

  function PayloadAt(rest: Bytes, wireType: nat, depth: nat): Item {
    match wireType
    case 0 => (match ScanVarint(rest, 0)
               case Ok(_, len) => Item(len, depth)
               case Err(e) => BadItem(e))
    case 1 => Item(8, depth)
    case 2 => (match ScanVarint(rest, 0)
               case Ok(raw, len) =>
                 if Truncate(raw, W64) >= TWO63 then BadItem(InvalidLength) else Item(len + Truncate(raw, W64), depth)
               case Err(e) => BadItem(e))
    case 3 => Item(0, depth + 1)
    case 4 => if depth == 0 then BadItem(UnexpectedEndOfGroup) else Item(0, depth - 1)
    case 5 => Item(4, depth)
    case _ => BadItem(IllegalWireType)
  }

  function ItemAt(rest: Bytes, depth: nat): (r: Item)
    ensures r.Item? ==> r.len > 0
  {
    match ScanVarint(rest, 0)
    case Err(e) => BadItem(e)
    case Ok(raw, n) =>
      match PayloadAt(rest[n..], WireType(Truncate(raw, W64)), depth)
      case Item(len, d) => Item(n + len, d)
      case BadItem(e) => BadItem(e)
  }

  /** The loop from index `base` with `rest` still to read; the index is an int64 that may overflow. */
  function Skip(rest: Bytes, base: nat, depth: nat): (r: SkipResult)
    ensures r.Skipped? ==> base < r.end < TWO63
    decreases |rest|
  {
    if rest == [] then SkipErr(UnexpectedEof)
    else match ItemAt(rest, depth)
      case BadItem(e) => SkipErr(e)
      case Item(len, d) =>
        if base + len >= TWO63 then SkipErr(InvalidLength)
        else if d == 0 then Skipped(base + len)
        else if len > |rest| then SkipErr(UnexpectedEof)
        else Skip(rest[len..], base + len, d)
  }

  /** One round of the loop of skipDkvsRecord: reads an item, however it fails. */
  method ReadItem(dAtA: Bytes, start: nat, depth: nat) returns (r: Item)
    requires start <= |dAtA|
    ensures r == ItemAt(dAtA[start..], depth)
  {
    hide Truncate;
    var wire := ReadVarint(dAtA, start, W64);
    if wire.Err? {
      return BadItem(wire.error);
    }
    var iNdEx := start + wire.len;
    assert dAtA[start..][wire.len..] == dAtA[iNdEx..];
    var wireType := WireType(wire.raw);
    match wireType {
      case 0 =>
        var v := ReadVarint(dAtA, iNdEx, W64);
        if v.Err? {
          return BadItem(v.error);
        }
        iNdEx := iNdEx + v.len;
      case 1 =>
        iNdEx := iNdEx + 8;
      case 2 =>
        var v := ReadVarint(dAtA, iNdEx, W64);
        if v.Err? {
          return BadItem(v.error);
        }
        if v.raw >= TWO63 {
          return BadItem(InvalidLength);
        }
        iNdEx := iNdEx + v.len + v.raw;
      case 3 =>
        return Item(iNdEx - start, depth + 1);
      case 4 =>
        if depth == 0 {
          return BadItem(UnexpectedEndOfGroup);
        }
        return Item(iNdEx - start, depth - 1);
      case 5 =>
        iNdEx := iNdEx + 4;
      case _ =>
        return BadItem(IllegalWireType);
    }
    return Item(iNdEx - start, depth);
  }

  /** skipDkvsRecord. The index can run past the end of the buffer; the caller checks that. */
  method SkipDkvsRecord(dAtA: Bytes) returns (r: SkipResult)
    requires |dAtA| < TWO63
    ensures r == Skip(dAtA, 0, 0)
  {
    hide ItemAt;
    var iNdEx: nat, depth: nat := 0, 0;
    while iNdEx < |dAtA|
      invariant Skip(dAtA, 0, 0) ==
                if iNdEx > |dAtA| then SkipErr(UnexpectedEof) else Skip(dAtA[iNdEx..], iNdEx, depth)
      decreases |dAtA| - iNdEx
    {
      var item := ReadItem(dAtA, iNdEx, depth);
      if item.BadItem? {
        return SkipErr(item.error);
      }
      if iNdEx + item.len <= |dAtA| {
        assert dAtA[iNdEx..][item.len..] == dAtA[iNdEx + item.len..];
      }
      iNdEx, depth := iNdEx + item.len, item.depth;
      if iNdEx >= TWO63 {
        return SkipErr(InvalidLength);
      }
      if depth == 0 {
        return Skipped(iNdEx);
      }
    }
    return SkipErr(UnexpectedEof);
  }

  // ----- items of the grammar

  predicate IsLeaf(f: Field) {
    !f.GroupField? && WellFormed(f)
  }

  lemma ItemOfTag(tag: Bytes, rest: Bytes, depth: nat)
    requires IsVarint(tag)
    ensures ItemAt(tag + rest, depth) ==
            match PayloadAt(rest, WireType(Value64(tag)), depth)
            case Item(len, d) => Item(|tag| + len, d)
            case BadItem(e) => BadItem(e)
  {
    hide PayloadAt, Truncate, WireType;
    ScanLocal(tag, rest, 0);
    assert (tag + rest)[|tag|..] == rest;
  }

  lemma ItemComplete(f: Field, rest: Bytes, depth: nat)
    requires IsLeaf(f)
    ensures ItemAt(Print(f) + rest, depth) == Item(|Print(f)|, depth)
  {
    hide ItemAt, Truncate, WireType;
    match f
    case VarintField(tag, v) =>
      assert Print(f) + rest == tag + (v + rest);
      ItemOfTag(tag, v + rest, depth);
      ScanLocal(v, rest, 0);
    case Fixed64Field(tag, data) =>
      assert Print(f) + rest == tag + (data + rest);
      ItemOfTag(tag, data + rest, depth);
    case LenField(tag, v, data) =>
      assert Print(f) + rest == tag + (v + (data + rest));
      ItemOfTag(tag, v + (data + rest), depth);
      ScanLocal(v, data + rest, 0);
    case Fixed32Field(tag, data) =>
      assert Print(f) + rest == tag + (data + rest);
      ItemOfTag(tag, data + rest, depth);
  }

  /** A tag and a payload that lies inside the buffer make a leaf field. */
  lemma LeafSound(tag: Bytes, rest: Bytes, len: nat, depth: nat) returns (f: Field)
    requires IsVarint(tag) && WireType(Value64(tag)) in {0, 1, 2, 5}
    requires PayloadAt(rest, WireType(Value64(tag)), depth) == Item(len, depth) && len <= |rest|
    ensures IsLeaf(f) && f.tag == tag && Print(f) == tag + rest[..len]
  {
    hide Truncate, WireType;
    var wt, payload := WireType(Value64(tag)), rest[..len];
    if wt == 1 {
      f := Fixed64Field(tag, payload);
    } else if wt == 5 {
      f := Fixed32Field(tag, payload);
    } else {
      ScanLocal(rest, [], 0);
      var m := ScanVarint(rest, 0).len;
      assert rest[..m] + payload[m..] == payload;
      f := if wt == 0 then VarintField(tag, payload) else LenField(tag, rest[..m], payload[m..]);
    }
  }

  /** An item that lies inside the buffer is a leaf field, a start-group tag or an end-group tag. */
  lemma ItemSound(rest: Bytes, depth: nat) returns (f: Option<Field>)
    requires ItemAt(rest, depth).Item? && ItemAt(rest, depth).len <= |rest|
    ensures var Item(len, d) := ItemAt(rest, depth);
            if d == depth then f.Some? && IsLeaf(f.value) && Print(f.value) == rest[..len]
            else if d > depth then d == depth + 1 && IsTag(rest[..len], 3)
            else d + 1 == depth && IsTag(rest[..len], 4)
    ensures f.Some? <==> ItemAt(rest, depth).depth == depth
    ensures f.Some? ==> f.value.tag == rest[..ScanVarint(rest, 0).len]
    ensures f.None? ==> ItemAt(rest, depth).len == ScanVarint(rest, 0).len
  {
    hide Truncate, WireType;
    ScanLocal(rest, [], 0);
    var n, len := ScanVarint(rest, 0).len, ItemAt(rest, depth).len;
    var tag := rest[..n];
    if WireType(Value64(tag)) in {3, 4} {
      assert rest[..len] == tag;
      f := None;
    } else {
      var leaf := LeafSound(tag, rest[n..], len - n, depth);
      assert rest[..len] == tag + rest[n..][..len - n];
      f := Some(leaf);
    }
  }

  // ----- every field of the grammar is skipped exactly

  /** What Skip does once a field that ended at `base` has been passed. */
  ghost function AfterField(rest: Bytes, base: nat, depth: nat): SkipResult {
    if depth == 0 then Skipped(base) else Skip(rest, base, depth)
  }

  /** A round of the loop over an item that lies inside the buffer. */
  lemma SkipItem(item: Bytes, rest: Bytes, base: nat, depth: nat, d: nat)
    requires ItemAt(item + rest, depth) == Item(|item|, d) && base + |item| < TWO63
    ensures Skip(item + rest, base, depth) == AfterField(rest, base + |item|, d)
  {
    hide ItemAt;
    assert (item + rest)[|item|..] == rest;
  }

  lemma SkipStartGroup(tag: Bytes, rest: Bytes, base: nat, depth: nat)
    requires IsTag(tag, 3) && base + |tag| < TWO63
    ensures Skip(tag + rest, base, depth) == Skip(rest, base + |tag|, depth + 1)
  {
    hide Truncate, WireType, ItemAt, Skip;
    ItemOfTag(tag, rest, depth);
    SkipItem(tag, rest, base, depth, depth + 1);
  }

  lemma SkipEndGroup(tag: Bytes, rest: Bytes, base: nat, depth: nat)
    requires IsTag(tag, 4) && base + |tag| < TWO63
    ensures Skip(tag + rest, base, depth + 1) == AfterField(rest, base + |tag|, depth)
  {
    hide Truncate, WireType, ItemAt, Skip;
    ItemOfTag(tag, rest, depth + 1);
    SkipItem(tag, rest, base, depth + 1, depth);
  }

  lemma {:induction false} SkipComplete(f: Field, rest: Bytes, base: nat, depth: nat)
    requires WellFormed(f) && base + |Print(f)| < TWO63
    ensures Skip(Print(f) + rest, base, depth) == AfterField(rest, base + |Print(f)|, depth)
    decreases f, 1
  {
    hide IsTag, IsVarint, ItemAt, Skip, PrintAll;
    if f.GroupField? {
      var GroupField(tag, body, endTag) := f;
      var inner := PrintAll(body) + (endTag + rest);
      assert Print(f) + rest == tag + inner;
      SkipStartGroup(tag, inner, base, depth);
      SkipAllComplete(body, endTag + rest, base + |tag|, depth + 1);
      SkipEndGroup(endTag, rest, base + |tag| + |PrintAll(body)|, depth);
    } else {
      hide Print, WellFormed;
      ItemComplete(f, rest, depth);
      SkipItem(Print(f), rest, base, depth, depth);
    }
  }

  lemma {:induction false} SkipAllComplete(fs: seq<Field>, rest: Bytes, base: nat, depth: nat)
    requires AllWellFormed(fs) && base + |PrintAll(fs)| < TWO63 && depth > 0
    ensures Skip(PrintAll(fs) + rest, base, depth) == Skip(rest, base + |PrintAll(fs)|, depth)
    decreases fs, 0
  {
    hide Skip, WellFormed;
    if fs == [] {
      assert PrintAll(fs) + rest == rest;
    } else {
      var tail := PrintAll(fs[1..]);
      assert PrintAll(fs) + rest == Print(fs[0]) + (tail + rest);
      SkipComplete(fs[0], tail + rest, base, depth);
      SkipAllComplete(fs[1..], rest, base + |Print(fs[0])|, depth);
    }
  }

  // ----- and nothing else is

  /** The fields read so far at one nesting level, and the end tag that closed it. */
  datatype Level = Level(fields: seq<Field>, endTag: Bytes)

  ghost function PrintLevels(ls: seq<Level>): Bytes {
    if ls == [] then [] else PrintAll(ls[0].fields) + (ls[0].endTag + PrintLevels(ls[1..]))
  }

  ghost predicate LevelsOk(ls: seq<Level>) {
    forall l | l in ls :: AllWellFormed(l.fields) && IsTag(l.endTag, 4)
  }

  /** The innermost level gains a field at its front. */
  lemma PrependField(f: Field, ls: seq<Level>) returns (r: seq<Level>)
    requires WellFormed(f) && LevelsOk(ls) && ls != []
    ensures |r| == |ls| && LevelsOk(r) && PrintLevels(r) == Print(f) + PrintLevels(ls)
  {
    hide WellFormed, IsTag, Print, PrintAll;
    var fs, tail := ls[0].fields, ls[0].endTag + PrintLevels(ls[1..]);
    var top := Level([f] + fs, ls[0].endTag);
    r := [top] + ls[1..];
    assert r[1..] == ls[1..];
    PrintAllAppend([f], fs);
    PrintAllOne(f);
    assert Print(f) + PrintAll(fs) + tail == Print(f) + (PrintAll(fs) + tail);
    assert LevelsOk(r) by {
      hide PrintLevels;
      assert AllWellFormed(top.fields);
    }
  }

  /** The innermost level, once its start tag is known, is a field of the next one. */
  lemma CloseGroup(tag: Bytes, ls: seq<Level>) returns (f: Field)
    requires IsTag(tag, 3) && LevelsOk(ls) && ls != []
    ensures WellFormed(f) && f.tag == tag && LevelsOk(ls[1..])
    ensures Print(f) + PrintLevels(ls[1..]) == tag + PrintLevels(ls)
  {
    hide IsTag, PrintAll;
    var Level(fs, endTag) := ls[0];
    f := GroupField(tag, fs, endTag);
    assert Print(f) == tag + (PrintAll(fs) + endTag);
    assert AllWellFormed(fs) && LevelsOk(ls[1..]);
  }

  /** A successful skip at depth d > 0 has read d levels, innermost first. */
  lemma {:induction false} SkipLevels(rest: Bytes, base: nat, depth: nat) returns (ls: seq<Level>)
    requires depth > 0 && Skip(rest, base, depth).Skipped?
    requires Skip(rest, base, depth).end <= base + |rest|
    ensures |ls| == depth && LevelsOk(ls)
    ensures base <= Skip(rest, base, depth).end
    ensures PrintLevels(ls) == rest[..Skip(rest, base, depth).end - base]
    decreases |rest|
  {
    hide WellFormed, IsTag, ItemAt, Print, PrintAll;
    var Item(len, d) := ItemAt(rest, depth);
    var leaf := ItemSound(rest, depth);
    if d == 0 {
      ls := [Level([], rest[..len])];
      assert PrintLevels(ls[1..]) == [];
      PrintEndTag(rest[..len], []);
    } else {
      var inner := SkipLevels(rest[len..], base + len, d);
      var total := Skip(rest, base, depth).end - base;
      assert rest[..total] == rest[..len] + rest[len..][..total - len];
      if d < depth {
        ls := [Level([], rest[..len])] + inner;
        PrintEndTag(rest[..len], inner);
      } else if d > depth {
        var group := CloseGroup(rest[..len], inner);
        ls := PrependField(group, inner[1..]);
      } else {
        ls := PrependField(leaf.value, inner);
      }
    }
  }

  lemma PrintEndTag(tag: Bytes, ls: seq<Level>)
    requires IsTag(tag, 4) && LevelsOk(ls)
    ensures LevelsOk([Level([], tag)] + ls)
    ensures PrintLevels([Level([], tag)] + ls) == tag + PrintLevels(ls)
  {
    hide IsTag;
    assert ([Level([], tag)] + ls)[1..] == ls;
  }

  lemma SkipSound(rest: Bytes) returns (f: Field)
    requires Skip(rest, 0, 0).Skipped? && Skip(rest, 0, 0).end <= |rest|
    ensures WellFormed(f) && Print(f) == rest[..Skip(rest, 0, 0).end]
    ensures f.tag == rest[..ScanVarint(rest, 0).len]
  {
    hide ItemAt, IsTag, Print, WellFormed, ScanVarint;
    var len := ItemAt(rest, 0).len;
    var leaf := ItemSound(rest, 0);
    if leaf.Some? {
      f := leaf.value;
    } else {
      f := GroupSound(rest, len);
    }
  }

  lemma GroupSound(rest: Bytes, n: nat) returns (f: Field)
    requires n <= |rest| && IsTag(rest[..n], 3)
    requires Skip(rest[n..], n, 1).Skipped? && Skip(rest[n..], n, 1).end <= |rest|
    ensures WellFormed(f) && Print(f) == rest[..Skip(rest[n..], n, 1).end] && f.tag == rest[..n]
  {
    hide WellFormed, Print, PrintAll, Skip, IsTag;
    var ls := SkipLevels(rest[n..], n, 1);
    f := CloseGroup(rest[..n], ls);
    assert ls[1..] == [];
    var total := Skip(rest[n..], n, 1).end;
    assert rest[..total] == rest[..n] + rest[n..][..total - n];
  }

  lemma SkipOfField(f: Field, bs: Bytes, n: nat)
    requires |bs| < TWO63 && n <= |bs| && WellFormed(f) && Print(f) == bs[..n]
    ensures Skip(bs, 0, 0) == Skipped(n)
  {
    hide WellFormed, Print, Skip;
    SkipComplete(f, bs[n..], 0, 0);
    assert bs == Print(f) + bs[n..];
  }

  /** The depth counter recognises exactly the fields of the recursive grammar: a skip stops inside the
      buffer, at n, just when the first n bytes are one field, however deeply its groups nest. */
  lemma SkipIsOneField(bs: Bytes, n: nat)
    requires |bs| < TWO63 && n <= |bs|
    ensures Skip(bs, 0, 0) == Skipped(n) <==> exists f: Field :: WellFormed(f) && Print(f) == bs[..n]
  {
    hide *;
    if Skip(bs, 0, 0) == Skipped(n) {
      var f := SkipSound(bs);
    } else if f: Field :| WellFormed(f) && Print(f) == bs[..n] {
      SkipOfField(f, bs, n);
    }
  }
}
