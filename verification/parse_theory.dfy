/** Unmarshal accepts exactly the field sequences of the grammar, and means what a fold over them means. */
module ParseTheory {
  import opened GoTypes
  import opened Varint
  import opened WireGrammar
  import opened Messages

  // ----- the meaning of a field sequence

  /** The effect of one well-formed field on a message: unknown field numbers have none. */
  function Apply(m: Message, f: Field): ParseResult
    requires WellFormed(f)
  {
    var num := FieldNum(Value64(f.tag));
    if num <= 0 then ParseErr(IllegalTag)
    else match KindOf(m, num)
      case UintKind =>
        if f.VarintField? then Parsed(PutUint(m, num, ScanVarint(f.varint, 0).raw)) else ParseErr(WrongWireType)
      case BytesKind =>
        if f.LenField? then PutBytes(m, num, f.data) else ParseErr(WrongWireType)
      case UnknownField => Parsed(m)
  }

  function ApplyAll(m: Message, fs: seq<Field>): ParseResult
    requires AllWellFormed(fs)
    decreases |fs|
  {
    if fs == [] then Parsed(m)
    else match Apply(m, fs[0])
      case ParseErr(e) => ParseErr(e)
      case Parsed(m') => ApplyAll(m', fs[1..])
  }

  // ----- one field

  lemma FieldTag(f: Field)
    requires WellFormed(f)
    ensures IsVarint(f.tag) && WireType(Value64(f.tag)) != 4
    ensures |f.tag| <= |Print(f)| && Print(f)[..|f.tag|] == f.tag
    ensures f.VarintField? <==> WireType(Value64(f.tag)) == 0
    ensures f.LenField? <==> WireType(Value64(f.tag)) == 2
  {
    hide IsVarint, Value64, PrintAll, AllWellFormed;
  }

  lemma StepTag(m: Message, rest: Bytes, base: nat, tag: Bytes)
    requires tag <= rest && IsVarint(tag)
    ensures Step(m, rest, base) ==
            if WireType(Value64(tag)) == 4 then StepErr(EndGroupForNonGroup)
            else if FieldNum(Value64(tag)) <= 0 then StepErr(IllegalTag)
            else StepField(m, FieldNum(Value64(tag)), WireType(Value64(tag)), |tag|, rest, base)
  {
    hide Truncate, FieldNum, WireType, StepField;
    ScanLocal(tag, rest[|tag|..], 0);
    assert rest == tag + rest[|tag|..];
  }

  lemma VarintPayload(m: Message, num: int, f: Field, rest: Bytes, base: nat)
    requires f.VarintField? && f.tag != [] && IsVarint(f.varint) && KindOf(m, num) == UintKind
    ensures StepField(m, num, 0, |f.tag|, Print(f) + rest, base) ==
            Stepped(PutUint(m, num, ScanVarint(f.varint, 0).raw), |Print(f)|)
  {
    hide PutUint, PutBytes, Skip, KindOf;
    assert (Print(f) + rest)[|f.tag|..] == f.varint + rest;
    ScanLocal(f.varint, rest, 0);
  }

  lemma LenPayload(m: Message, num: int, f: Field, rest: Bytes, base: nat)
    requires f.LenField? && f.tag != [] && WellFormed(f) && KindOf(m, num) == BytesKind
    requires base + |Print(f)| < TWO63
    ensures StepField(m, num, 2, |f.tag|, Print(f) + rest, base) ==
            match PutBytes(m, num, f.data)
            case Parsed(m') => Stepped(m', |Print(f)|)
            case ParseErr(e) => StepErr(e)
  {
    hide PutUint, PutBytes, Skip, KindOf, Truncate, WireType;
    var LenField(tag, v, data) := f;
    assert (Print(f) + rest)[|tag|..] == v + (data + rest);
    ScanLocal(v, data + rest, 0);
    assert (v + (data + rest))[|v|..|v| + |data|] == data;
  }

  lemma SkippedPayload(m: Message, num: int, wireType: nat, n: nat, f: Field, rest: Bytes, base: nat)
    requires WellFormed(f) && 0 < n <= |Print(f)| && KindOf(m, num) == UnknownField && base + |Print(f)| < TWO63
    ensures StepField(m, num, wireType, n, Print(f) + rest, base) == Stepped(m, |Print(f)|)
  {
    hide PutUint, PutBytes, Skip, KindOf, WellFormed, Print;
    SkipComplete(f, rest, 0, 0);
  }

  lemma StepOfField(m: Message, f: Field, rest: Bytes, base: nat)
    requires WellFormed(f) && base + |Print(f)| < TWO63
    ensures Print(f) != []
    ensures Step(m, Print(f) + rest, base) ==
            match Apply(m, f)
            case Parsed(m') => Stepped(m', |Print(f)|)
            case ParseErr(e) => StepErr(e)
  {
    FieldTag(f);
    StepTag(m, Print(f) + rest, base, f.tag);
    var num := FieldNum(Value64(f.tag));
    var kind := KindOf(m, num);
    assert f.VarintField? ==> IsVarint(f.varint);
    hide PutUint, PutBytes, KindOf, Value64, FieldNum, Print, WellFormed, Step, Skip, ScanVarint, BytesAt, UintAt,
         UnknownAt;
    if num > 0 {
      if kind == UnknownField {
        SkippedPayload(m, num, WireType(Value64(f.tag)), |f.tag|, f, rest, base);
      } else if kind == UintKind && f.VarintField? {
        VarintPayload(m, num, f, rest, base);
      } else if kind == BytesKind && f.LenField? {
        LenPayload(m, num, f, rest, base);
      }
    }
  }

  lemma VarintFieldSound(n: nat, rest: Bytes) returns (f: Field)
    requires 0 < n <= |rest| && IsTag(rest[..n], 0) && ScanVarint(rest[n..], 0).Ok?
    ensures WellFormed(f) && f.VarintField? && f.tag == rest[..n]
    ensures Print(f) == rest[..n + ScanVarint(rest[n..], 0).len]
    ensures ScanVarint(f.varint, 0).raw == ScanVarint(rest[n..], 0).raw
  {
    hide IsTag;
    ScanLocal(rest[n..], [], 0);
    var len := ScanVarint(rest[n..], 0).len;
    f := VarintField(rest[..n], rest[n..][..len]);
    assert rest[..n + len] == rest[..n] + rest[n..][..len];
  }

  lemma LenFieldSound(n: nat, rest: Bytes, base: nat) returns (f: Field)
    requires 0 < n <= |rest| && IsTag(rest[..n], 2) && BytesAt(rest[n..], 2, base + n).Cut?
    ensures WellFormed(f) && f.LenField? && f.tag == rest[..n]
    ensures var Cut(from, to) := BytesAt(rest[n..], 2, base + n);
            Print(f) == rest[..n + to] && f.data == rest[n..][from..to]
  {
    hide IsTag, Truncate;
    ScanLocal(rest[n..], [], 0);
    var Cut(from, to) := BytesAt(rest[n..], 2, base + n);
    f := LenField(rest[..n], rest[n..][..from], rest[n..][from..to]);
    assert rest[..n + to] == rest[..n] + (rest[n..][..from] + rest[n..][from..to]);
  }

  lemma StepSound(m: Message, rest: Bytes, base: nat) returns (f: Field)
    requires Step(m, rest, base).Stepped?
    ensures WellFormed(f) && Print(f) == rest[..Step(m, rest, base).len]
    ensures Apply(m, f) == Parsed(Step(m, rest, base).m)
  {
    var n := ScanVarint(rest, 0).len;
    ScanLocal(rest, [], 0);
    var tag := rest[..n];
    StepTag(m, rest, base, tag);
    var num := FieldNum(Value64(tag));
    assert IsTag(tag, WireType(Value64(tag)));
    hide Value64, FieldNum, PutUint, PutBytes, KindOf, IsTag, WellFormed, Print, Step, Skip, BytesAt, UintAt,
         UnknownAt, ScanVarint;
    match KindOf(m, num) {
      case UnknownField => f := SkipSound(rest);
      case UintKind => f := VarintFieldSound(n, rest);
      case BytesKind => f := LenFieldSound(n, rest, base);
    }
  }

  // ----- field sequences

  lemma {:induction false} ParseFields(m: Message, fs: seq<Field>, rest: Bytes, base: nat)
    requires AllWellFormed(fs) && base + |PrintAll(fs)| < TWO63
    ensures Parse(m, PrintAll(fs) + rest, base) ==
            match ApplyAll(m, fs)
            case Parsed(m') => Parse(m', rest, base + |PrintAll(fs)|)
            case ParseErr(e) => ParseErr(e)
    decreases |fs|
  {
    hide Step, Apply, WellFormed, Print;
    if fs == [] {
      assert PrintAll(fs) + rest == rest;
    } else {
      var head, tail := Print(fs[0]), PrintAll(fs[1..]);
      assert PrintAll(fs) + rest == head + (tail + rest);
      StepOfField(m, fs[0], tail + rest, base);
      if Apply(m, fs[0]).Parsed? {
        assert (head + (tail + rest))[|head|..] == tail + rest;
        ParseFields(Apply(m, fs[0]).m, fs[1..], rest, base + |head|);
      }
    }
  }

  lemma {:induction false} ParseSound(m: Message, bs: Bytes, base: nat) returns (fs: seq<Field>)
    requires Parse(m, bs, base).Parsed?
    ensures AllWellFormed(fs) && PrintAll(fs) == bs
    ensures ApplyAll(m, fs) == Parse(m, bs, base)
    decreases |bs|
  {
    hide Step, Apply, WellFormed, Print;
    if bs == [] {
      fs := [];
    } else {
      var Stepped(m', n) := Step(m, bs, base);
      var f := StepSound(m, bs, base);
      var gs := ParseSound(m', bs[n..], base + n);
      fs := [f] + gs;
      assert fs[1..] == gs;
      assert bs == bs[..n] + bs[n..];
    }
  }

  // ----- the theorems

  /** Unmarshal succeeds with m' just when the bytes are a sequence of grammar fields whose effects, one
      after the other, turn m into m'. */
  lemma UnmarshalIsGrammar(m: Message, bs: Bytes, m': Message)
    requires |bs| < TWO63
    ensures Parse(m, bs, 0) == Parsed(m') <==>
            exists fs: seq<Field> :: AllWellFormed(fs) && PrintAll(fs) == bs && ApplyAll(m, fs) == Parsed(m')
  {
    hide *;
    if Parse(m, bs, 0) == Parsed(m') {
      var fs := ParseSound(m, bs, 0);
    } else if fs: seq<Field> :| AllWellFormed(fs) && PrintAll(fs) == bs && ApplyAll(m, fs) == Parsed(m') {
      ParseFields(m, fs, [], 0);
      assert PrintAll(fs) + [] == bs;
      ParseEnd(m', |bs|);
    }
  }

  lemma ParseEnd(m: Message, base: nat)
    ensures Parse(m, [], base) == Parsed(m)
  {
  }

  /** Where the buffer starts matters only for which error is reported. */
  lemma ParseBase(m: Message, bs: Bytes, base: nat)
    requires base + |bs| < TWO63
    ensures Parse(m, bs, base).Parsed? <==> Parse(m, bs, 0).Parsed?
    ensures Parse(m, bs, base).Parsed? ==> Parse(m, bs, base) == Parse(m, bs, 0)
  {
    hide *;
    if Parse(m, bs, base).Parsed? {
      var fs := ParseSound(m, bs, base);
      ParseFields(m, fs, [], 0);
      assert PrintAll(fs) + [] == bs;
      ParseEnd(Parse(m, bs, base).m, |bs|);
    } else if Parse(m, bs, 0).Parsed? {
      var fs := ParseSound(m, bs, 0);
      ParseFields(m, fs, [], base);
      assert PrintAll(fs) + [] == bs;
      ParseEnd(Parse(m, bs, 0).m, base + |bs|);
    }
  }

  /** Parsing is a homomorphism: once a has parsed, the rest is parsed on top of its result. */
  lemma Homomorphism(m: Message, a: Bytes, b: Bytes)
    requires |a| + |b| < TWO63 && Parse(m, a, 0).Parsed?
    ensures var m' := Parse(m, a, 0).m;
            (Parse(m, a + b, 0).Parsed? <==> Parse(m', b, 0).Parsed?) &&
            (Parse(m', b, 0).Parsed? ==> Parse(m, a + b, 0) == Parse(m', b, 0))
  {
    hide *;
    var fs := ParseSound(m, a, 0);
    ParseFields(m, fs, b, 0);
    ParseBase(Parse(m, a, 0).m, b, |a|);
  }

  /** A well-formed field whose number the message does not know can stand at any field boundary. */
  lemma UnknownFieldTransparent(m: Message, a: Bytes, f: Field, b: Bytes)
    requires |a| + |Print(f)| + |b| < TWO63 && Parse(m, a, 0).Parsed?
    requires WellFormed(f) && FieldNum(Value64(f.tag)) > 0 && KindOf(m, FieldNum(Value64(f.tag))) == UnknownField
    ensures Parse(m, a + Print(f) + b, 0).Parsed? <==> Parse(m, a + b, 0).Parsed?
    ensures Parse(m, a + b, 0).Parsed? ==> Parse(m, a + Print(f) + b, 0) == Parse(m, a + b, 0)
  {
    var m' := Parse(m, a, 0).m;
    KindBySameType(m, m', FieldNum(Value64(f.tag)));
    UnknownFieldAlone(m', f);
    hide *;
    Homomorphism(m, a, b);
    Homomorphism(m, a, Print(f));
    Homomorphism(m, a + Print(f), b);
  }

  lemma KindBySameType(m: Message, n: Message, num: int)
    requires SameType(m, n)
    ensures KindOf(m, num) == KindOf(n, num)
  {
  }

  lemma UnknownFieldAlone(m: Message, f: Field)
    requires WellFormed(f) && |Print(f)| < TWO63
    requires FieldNum(Value64(f.tag)) > 0 && KindOf(m, FieldNum(Value64(f.tag))) == UnknownField
    ensures Parse(m, Print(f), 0) == Parsed(m)
  {
    hide FieldNum, KindOf, Value64, Step, Print, WellFormed;
    StepOfField(m, f, [], 0);
    assert Print(f) + [] == Print(f);
    assert Print(f)[|Print(f)|..] == [];
    ParseEnd(m, |Print(f)|);
  }
}
