/** The generated message classes of dkvs/pb/dkvs_record.pb.go: fields updated in place, sizes computed
    ahead, fields printed backwards into the sized buffer, and parse loops that switch on field numbers. */
module DkvsPb {
  import opened GoTypes
  import opened Varint
  import opened WireGrammar
  import opened Messages
  import opened Marshal

  class DkvsRecord {
    var Version: uint32
    var ValueType: uint32
    var Value: Slice
    var Signature: Slice
    var ValidityType: int32
    var Validity: uint64
    var Seq: uint64
    var Ttl: uint64
    var PubKey: Slice
    var Data: Slice

    constructor ()
      ensures Contents() == EMPTY_RECORD
    {
      Version, ValueType, Value, Signature, ValidityType := 0, 0, None, None, 0;
      Validity, Seq, Ttl, PubKey, Data := 0, 0, 0, None, None;
    }

    ghost function Contents(): RecordVal
      reads this
    {
      RecordVal(Version, ValueType, Value, Signature, ValidityType, Validity, Seq, Ttl, PubKey, Data)
    }

    ghost function Encoding(): Bytes
      reads this
    {
      Encode(Record(Contents()))
    }

    method Size() returns (n: nat)
      ensures n == |Encoding()|
    {
      hide Sov, Print, PrintAll, U, B, Extend32;
      n := 0;
      n := n + UintSize(Version);
      n := n + UintSize(ValueType);
      n := n + BytesSize(Content(Value));
      n := n + BytesSize(Content(Signature));
      n := n + UintSize(Extend32(ValidityType));
      n := n + UintSize(Validity);
      n := n + UintSize(Seq);
      n := n + UintSize(Ttl);
      n := n + BytesSize(Content(PubKey));
      n := n + BytesSize(Content(Data));
      ghost var fs: seq<Field> := [];
      SizeB(10, Content(Data), fs);
      fs := B(10, Content(Data));
      assert fs + [] == fs;
      SizeB(9, Content(PubKey), fs);
      fs := B(9, Content(PubKey)) + fs;
      SizeU(8, Ttl, fs);
      fs := U(8, Ttl) + fs;
      SizeU(7, Seq, fs);
      fs := U(7, Seq) + fs;
      SizeU(6, Validity, fs);
      fs := U(6, Validity) + fs;
      SizeU(5, Extend32(ValidityType), fs);
      fs := U(5, Extend32(ValidityType)) + fs;
      SizeB(4, Content(Signature), fs);
      fs := B(4, Content(Signature)) + fs;
      SizeB(3, Content(Value), fs);
      fs := B(3, Content(Value)) + fs;
      SizeU(2, ValueType, fs);
      fs := U(2, ValueType) + fs;
      SizeU(1, Version, fs);
      PrintNothing();
    }

    method MarshalToSizedBuffer(dAtA: array<byte>, end: nat) returns (n: nat)
      requires |Encoding()| <= end <= dAtA.Length < TWO63
      modifies dAtA
      ensures n == |Encoding()|
      ensures Printed(old(dAtA[..]), dAtA[..], end - n, end, RecordFields(Contents()))
    {
      hide Printed, Print, PrintAll, U, B, Extend32, Content;
      ghost var was := dAtA[..];
      ghost var f10 := B(10, Content(Data));
      ghost var f9 := B(9, Content(PubKey)) + f10;
      ghost var f8 := U(8, Ttl) + f9;
      ghost var f7 := U(7, Seq) + f8;
      ghost var f6 := U(6, Validity) + f7;
      ghost var f5 := U(5, Extend32(ValidityType)) + f6;
      ghost var f4 := B(4, Content(Signature)) + f5;
      ghost var f3 := B(3, Content(Value)) + f4;
      ghost var f2 := U(2, ValueType) + f3;
      TailFits(U(1, Version), f2, end);
      TailFits(U(2, ValueType), f3, end);
      TailFits(B(3, Content(Value)), f4, end);
      TailFits(B(4, Content(Signature)), f5, end);
      TailFits(U(5, Extend32(ValidityType)), f6, end);
      TailFits(U(6, Validity), f7, end);
      TailFits(U(7, Seq), f8, end);
      TailFits(U(8, Ttl), f9, end);
      TailFits(B(9, Content(PubKey)), f10, end);
      NothingPrinted(was, end);
      var i := end;
      assert f10 + [] == f10;
      i := MarshalBytes(dAtA, i, 10, Content(Data), was, end, []);
      i := MarshalBytes(dAtA, i, 9, Content(PubKey), was, end, f10);
      i := MarshalUint(dAtA, i, 8, Ttl, was, end, f9);
      i := MarshalUint(dAtA, i, 7, Seq, was, end, f8);
      i := MarshalUint(dAtA, i, 6, Validity, was, end, f7);
      i := MarshalUint(dAtA, i, 5, Extend32(ValidityType), was, end, f6);
      i := MarshalBytes(dAtA, i, 4, Content(Signature), was, end, f5);
      i := MarshalBytes(dAtA, i, 3, Content(Value), was, end, f4);
      i := MarshalUint(dAtA, i, 2, ValueType, was, end, f3);
      i := MarshalUint(dAtA, i, 1, Version, was, end, f2);
      PrintedSize(was, dAtA[..], i, end, RecordFields(Contents()));
      n := end - i;
    }

    method Marshal() returns (dAtA: array<byte>)
      requires |Encoding()| < TWO63
      ensures fresh(dAtA) && dAtA[..] == Encoding()
    {
      hide Print, PrintAll;
      var size := Size();
      dAtA := new byte[size](_ => 0);
      var n := MarshalToSizedBuffer(dAtA, size);
      assert n == size && dAtA[..] == dAtA[size - n..size];
    }

    method Unmarshal(dAtA: Bytes) returns (err: Option<WireError>)
      requires |dAtA| < TWO63
      modifies this
      ensures match Parse(Record(old(Contents())), dAtA, 0)
              case Parsed(m) => err == None && Record(Contents()) == m
              case ParseErr(e) => err == Some(e)
    {
      hide StepField, TagAt;
      ghost var whole := Parse(Record(Contents()), dAtA, 0);
      var iNdEx := 0;
      assert dAtA[iNdEx..] == dAtA;
      while iNdEx < |dAtA|
        invariant 0 <= iNdEx <= |dAtA|
        invariant whole == Parse(Record(Contents()), dAtA[iNdEx..], iNdEx)
      {
        var tag := ReadTag(dAtA, iNdEx);
        if tag.BadTag? {
          return Some(tag.error);
        }
        var next;
        err, next := UnmarshalField(dAtA, iNdEx, tag.num, tag.wireType, tag.len);
        if err.Some? {
          return;
        }
        assert dAtA[iNdEx..][next - iNdEx..] == dAtA[next..];
        iNdEx := next;
      }
      err := None;
    }

    /** The switch of the loop in Unmarshal. */
    method UnmarshalField(dAtA: Bytes, preIndex: nat, fieldNum: int32, wireType: nat, tagLen: nat)
      returns (err: Option<WireError>, next: nat)
      requires preIndex + tagLen <= |dAtA| < TWO63 && tagLen > 0
      modifies this
      ensures match StepField(Record(old(Contents())), fieldNum, wireType, tagLen, dAtA[preIndex..], preIndex)
              case Stepped(m, len) => err == None && Record(Contents()) == m && next == preIndex + len
              case StepErr(e) => err == Some(e)
    {
      hide UintAt, BytesAt, UnknownAt, Truncate, ToInt32, Parse, Skip, ScanVarint;
      err, next := None, preIndex + tagLen;
      match fieldNum {
        case 1 | 2 | 5 | 6 | 7 | 8 =>
          err, next := UnmarshalUint(dAtA, preIndex, fieldNum, wireType, tagLen);
        case 3 | 4 | 9 | 10 =>
          err, next := UnmarshalBytes(dAtA, preIndex, fieldNum, wireType, tagLen);
        case _ =>
          var cut := SkipUnknown(dAtA, preIndex);
          if cut.BadCut? {
            return Some(cut.error), next;
          }
          next := preIndex + cut.to;
      }
    }

    /** The cases of the switch for integer fields. */
    method UnmarshalUint(dAtA: Bytes, preIndex: nat, fieldNum: int32, wireType: nat, tagLen: nat)
      returns (err: Option<WireError>, next: nat)
      requires fieldNum in {1, 2, 5, 6, 7, 8}
      requires preIndex + tagLen <= |dAtA| < TWO63 && tagLen > 0
      modifies this
      ensures match StepField(Record(old(Contents())), fieldNum, wireType, tagLen, dAtA[preIndex..], preIndex)
              case Stepped(m, len) => err == None && Record(Contents()) == m && next == preIndex + len
              case StepErr(e) => err == Some(e)
    {
      hide UintAt, BytesAt, UnknownAt, Truncate, ToInt32, Parse, Skip, ScanVarint;
      var iNdEx := preIndex + tagLen;
      assert dAtA[preIndex..][tagLen..] == dAtA[iNdEx..];
      err, next := None, iNdEx;
      match fieldNum {
        case 1 =>
          var v := ReadUint(dAtA, iNdEx, wireType, W32);
          if v.Err? {
            return Some(v.error), next;
          }
          Version := v.raw;
          next := iNdEx + v.len;
        case 2 =>
          var v := ReadUint(dAtA, iNdEx, wireType, W32);
          if v.Err? {
            return Some(v.error), next;
          }
          ValueType := v.raw;
          next := iNdEx + v.len;
        case 5 =>
          var v := ReadUint(dAtA, iNdEx, wireType, W32);
          if v.Err? {
            return Some(v.error), next;
          }
          EnumTruncated(UintAt(dAtA[iNdEx..], wireType).raw);
          ValidityType := ToInt32(v.raw);
          next := iNdEx + v.len;
        case 6 =>
          var v := ReadUint(dAtA, iNdEx, wireType, W64);
          if v.Err? {
            return Some(v.error), next;
          }
          Validity := v.raw;
          next := iNdEx + v.len;
        case 7 =>
          var v := ReadUint(dAtA, iNdEx, wireType, W64);
          if v.Err? {
            return Some(v.error), next;
          }
          Seq := v.raw;
          next := iNdEx + v.len;
        case 8 =>
          var v := ReadUint(dAtA, iNdEx, wireType, W64);
          if v.Err? {
            return Some(v.error), next;
          }
          Ttl := v.raw;
          next := iNdEx + v.len;
      }
    }

    /** The cases for byte fields. */
    method UnmarshalBytes(dAtA: Bytes, preIndex: nat, fieldNum: int32, wireType: nat, tagLen: nat)
      returns (err: Option<WireError>, next: nat)
      requires fieldNum in {3, 4, 9, 10}
      requires preIndex + tagLen <= |dAtA| < TWO63 && tagLen > 0
      modifies this
      ensures match StepField(Record(old(Contents())), fieldNum, wireType, tagLen, dAtA[preIndex..], preIndex)
              case Stepped(m, len) => err == None && Record(Contents()) == m && next == preIndex + len
              case StepErr(e) => err == Some(e)
    {
      hide UintAt, BytesAt, UnknownAt, Truncate, ToInt32, Parse, Skip, ScanVarint;
      var iNdEx := preIndex + tagLen;
      assert dAtA[preIndex..][tagLen..] == dAtA[iNdEx..];
      err, next := None, iNdEx;
      match fieldNum {
        case 3 =>
          var cut, p := ReadBytes(dAtA, iNdEx, wireType);
          if cut.BadCut? {
            return Some(cut.error), next;
          }
          Value := Some(p);
          next := iNdEx + cut.to;
        case 4 =>
          var cut, p := ReadBytes(dAtA, iNdEx, wireType);
          if cut.BadCut? {
            return Some(cut.error), next;
          }
          Signature := Some(p);
          next := iNdEx + cut.to;
        case 9 =>
          var cut, p := ReadBytes(dAtA, iNdEx, wireType);
          if cut.BadCut? {
            return Some(cut.error), next;
          }
          PubKey := Some(p);
          next := iNdEx + cut.to;
        case 10 =>
          var cut, p := ReadBytes(dAtA, iNdEx, wireType);
          if cut.BadCut? {
            return Some(cut.error), next;
          }
          Data := Some(p);
          next := iNdEx + cut.to;
      }
    }
  }

  class Cert {
    var Version: uint32
    var Name: Bytes
    var Type: uint32
    var SubType: uint32
    var UserPubkey: Slice
    var Data: Slice
    var IssueTime: uint64
    var Ttl: uint64
    var IssuerPubkey: Slice
    var IssuerSign: Slice

    constructor ()
      ensures Contents() == EMPTY_CERT
    {
      Version, Name, Type, SubType, UserPubkey := 0, [], 0, 0, None;
      Data, IssueTime, Ttl, IssuerPubkey, IssuerSign := None, 0, 0, None, None;
    }

    ghost function Contents(): CertVal
      reads this
    {
      CertVal(Version, Name, Type, SubType, UserPubkey, Data, IssueTime, Ttl, IssuerPubkey, IssuerSign)
    }

    ghost function Encoding(): Bytes
      reads this
    {
      Encode(Messages.Cert(Contents()))
    }

    method Size() returns (n: nat)
      ensures n == |Encoding()|
    {
      hide Sov, Print, PrintAll, U, B, Extend32;
      n := 0;
      n := n + UintSize(Version);
      n := n + BytesSize(Name);
      n := n + UintSize(Type);
      n := n + UintSize(SubType);
      n := n + BytesSize(Content(UserPubkey));
      n := n + BytesSize(Content(Data));
      n := n + UintSize(IssueTime);
      n := n + UintSize(Ttl);
      n := n + BytesSize(Content(IssuerPubkey));
      n := n + BytesSize(Content(IssuerSign));
      ghost var fs: seq<Field> := [];
      SizeB(11, Content(IssuerSign), fs);
      fs := B(11, Content(IssuerSign));
      assert fs + [] == fs;
      SizeB(10, Content(IssuerPubkey), fs);
      fs := B(10, Content(IssuerPubkey)) + fs;
      SizeU(8, Ttl, fs);
      fs := U(8, Ttl) + fs;
      SizeU(7, IssueTime, fs);
      fs := U(7, IssueTime) + fs;
      SizeB(6, Content(Data), fs);
      fs := B(6, Content(Data)) + fs;
      SizeB(5, Content(UserPubkey), fs);
      fs := B(5, Content(UserPubkey)) + fs;
      SizeU(4, SubType, fs);
      fs := U(4, SubType) + fs;
      SizeU(3, Type, fs);
      fs := U(3, Type) + fs;
      SizeB(2, Name, fs);
      fs := B(2, Name) + fs;
      SizeU(1, Version, fs);
      PrintNothing();
    }

    method MarshalToSizedBuffer(dAtA: array<byte>, end: nat) returns (n: nat)
      requires |Encoding()| <= end <= dAtA.Length < TWO63
      modifies dAtA
      ensures n == |Encoding()|
      ensures Printed(old(dAtA[..]), dAtA[..], end - n, end, CertFields(Contents()))
    {
      hide Printed, Print, PrintAll, U, B, Extend32, Content;
      ghost var was := dAtA[..];
      ghost var f10 := B(11, Content(IssuerSign));
      ghost var f9 := B(10, Content(IssuerPubkey)) + f10;
      ghost var f8 := U(8, Ttl) + f9;
      ghost var f7 := U(7, IssueTime) + f8;
      ghost var f6 := B(6, Content(Data)) + f7;
      ghost var f5 := B(5, Content(UserPubkey)) + f6;
      ghost var f4 := U(4, SubType) + f5;
      ghost var f3 := U(3, Type) + f4;
      ghost var f2 := B(2, Name) + f3;
      TailFits(U(1, Version), f2, end);
      TailFits(B(2, Name), f3, end);
      TailFits(U(3, Type), f4, end);
      TailFits(U(4, SubType), f5, end);
      TailFits(B(5, Content(UserPubkey)), f6, end);
      TailFits(B(6, Content(Data)), f7, end);
      TailFits(U(7, IssueTime), f8, end);
      TailFits(U(8, Ttl), f9, end);
      TailFits(B(10, Content(IssuerPubkey)), f10, end);
      NothingPrinted(was, end);
      var i := end;
      assert f10 + [] == f10;
      i := MarshalBytes(dAtA, i, 11, Content(IssuerSign), was, end, []);
      i := MarshalBytes(dAtA, i, 10, Content(IssuerPubkey), was, end, f10);
      i := MarshalUint(dAtA, i, 8, Ttl, was, end, f9);
      i := MarshalUint(dAtA, i, 7, IssueTime, was, end, f8);
      i := MarshalBytes(dAtA, i, 6, Content(Data), was, end, f7);
      i := MarshalBytes(dAtA, i, 5, Content(UserPubkey), was, end, f6);
      i := MarshalUint(dAtA, i, 4, SubType, was, end, f5);
      i := MarshalUint(dAtA, i, 3, Type, was, end, f4);
      i := MarshalBytes(dAtA, i, 2, Name, was, end, f3);
      i := MarshalUint(dAtA, i, 1, Version, was, end, f2);
      PrintedSize(was, dAtA[..], i, end, CertFields(Contents()));
      n := end - i;
    }

    method Marshal() returns (dAtA: array<byte>)
      requires |Encoding()| < TWO63
      ensures fresh(dAtA) && dAtA[..] == Encoding()
    {
      hide Print, PrintAll;
      var size := Size();
      dAtA := new byte[size](_ => 0);
      var n := MarshalToSizedBuffer(dAtA, size);
      assert n == size && dAtA[..] == dAtA[size - n..size];
    }

    method Unmarshal(dAtA: Bytes) returns (err: Option<WireError>)
      requires |dAtA| < TWO63
      modifies this
      ensures match Parse(Messages.Cert(old(Contents())), dAtA, 0)
              case Parsed(m) => err == None && Messages.Cert(Contents()) == m
              case ParseErr(e) => err == Some(e)
    {
      hide StepField, TagAt;
      ghost var whole := Parse(Messages.Cert(Contents()), dAtA, 0);
      var iNdEx := 0;
      assert dAtA[iNdEx..] == dAtA;
      while iNdEx < |dAtA|
        invariant 0 <= iNdEx <= |dAtA|
        invariant whole == Parse(Messages.Cert(Contents()), dAtA[iNdEx..], iNdEx)
      {
        var tag := ReadTag(dAtA, iNdEx);
        if tag.BadTag? {
          return Some(tag.error);
        }
        var next;
        err, next := UnmarshalField(dAtA, iNdEx, tag.num, tag.wireType, tag.len);
        if err.Some? {
          return;
        }
        assert dAtA[iNdEx..][next - iNdEx..] == dAtA[next..];
        iNdEx := next;
      }
      err := None;
    }

    /** The switch of the loop in Unmarshal. */
    method UnmarshalField(dAtA: Bytes, preIndex: nat, fieldNum: int32, wireType: nat, tagLen: nat)
      returns (err: Option<WireError>, next: nat)
      requires preIndex + tagLen <= |dAtA| < TWO63 && tagLen > 0
      modifies this
      ensures match StepField(Messages.Cert(old(Contents())), fieldNum, wireType, tagLen, dAtA[preIndex..], preIndex)
              case Stepped(m, len) => err == None && Messages.Cert(Contents()) == m && next == preIndex + len
              case StepErr(e) => err == Some(e)
    {
      hide UintAt, BytesAt, UnknownAt, Truncate, ToInt32, Parse, Skip, ScanVarint;
      err, next := None, preIndex + tagLen;
      match fieldNum {
        case 1 | 3 | 4 | 7 | 8 =>
          err, next := UnmarshalUint(dAtA, preIndex, fieldNum, wireType, tagLen);
        case 2 | 5 | 6 | 10 | 11 =>
          err, next := UnmarshalBytes(dAtA, preIndex, fieldNum, wireType, tagLen);
        case _ =>
          var cut := SkipUnknown(dAtA, preIndex);
          if cut.BadCut? {
            return Some(cut.error), next;
          }
          next := preIndex + cut.to;
      }
    }

    /** The cases of the switch for integer fields. */
    method UnmarshalUint(dAtA: Bytes, preIndex: nat, fieldNum: int32, wireType: nat, tagLen: nat)
      returns (err: Option<WireError>, next: nat)
      requires fieldNum in {1, 3, 4, 7, 8}
      requires preIndex + tagLen <= |dAtA| < TWO63 && tagLen > 0
      modifies this
      ensures match StepField(Messages.Cert(old(Contents())), fieldNum, wireType, tagLen, dAtA[preIndex..], preIndex)
              case Stepped(m, len) => err == None && Messages.Cert(Contents()) == m && next == preIndex + len
              case StepErr(e) => err == Some(e)
    {
      hide UintAt, BytesAt, UnknownAt, Truncate, ToInt32, Parse, Skip, ScanVarint;
      var iNdEx := preIndex + tagLen;
      assert dAtA[preIndex..][tagLen..] == dAtA[iNdEx..];
      err, next := None, iNdEx;
      match fieldNum {
        case 1 =>
          var v := ReadUint(dAtA, iNdEx, wireType, W32);
          if v.Err? {
            return Some(v.error), next;
          }
          Version := v.raw;
          next := iNdEx + v.len;
        case 3 =>
          var v := ReadUint(dAtA, iNdEx, wireType, W32);
          if v.Err? {
            return Some(v.error), next;
          }
          Type := v.raw;
          next := iNdEx + v.len;
        case 4 =>
          var v := ReadUint(dAtA, iNdEx, wireType, W32);
          if v.Err? {
            return Some(v.error), next;
          }
          SubType := v.raw;
          next := iNdEx + v.len;
        case 7 =>
          var v := ReadUint(dAtA, iNdEx, wireType, W64);
          if v.Err? {
            return Some(v.error), next;
          }
          IssueTime := v.raw;
          next := iNdEx + v.len;
        case 8 =>
          var v := ReadUint(dAtA, iNdEx, wireType, W64);
          if v.Err? {
            return Some(v.error), next;
          }
          Ttl := v.raw;
          next := iNdEx + v.len;
      }
    }

    /** The cases for byte fields. */
    method UnmarshalBytes(dAtA: Bytes, preIndex: nat, fieldNum: int32, wireType: nat, tagLen: nat)
      returns (err: Option<WireError>, next: nat)
      requires fieldNum in {2, 5, 6, 10, 11}
      requires preIndex + tagLen <= |dAtA| < TWO63 && tagLen > 0
      modifies this
      ensures match StepField(Messages.Cert(old(Contents())), fieldNum, wireType, tagLen, dAtA[preIndex..], preIndex)
              case Stepped(m, len) => err == None && Messages.Cert(Contents()) == m && next == preIndex + len
              case StepErr(e) => err == Some(e)
    {
      hide UintAt, BytesAt, UnknownAt, Truncate, ToInt32, Parse, Skip, ScanVarint;
      var iNdEx := preIndex + tagLen;
      assert dAtA[preIndex..][tagLen..] == dAtA[iNdEx..];
      err, next := None, iNdEx;
      match fieldNum {
        case 2 =>
          var cut, p := ReadBytes(dAtA, iNdEx, wireType);
          if cut.BadCut? {
            return Some(cut.error), next;
          }
          Name := p;
          next := iNdEx + cut.to;
        case 5 =>
          var cut, p := ReadBytes(dAtA, iNdEx, wireType);
          if cut.BadCut? {
            return Some(cut.error), next;
          }
          UserPubkey := Some(p);
          next := iNdEx + cut.to;
        case 6 =>
          var cut, p := ReadBytes(dAtA, iNdEx, wireType);
          if cut.BadCut? {
            return Some(cut.error), next;
          }
          Data := Some(p);
          next := iNdEx + cut.to;
        case 10 =>
          var cut, p := ReadBytes(dAtA, iNdEx, wireType);
          if cut.BadCut? {
            return Some(cut.error), next;
          }
          IssuerPubkey := Some(p);
          next := iNdEx + cut.to;
        case 11 =>
          var cut, p := ReadBytes(dAtA, iNdEx, wireType);
          if cut.BadCut? {
            return Some(cut.error), next;
          }
          IssuerSign := Some(p);
          next := iNdEx + cut.to;
      }
    }
  }

  class CertsRecordValue {
    var PrevBundleAdrr: Bytes
    var UserData: Slice
    var CertVect: seq<Cert>

    constructor ()
      ensures Contents() == EMPTY_CERTS && CertVect == []
    {
      PrevBundleAdrr, UserData, CertVect := [], None, [];
    }

    ghost function Contents(): CertsVal
      reads this, CertVect
    {
      CertsVal(PrevBundleAdrr, UserData, Values(CertVect))
    }

    ghost function Encoding(): Bytes
      reads this, CertVect
    {
      Encode(Certs(Contents()))
    }

    method Size() returns (n: nat)
      ensures n == |Encoding()|
    {
      hide Sov, Print, PrintAll, U, B, CertFields, EncodeCert, CertVectFields;
      n := BytesSize(PrevBundleAdrr) + BytesSize(Content(UserData));
      ghost var cs := Values(CertVect);
      SizeB(2, Content(UserData), CertVectFields(cs));
      SizeB(1, PrevBundleAdrr, B(2, Content(UserData)) + CertVectFields(cs));
      assert cs[0..] == cs;
      for k := 0 to |CertVect|
        invariant n + |PrintAll(CertVectFields(cs[k..]))| == |Encoding()|
      {
        var l := CertVect[k].Size();
        assert l == |EncodeCert(cs[k])| by { EncodingIs(CertVect[k]); }
        VectSize(cs, k);
        n := n + 1 + l + Sov(l);
      }
      VectEnds(cs);
    }

    /** The loop over CertVect, last certificate first. */
    method MarshalCerts(dAtA: array<byte>, end: nat) returns (i: nat)
      requires end <= dAtA.Length < TWO63 && |PrintAll(CertVectFields(Values(CertVect)))| <= end
      modifies dAtA
      ensures Printed(old(dAtA[..]), dAtA[..], i, end, CertVectFields(Values(CertVect)))
    {
      hide Printed, Sov, Print, PrintAll, CertFields;
      i := end;
      ghost var was, cs := dAtA[..], Values(CertVect);
      NothingPrinted(was, end);
      assert CertVectFields(cs[|cs|..]) == [];
      var iNdEx := |CertVect|;
      while iNdEx > 0
        invariant 0 <= iNdEx <= |CertVect|
        invariant Printed(was, dAtA[..], i, end, CertVectFields(cs[iNdEx..]))
      {
        iNdEx := iNdEx - 1;
        assert cs[iNdEx..][1..] == cs[iNdEx + 1..];
        VectFits(cs, iNdEx, end);
        i := MarshalCert(CertVect[iNdEx], dAtA, i, was, end, CertVectFields(cs[iNdEx + 1..]));
      }
      assert cs[0..] == cs;
    }

    method MarshalToSizedBuffer(dAtA: array<byte>, end: nat) returns (n: nat)
      requires |Encoding()| <= end <= dAtA.Length < TWO63
      modifies dAtA
      ensures n == |Encoding()|
      ensures Printed(old(dAtA[..]), dAtA[..], end - n, end, CertsFields(Contents()))
    {
      hide Printed, Print, PrintAll, U, B, CertVectFields, Content;
      ghost var was := dAtA[..];
      ghost var f3 := CertVectFields(Values(CertVect));
      ghost var f2 := B(2, Content(UserData)) + f3;
      TailFits(B(1, PrevBundleAdrr), f2, end);
      TailFits(B(2, Content(UserData)), f3, end);
      var i := MarshalCerts(dAtA, end);
      i := MarshalBytes(dAtA, i, 2, Content(UserData), was, end, f3);
      i := MarshalBytes(dAtA, i, 1, PrevBundleAdrr, was, end, f2);
      PrintedSize(was, dAtA[..], i, end, CertsFields(Contents()));
      n := end - i;
    }

    method Marshal() returns (dAtA: array<byte>)
      requires |Encoding()| < TWO63
      ensures fresh(dAtA) && dAtA[..] == Encoding()
    {
      hide Print, PrintAll;
      var size := Size();
      dAtA := new byte[size](_ => 0);
      var n := MarshalToSizedBuffer(dAtA, size);
      assert n == size && dAtA[..] == dAtA[size - n..size];
    }

    method Unmarshal(dAtA: Bytes) returns (err: Option<WireError>)
      requires |dAtA| < TWO63
      modifies this
      ensures fresh(set c | c in CertVect && c !in old(CertVect))
      ensures match Parse(Certs(old(Contents())), dAtA, 0)
              case Parsed(m) => err == None && Certs(Contents()) == m
              case ParseErr(e) => err == Some(e)
    {
      hide StepField, TagAt;
      ghost var whole := Parse(Certs(Contents()), dAtA, 0);
      var iNdEx := 0;
      assert dAtA[iNdEx..] == dAtA;
      while iNdEx < |dAtA|
        invariant 0 <= iNdEx <= |dAtA|
        invariant fresh(set c | c in CertVect && c !in old(CertVect))
        invariant whole == Parse(Certs(Contents()), dAtA[iNdEx..], iNdEx)
      {
        var tag := ReadTag(dAtA, iNdEx);
        if tag.BadTag? {
          return Some(tag.error);
        }
        var next;
        err, next := UnmarshalField(dAtA, iNdEx, tag.num, tag.wireType, tag.len);
        if err.Some? {
          return;
        }
        assert dAtA[iNdEx..][next - iNdEx..] == dAtA[next..];
        iNdEx := next;
      }
      err := None;
    }

    /** The switch of the loop in Unmarshal. */
    method UnmarshalField(dAtA: Bytes, preIndex: nat, fieldNum: int32, wireType: nat, tagLen: nat)
      returns (err: Option<WireError>, next: nat)
      requires preIndex + tagLen <= |dAtA| < TWO63 && tagLen > 0
      modifies this
      ensures fresh(set c | c in CertVect && c !in old(CertVect))
      ensures match StepField(Certs(old(Contents())), fieldNum, wireType, tagLen, dAtA[preIndex..], preIndex)
              case Stepped(m, len) => err == None && Certs(Contents()) == m && next == preIndex + len
              case StepErr(e) => err == Some(e)
    {
      hide UintAt, BytesAt, UnknownAt, Truncate, ToInt32, Parse, ScanVarint;
      var iNdEx := preIndex + tagLen;
      assert dAtA[preIndex..][tagLen..] == dAtA[iNdEx..];
      err, next := None, iNdEx;
      match fieldNum {
        case 1 =>
          var cut, p := ReadBytes(dAtA, iNdEx, wireType);
          if cut.BadCut? {
            return Some(cut.error), next;
          }
          PrevBundleAdrr := p;
          next := iNdEx + cut.to;
        case 2 =>
          var cut, p := ReadBytes(dAtA, iNdEx, wireType);
          if cut.BadCut? {
            return Some(cut.error), next;
          }
          UserData := Some(p);
          next := iNdEx + cut.to;
        case 3 =>
          var cut, p := ReadBytes(dAtA, iNdEx, wireType);
          if cut.BadCut? {
            return Some(cut.error), next;
          }
          var c := new Cert();
          CertVect := CertVect + [c];
          err := c.Unmarshal(p);
          if err.Some? {
            return;
          }
          next := iNdEx + cut.to;
          assert Values(CertVect) == old(Values(CertVect)) + [c.Contents()];
        case _ =>
          var cut := SkipUnknown(dAtA, preIndex);
          if cut.BadCut? {
            return Some(cut.error), next;
          }
          next := preIndex + cut.to;
      }
    }
  }

  lemma EncodingIs(c: Cert)
    ensures c.Encoding() == EncodeCert(c.Contents())
  {
  }

  lemma VectSize(cs: seq<CertVal>, k: nat)
    requires k < |cs|
    ensures var p := EncodeCert(cs[k]);
            |PrintAll(CertVectFields(cs[k..]))| == 1 + |p| + Sov(|p|) + |PrintAll(CertVectFields(cs[k + 1..]))|
  {
    hide Sov, Print, PrintAll, CertFields, EncodeCert;
    assert cs[k..][1..] == cs[k + 1..];
    SizeField(3, EncodeCert(cs[k]), CertVectFields(cs[k + 1..]));
  }

  lemma VectEnds(cs: seq<CertVal>)
    ensures PrintAll(CertVectFields(cs[|cs|..])) == []
  {
    assert cs[|cs|..] == [];
    PrintNothing();
  }

  ghost function Values(cs: seq<Cert>): seq<CertVal>
    reads cs
  {
    seq(|cs|, i requires 0 <= i < |cs| reads cs => cs[i].Contents())
  }

  /** One nested certificate, with its length and tag in front. */
  method MarshalCert(c: Cert, dAtA: array<byte>, i: nat, ghost was: Bytes, ghost end: nat, ghost fs: seq<Field>)
    returns (j: nat)
    requires Printed(was, dAtA[..], i, end, fs) && dAtA.Length < TWO63
    requires |PrintAll([BytesField(3, EncodeCert(c.Contents()))] + fs)| <= end
    modifies dAtA
    ensures Printed(was, dAtA[..], j, end, [BytesField(3, EncodeCert(c.Contents()))] + fs)
  {
    hide Printed, Sov, Print, PrintAll, EncVarint, CertFields;
    ghost var before, p := dAtA[..], EncodeCert(c.Contents());
    BytesRoom(3, p, was, before, i, end, fs);
    var size := c.MarshalToSizedBuffer(dAtA, i);
    j := i - size;
    PrintedParts(before, dAtA[..], j, i, CertFields(c.Contents()));
    j := PutLengthAndTag(dAtA, j, i, 3, before);
    PrintedMore(was, before, dAtA[..], i, j, end, fs, BytesField(3, p));
  }

  lemma PrintedParts(was: Bytes, now: Bytes, i: nat, end: nat, fs: seq<Field>)
    requires Printed(was, now, i, end, fs)
    ensures i <= end <= |now| == |was|
    ensures now[i..end] == PrintAll(fs) && now[..i] == was[..i] && now[end..] == was[end..]
  {
  }

  lemma {:induction false} VectFits(cs: seq<CertVal>, k: nat, size: nat)
    requires k <= |cs| && |PrintAll(CertVectFields(cs))| <= size
    ensures |PrintAll(CertVectFields(cs[k..]))| <= size
  {
    hide Print, PrintAll, EncodeCert;
    if k == 0 {
      assert cs[k..] == cs;
    } else {
      TailFits([BytesField(3, EncodeCert(cs[0]))], CertVectFields(cs[1..]), size);
      VectFits(cs[1..], k - 1, size);
      assert cs[1..][k - 1..] == cs[k..];
    }
  }

  class CertDataTransferPrepare {
    var Key: Bytes
    var Fee: uint64

    constructor ()
      ensures Contents() == EMPTY_PREPARE
    {
      Key, Fee := [], 0;
    }

    ghost function Contents(): PrepareVal
      reads this
    {
      PrepareVal(Key, Fee)
    }

    ghost function Encoding(): Bytes
      reads this
    {
      Encode(Prepare(Contents()))
    }

    method Size() returns (n: nat)
      ensures n == |Encoding()|
    {
      hide Sov, Print, PrintAll, U, B, Extend32;
      n := 0;
      n := n + BytesSize(Key);
      n := n + UintSize(Fee);
      ghost var fs: seq<Field> := [];
      SizeU(2, Fee, fs);
      fs := U(2, Fee);
      assert fs + [] == fs;
      SizeB(1, Key, fs);
      PrintNothing();
    }

    method MarshalToSizedBuffer(dAtA: array<byte>, end: nat) returns (n: nat)
      requires |Encoding()| <= end <= dAtA.Length < TWO63
      modifies dAtA
      ensures n == |Encoding()|
      ensures Printed(old(dAtA[..]), dAtA[..], end - n, end, PrepareFields(Contents()))
    {
      hide Printed, Print, PrintAll, U, B, Extend32, Content;
      ghost var was := dAtA[..];
      ghost var f2 := U(2, Fee);
      TailFits(B(1, Key), f2, end);
      NothingPrinted(was, end);
      var i := end;
      assert f2 + [] == f2;
      i := MarshalUint(dAtA, i, 2, Fee, was, end, []);
      i := MarshalBytes(dAtA, i, 1, Key, was, end, f2);
      PrintedSize(was, dAtA[..], i, end, PrepareFields(Contents()));
      n := end - i;
    }

    method Marshal() returns (dAtA: array<byte>)
      requires |Encoding()| < TWO63
      ensures fresh(dAtA) && dAtA[..] == Encoding()
    {
      hide Print, PrintAll;
      var size := Size();
      dAtA := new byte[size](_ => 0);
      var n := MarshalToSizedBuffer(dAtA, size);
      assert n == size && dAtA[..] == dAtA[size - n..size];
    }

    method Unmarshal(dAtA: Bytes) returns (err: Option<WireError>)
      requires |dAtA| < TWO63
      modifies this
      ensures match Parse(Prepare(old(Contents())), dAtA, 0)
              case Parsed(m) => err == None && Prepare(Contents()) == m
              case ParseErr(e) => err == Some(e)
    {
      hide StepField, TagAt;
      ghost var whole := Parse(Prepare(Contents()), dAtA, 0);
      var iNdEx := 0;
      assert dAtA[iNdEx..] == dAtA;
      while iNdEx < |dAtA|
        invariant 0 <= iNdEx <= |dAtA|
        invariant whole == Parse(Prepare(Contents()), dAtA[iNdEx..], iNdEx)
      {
        var tag := ReadTag(dAtA, iNdEx);
        if tag.BadTag? {
          return Some(tag.error);
        }
        var next;
        err, next := UnmarshalField(dAtA, iNdEx, tag.num, tag.wireType, tag.len);
        if err.Some? {
          return;
        }
        assert dAtA[iNdEx..][next - iNdEx..] == dAtA[next..];
        iNdEx := next;
      }
      err := None;
    }

    /** The switch of the loop in Unmarshal. */
    method UnmarshalField(dAtA: Bytes, preIndex: nat, fieldNum: int32, wireType: nat, tagLen: nat)
      returns (err: Option<WireError>, next: nat)
      requires preIndex + tagLen <= |dAtA| < TWO63 && tagLen > 0
      modifies this
      ensures match StepField(Prepare(old(Contents())), fieldNum, wireType, tagLen, dAtA[preIndex..], preIndex)
              case Stepped(m, len) => err == None && Prepare(Contents()) == m && next == preIndex + len
              case StepErr(e) => err == Some(e)
    {
      hide UintAt, BytesAt, UnknownAt, Truncate, ToInt32, Parse, Skip, ScanVarint;
      var iNdEx := preIndex + tagLen;
      assert dAtA[preIndex..][tagLen..] == dAtA[iNdEx..];
      err, next := None, iNdEx;
      match fieldNum {
        case 1 =>
          var cut, p := ReadBytes(dAtA, iNdEx, wireType);
          if cut.BadCut? {
            return Some(cut.error), next;
          }
          Key := p;
          next := iNdEx + cut.to;
        case 2 =>
          var v := ReadUint(dAtA, iNdEx, wireType, W64);
          if v.Err? {
            return Some(v.error), next;
          }
          Fee := v.raw;
          next := iNdEx + v.len;
        case _ =>
          var cut := SkipUnknown(dAtA, preIndex);
          if cut.BadCut? {
            return Some(cut.error), next;
          }
          next := preIndex + cut.to;
      }
    }
  }

  class CertDataTxCompleted {
    var Key: Bytes
    var Tx: Bytes
    var Fee: uint64
    var Senderkey: Slice
    var Receiverkey: Slice

    constructor ()
      ensures Contents() == EMPTY_COMPLETED
    {
      Key, Tx, Fee, Senderkey, Receiverkey := [], [], 0, None, None;
    }

    ghost function Contents(): CompletedVal
      reads this
    {
      CompletedVal(Key, Tx, Fee, Senderkey, Receiverkey)
    }

    ghost function Encoding(): Bytes
      reads this
    {
      Encode(Completed(Contents()))
    }

    method Size() returns (n: nat)
      ensures n == |Encoding()|
    {
      hide Sov, Print, PrintAll, U, B, Extend32;
      n := 0;
      n := n + BytesSize(Key);
      n := n + BytesSize(Tx);
      n := n + UintSize(Fee);
      n := n + BytesSize(Content(Senderkey));
      n := n + BytesSize(Content(Receiverkey));
      ghost var fs: seq<Field> := [];
      SizeB(5, Content(Receiverkey), fs);
      fs := B(5, Content(Receiverkey));
      assert fs + [] == fs;
      SizeB(4, Content(Senderkey), fs);
      fs := B(4, Content(Senderkey)) + fs;
      SizeU(3, Fee, fs);
      fs := U(3, Fee) + fs;
      SizeB(2, Tx, fs);
      fs := B(2, Tx) + fs;
      SizeB(1, Key, fs);
      PrintNothing();
    }

    method MarshalToSizedBuffer(dAtA: array<byte>, end: nat) returns (n: nat)
      requires |Encoding()| <= end <= dAtA.Length < TWO63
      modifies dAtA
      ensures n == |Encoding()|
      ensures Printed(old(dAtA[..]), dAtA[..], end - n, end, CompletedFields(Contents()))
    {
      hide Printed, Print, PrintAll, U, B, Extend32, Content;
      ghost var was := dAtA[..];
      ghost var f5 := B(5, Content(Receiverkey));
      ghost var f4 := B(4, Content(Senderkey)) + f5;
      ghost var f3 := U(3, Fee) + f4;
      ghost var f2 := B(2, Tx) + f3;
      TailFits(B(1, Key), f2, end);
      TailFits(B(2, Tx), f3, end);
      TailFits(U(3, Fee), f4, end);
      TailFits(B(4, Content(Senderkey)), f5, end);
      NothingPrinted(was, end);
      var i := end;
      assert f5 + [] == f5;
      i := MarshalBytes(dAtA, i, 5, Content(Receiverkey), was, end, []);
      i := MarshalBytes(dAtA, i, 4, Content(Senderkey), was, end, f5);
      i := MarshalUint(dAtA, i, 3, Fee, was, end, f4);
      i := MarshalBytes(dAtA, i, 2, Tx, was, end, f3);
      i := MarshalBytes(dAtA, i, 1, Key, was, end, f2);
      PrintedSize(was, dAtA[..], i, end, CompletedFields(Contents()));
      n := end - i;
    }

    method Marshal() returns (dAtA: array<byte>)
      requires |Encoding()| < TWO63
      ensures fresh(dAtA) && dAtA[..] == Encoding()
    {
      hide Print, PrintAll;
      var size := Size();
      dAtA := new byte[size](_ => 0);
      var n := MarshalToSizedBuffer(dAtA, size);
      assert n == size && dAtA[..] == dAtA[size - n..size];
    }

    method Unmarshal(dAtA: Bytes) returns (err: Option<WireError>)
      requires |dAtA| < TWO63
      modifies this
      ensures match Parse(Completed(old(Contents())), dAtA, 0)
              case Parsed(m) => err == None && Completed(Contents()) == m
              case ParseErr(e) => err == Some(e)
    {
      hide StepField, TagAt;
      ghost var whole := Parse(Completed(Contents()), dAtA, 0);
      var iNdEx := 0;
      assert dAtA[iNdEx..] == dAtA;
      while iNdEx < |dAtA|
        invariant 0 <= iNdEx <= |dAtA|
        invariant whole == Parse(Completed(Contents()), dAtA[iNdEx..], iNdEx)
      {
        var tag := ReadTag(dAtA, iNdEx);
        if tag.BadTag? {
          return Some(tag.error);
        }
        var next;
        err, next := UnmarshalField(dAtA, iNdEx, tag.num, tag.wireType, tag.len);
        if err.Some? {
          return;
        }
        assert dAtA[iNdEx..][next - iNdEx..] == dAtA[next..];
        iNdEx := next;
      }
      err := None;
    }

    /** The switch of the loop in Unmarshal. */
    method UnmarshalField(dAtA: Bytes, preIndex: nat, fieldNum: int32, wireType: nat, tagLen: nat)
      returns (err: Option<WireError>, next: nat)
      requires preIndex + tagLen <= |dAtA| < TWO63 && tagLen > 0
      modifies this
      ensures match StepField(Completed(old(Contents())), fieldNum, wireType, tagLen, dAtA[preIndex..], preIndex)
              case Stepped(m, len) => err == None && Completed(Contents()) == m && next == preIndex + len
              case StepErr(e) => err == Some(e)
    {
      hide UintAt, BytesAt, UnknownAt, Truncate, ToInt32, Parse, Skip, ScanVarint;
      var iNdEx := preIndex + tagLen;
      assert dAtA[preIndex..][tagLen..] == dAtA[iNdEx..];
      err, next := None, iNdEx;
      match fieldNum {
        case 1 =>
          var cut, p := ReadBytes(dAtA, iNdEx, wireType);
          if cut.BadCut? {
            return Some(cut.error), next;
          }
          Key := p;
          next := iNdEx + cut.to;
        case 2 =>
          var cut, p := ReadBytes(dAtA, iNdEx, wireType);
          if cut.BadCut? {
            return Some(cut.error), next;
          }
          Tx := p;
          next := iNdEx + cut.to;
        case 3 =>
          var v := ReadUint(dAtA, iNdEx, wireType, W64);
          if v.Err? {
            return Some(v.error), next;
          }
          Fee := v.raw;
          next := iNdEx + v.len;
        case 4 =>
          var cut, p := ReadBytes(dAtA, iNdEx, wireType);
          if cut.BadCut? {
            return Some(cut.error), next;
          }
          Senderkey := Some(p);
          next := iNdEx + cut.to;
        case 5 =>
          var cut, p := ReadBytes(dAtA, iNdEx, wireType);
          if cut.BadCut? {
            return Some(cut.error), next;
          }
          Receiverkey := Some(p);
          next := iNdEx + cut.to;
        case _ =>
          var cut := SkipUnknown(dAtA, preIndex);
          if cut.BadCut? {
            return Some(cut.error), next;
          }
          next := preIndex + cut.to;
      }
    }
  }

  class SimpleContractIssueToken {
    var Name: Bytes
    var MaxScore: uint64
    var ReceiverKey: Slice
    var UserData: Slice

    constructor ()
      ensures Contents() == EMPTY_TOKEN
    {
      Name, MaxScore, ReceiverKey, UserData := [], 0, None, None;
    }

    ghost function Contents(): TokenVal
      reads this
    {
      TokenVal(Name, MaxScore, ReceiverKey, UserData)
    }

    ghost function Encoding(): Bytes
      reads this
    {
      Encode(Token(Contents()))
    }

    method Size() returns (n: nat)
      ensures n == |Encoding()|
    {
      hide Sov, Print, PrintAll, U, B, Extend32;
      n := 0;
      n := n + BytesSize(Name);
      n := n + UintSize(MaxScore);
      n := n + BytesSize(Content(ReceiverKey));
      n := n + BytesSize(Content(UserData));
      ghost var fs: seq<Field> := [];
      SizeB(5, Content(UserData), fs);
      fs := B(5, Content(UserData));
      assert fs + [] == fs;
      SizeB(4, Content(ReceiverKey), fs);
      fs := B(4, Content(ReceiverKey)) + fs;
      SizeU(2, MaxScore, fs);
      fs := U(2, MaxScore) + fs;
      SizeB(1, Name, fs);
      PrintNothing();
    }

    method MarshalToSizedBuffer(dAtA: array<byte>, end: nat) returns (n: nat)
      requires |Encoding()| <= end <= dAtA.Length < TWO63
      modifies dAtA
      ensures n == |Encoding()|
      ensures Printed(old(dAtA[..]), dAtA[..], end - n, end, TokenFields(Contents()))
    {
      hide Printed, Print, PrintAll, U, B, Extend32, Content;
      ghost var was := dAtA[..];
      ghost var f4 := B(5, Content(UserData));
      ghost var f3 := B(4, Content(ReceiverKey)) + f4;
      ghost var f2 := U(2, MaxScore) + f3;
      TailFits(B(1, Name), f2, end);
      TailFits(U(2, MaxScore), f3, end);
      TailFits(B(4, Content(ReceiverKey)), f4, end);
      NothingPrinted(was, end);
      var i := end;
      assert f4 + [] == f4;
      i := MarshalBytes(dAtA, i, 5, Content(UserData), was, end, []);
      i := MarshalBytes(dAtA, i, 4, Content(ReceiverKey), was, end, f4);
      i := MarshalUint(dAtA, i, 2, MaxScore, was, end, f3);
      i := MarshalBytes(dAtA, i, 1, Name, was, end, f2);
      PrintedSize(was, dAtA[..], i, end, TokenFields(Contents()));
      n := end - i;
    }

    method Marshal() returns (dAtA: array<byte>)
      requires |Encoding()| < TWO63
      ensures fresh(dAtA) && dAtA[..] == Encoding()
    {
      hide Print, PrintAll;
      var size := Size();
      dAtA := new byte[size](_ => 0);
      var n := MarshalToSizedBuffer(dAtA, size);
      assert n == size && dAtA[..] == dAtA[size - n..size];
    }

    method Unmarshal(dAtA: Bytes) returns (err: Option<WireError>)
      requires |dAtA| < TWO63
      modifies this
      ensures match Parse(Token(old(Contents())), dAtA, 0)
              case Parsed(m) => err == None && Token(Contents()) == m
              case ParseErr(e) => err == Some(e)
    {
      hide StepField, TagAt;
      ghost var whole := Parse(Token(Contents()), dAtA, 0);
      var iNdEx := 0;
      assert dAtA[iNdEx..] == dAtA;
      while iNdEx < |dAtA|
        invariant 0 <= iNdEx <= |dAtA|
        invariant whole == Parse(Token(Contents()), dAtA[iNdEx..], iNdEx)
      {
        var tag := ReadTag(dAtA, iNdEx);
        if tag.BadTag? {
          return Some(tag.error);
        }
        var next;
        err, next := UnmarshalField(dAtA, iNdEx, tag.num, tag.wireType, tag.len);
        if err.Some? {
          return;
        }
        assert dAtA[iNdEx..][next - iNdEx..] == dAtA[next..];
        iNdEx := next;
      }
      err := None;
    }

    /** The switch of the loop in Unmarshal. */
    method UnmarshalField(dAtA: Bytes, preIndex: nat, fieldNum: int32, wireType: nat, tagLen: nat)
      returns (err: Option<WireError>, next: nat)
      requires preIndex + tagLen <= |dAtA| < TWO63 && tagLen > 0
      modifies this
      ensures match StepField(Token(old(Contents())), fieldNum, wireType, tagLen, dAtA[preIndex..], preIndex)
              case Stepped(m, len) => err == None && Token(Contents()) == m && next == preIndex + len
              case StepErr(e) => err == Some(e)
    {
      hide UintAt, BytesAt, UnknownAt, Truncate, ToInt32, Parse, Skip, ScanVarint;
      var iNdEx := preIndex + tagLen;
      assert dAtA[preIndex..][tagLen..] == dAtA[iNdEx..];
      err, next := None, iNdEx;
      match fieldNum {
        case 1 =>
          var cut, p := ReadBytes(dAtA, iNdEx, wireType);
          if cut.BadCut? {
            return Some(cut.error), next;
          }
          Name := p;
          next := iNdEx + cut.to;
        case 2 =>
          var v := ReadUint(dAtA, iNdEx, wireType, W64);
          if v.Err? {
            return Some(v.error), next;
          }
          MaxScore := v.raw;
          next := iNdEx + v.len;
        case 4 =>
          var cut, p := ReadBytes(dAtA, iNdEx, wireType);
          if cut.BadCut? {
            return Some(cut.error), next;
          }
          ReceiverKey := Some(p);
          next := iNdEx + cut.to;
        case 5 =>
          var cut, p := ReadBytes(dAtA, iNdEx, wireType);
          if cut.BadCut? {
            return Some(cut.error), next;
          }
          UserData := Some(p);
          next := iNdEx + cut.to;
        case _ =>
          var cut := SkipUnknown(dAtA, preIndex);
          if cut.BadCut? {
            return Some(cut.error), next;
          }
          next := preIndex + cut.to;
      }
    }
  }
}
