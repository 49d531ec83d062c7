/** The six messages of dkvs/pb/dkvs_record.proto: their values, their encoding, and Unmarshal as a
    function on bytes. Go strings are byte sequences here. */
module Messages {
  import opened GoTypes
  import opened Varint
  import opened WireGrammar

  datatype RecordVal = RecordVal(version: uint32, valueType: uint32, value: Slice, signature: Slice,
                                 validityType: int32, validity: uint64, seqNo: uint64, ttl: uint64,
                                 pubKey: Slice, data: Slice)

  datatype CertVal = CertVal(version: uint32, name: Bytes, certType: uint32, subType: uint32, userPubkey: Slice,
                             data: Slice, issueTime: uint64, ttl: uint64, issuerPubkey: Slice, issuerSign: Slice)

  datatype CertsVal = CertsVal(prevBundleAdrr: Bytes, userData: Slice, certVect: seq<CertVal>)

  datatype PrepareVal = PrepareVal(key: Bytes, fee: uint64)

  datatype CompletedVal = CompletedVal(key: Bytes, tx: Bytes, fee: uint64, senderkey: Slice, receiverkey: Slice)

  datatype TokenVal = TokenVal(name: Bytes, maxScore: uint64, receiverKey: Slice, userData: Slice)

  datatype Message =
    | Record(rec: RecordVal)
    | Cert(cert: CertVal)
    | Certs(certs: CertsVal)
    | Prepare(prep: PrepareVal)
    | Completed(comp: CompletedVal)
    | Token(token: TokenVal)

  const EMPTY_RECORD := RecordVal(0, 0, None, None, 0, 0, 0, 0, None, None)
  const EMPTY_CERT := CertVal(0, [], 0, 0, None, None, 0, 0, None, None)
  const EMPTY_CERTS := CertsVal([], None, [])
  const EMPTY_PREPARE := PrepareVal([], 0)
  const EMPTY_COMPLETED := CompletedVal([], [], 0, None, None)
  const EMPTY_TOKEN := TokenVal([], 0, None, None)

  /** A fresh struct of the same message type. */
  function Fresh(m: Message): Message {
    match m
    case Record(_) => Record(EMPTY_RECORD)
    case Cert(_) => Cert(EMPTY_CERT)
    case Certs(_) => Certs(EMPTY_CERTS)
    case Prepare(_) => Prepare(EMPTY_PREPARE)
    case Completed(_) => Completed(EMPTY_COMPLETED)
    case Token(_) => Token(EMPTY_TOKEN)
  }

  predicate SameType(m: Message, n: Message) {
    Fresh(m) == Fresh(n)
  }

  // ----- encoding: the fields a message prints, in order

  /** uint64(x) of an int32 enum: sign-extended. */
  function Extend32(x: int32): uint64 {
    if x < 0 then x + TWO64 else x
  }

  /** The low 32 bits of a varint as an int32. */
  function ToInt32(x: nat): int32 {
    var t := x % TWO32;
    if t >= 0x8000_0000 then t - TWO32 else t
  }

  /** A small field number, whose tag is one byte. */
  type FieldNo = n: nat | 0 < n < 16 witness 1

  function UintField(n: FieldNo, v: uint64): Field {
    VarintField([8 * n], EncVarint(v))
  }

  function BytesField(n: FieldNo, p: Bytes): Field {
    LenField([8 * n + 2], EncVarint(|p|), p)
  }

  /** proto3: zero values are not printed. */
  function U(n: FieldNo, v: uint64): seq<Field> {
    if v == 0 then [] else [UintField(n, v)]
  }

  function B(n: FieldNo, p: Bytes): seq<Field> {
    if p == [] then [] else [BytesField(n, p)]
  }

  function RecordFields(r: RecordVal): seq<Field> {
    U(1, r.version) + (U(2, r.valueType) + (B(3, Content(r.value)) + (B(4, Content(r.signature)) +
    (U(5, Extend32(r.validityType)) + (U(6, r.validity) + (U(7, r.seqNo) + (U(8, r.ttl) +
    (B(9, Content(r.pubKey)) + B(10, Content(r.data))))))))))
  }

  function CertFields(c: CertVal): seq<Field> {
    U(1, c.version) + (B(2, c.name) + (U(3, c.certType) + (U(4, c.subType) + (B(5, Content(c.userPubkey)) +
    (B(6, Content(c.data)) + (U(7, c.issueTime) + (U(8, c.ttl) +
    (B(10, Content(c.issuerPubkey)) + B(11, Content(c.issuerSign))))))))))
  }

  function EncodeCert(c: CertVal): Bytes {
    PrintAll(CertFields(c))
  }

  /** A repeated message is printed even when its own encoding is empty. */
  function CertVectFields(cs: seq<CertVal>): seq<Field> {
    if cs == [] then [] else [BytesField(3, EncodeCert(cs[0]))] + CertVectFields(cs[1..])
  }

  function CertsFields(v: CertsVal): seq<Field> {
    B(1, v.prevBundleAdrr) + (B(2, Content(v.userData)) + CertVectFields(v.certVect))
  }

  function PrepareFields(p: PrepareVal): seq<Field> {
    B(1, p.key) + U(2, p.fee)
  }

  function CompletedFields(c: CompletedVal): seq<Field> {
    B(1, c.key) + (B(2, c.tx) + (U(3, c.fee) + (B(4, Content(c.senderkey)) + B(5, Content(c.receiverkey)))))
  }

  function TokenFields(t: TokenVal): seq<Field> {
    B(1, t.name) + (U(2, t.maxScore) + (B(4, Content(t.receiverKey)) + B(5, Content(t.userData))))
  }

  function FieldsOf(m: Message): seq<Field> {
    match m
    case Record(r) => RecordFields(r)
    case Cert(c) => CertFields(c)
    case Certs(v) => CertsFields(v)
    case Prepare(p) => PrepareFields(p)
    case Completed(c) => CompletedFields(c)
    case Token(t) => TokenFields(t)
  }

  /** Marshal. */
  function Encode(m: Message): Bytes {
    PrintAll(FieldsOf(m))
  }

  // ----- decoding

  datatype FieldKind = UnknownField | UintKind | BytesKind

  function KindOf(m: Message, num: int): FieldKind {
    match m
    case Record(_) =>
      if num in {1, 2, 5, 6, 7, 8} then UintKind else if num in {3, 4, 9, 10} then BytesKind else UnknownField
    case Cert(_) =>
      if num in {1, 3, 4, 7, 8} then UintKind else if num in {2, 5, 6, 10, 11} then BytesKind else UnknownField
    case Certs(_) => if num in {1, 2, 3} then BytesKind else UnknownField
    case Prepare(_) => if num == 1 then BytesKind else if num == 2 then UintKind else UnknownField
    case Completed(_) => if num == 3 then UintKind else if num in {1, 2, 4, 5} then BytesKind else UnknownField
    case Token(_) => if num == 2 then UintKind else if num in {1, 4, 5} then BytesKind else UnknownField
  }

  function PutRecordUint(r: RecordVal, num: int, raw: nat): RecordVal {
    match num
    case 1 => r.(version := Truncate(raw, W32))
    case 2 => r.(valueType := Truncate(raw, W32))
    case 5 => r.(validityType := ToInt32(raw))
    case 6 => r.(validity := Truncate(raw, W64))
    case 7 => r.(seqNo := Truncate(raw, W64))
    case 8 => r.(ttl := Truncate(raw, W64))
    case _ => r
  }

  function PutRecordBytes(r: RecordVal, num: int, p: Bytes): RecordVal {
    match num
    case 3 => r.(value := Some(p))
    case 4 => r.(signature := Some(p))
    case 9 => r.(pubKey := Some(p))
    case 10 => r.(data := Some(p))
    case _ => r
  }

  function PutCertUint(c: CertVal, num: int, raw: nat): CertVal {
    match num
    case 1 => c.(version := Truncate(raw, W32))
    case 3 => c.(certType := Truncate(raw, W32))
    case 4 => c.(subType := Truncate(raw, W32))
    case 7 => c.(issueTime := Truncate(raw, W64))
    case 8 => c.(ttl := Truncate(raw, W64))
    case _ => c
  }

  function PutCertBytes(c: CertVal, num: int, p: Bytes): CertVal {
    match num
    case 2 => c.(name := p)
    case 5 => c.(userPubkey := Some(p))
    case 6 => c.(data := Some(p))
    case 10 => c.(issuerPubkey := Some(p))
    case 11 => c.(issuerSign := Some(p))
    case _ => c
  }

  function PutCompletedBytes(c: CompletedVal, num: int, p: Bytes): CompletedVal {
    match num
    case 1 => c.(key := p)
    case 2 => c.(tx := p)
    case 4 => c.(senderkey := Some(p))
    case 5 => c.(receiverkey := Some(p))
    case _ => c
  }

  function PutTokenBytes(t: TokenVal, num: int, p: Bytes): TokenVal {
    match num
    case 1 => t.(name := p)
    case 4 => t.(receiverKey := Some(p))
    case 5 => t.(userData := Some(p))
    case _ => t
  }

  /** Stores a varint into field num, which KindOf says is an integer. */
  function PutUint(m: Message, num: int, raw: nat): (n: Message)
    ensures SameType(m, n)
  {
    match m
    case Record(r) => Record(PutRecordUint(r, num, raw))
    case Cert(c) => Cert(PutCertUint(c, num, raw))
    case Certs(_) => m
    case Prepare(p) => Prepare(p.(fee := Truncate(raw, W64)))
    case Completed(c) => Completed(c.(fee := Truncate(raw, W64)))
    case Token(t) => Token(t.(maxScore := Truncate(raw, W64)))
  }

  datatype ParseResult = Parsed(m: Message) | ParseErr(error: WireError)

  /** Stores a payload into field num; a nested certificate is parsed and appended. */
  function PutBytes(m: Message, num: int, p: Bytes): (r: ParseResult)
    ensures r.Parsed? ==> SameType(m, r.m)
    decreases |p|, 3
  {
    match m
    case Record(r) => Parsed(Record(PutRecordBytes(r, num, p)))
    case Cert(c) => Parsed(Cert(PutCertBytes(c, num, p)))
    case Certs(v) =>
      if num == 1 then Parsed(Certs(v.(prevBundleAdrr := p)))
      else if num == 2 then Parsed(Certs(v.(userData := Some(p))))
      else (match Parse(Cert(EMPTY_CERT), p, 0)
            case Parsed(n) => Parsed(Certs(v.(certVect := v.certVect + [n.cert])))
            case ParseErr(e) => ParseErr(e))
    case Prepare(q) => Parsed(Prepare(q.(key := p)))
    case Completed(c) => Parsed(Completed(PutCompletedBytes(c, num, p)))
    case Token(t) => Parsed(Token(PutTokenBytes(t, num, p)))
  }

  /** The field number: the tag without its wire type, cut to 32 bits. */
  function FieldNum(wire: uint64): int32 {
    ToInt32(wire / 8)
  }

  /** The tag a buffer starts with, and its length. */
  datatype TagRead = Tag(num: int32, wireType: nat, len: nat) | BadTag(error: WireError)

  function TagAt(rest: Bytes): (t: TagRead)
    ensures t.Tag? ==> 0 < t.len <= |rest|
  {
    match ScanVarint(rest, 0)
    case Err(e) => BadTag(e)
    case Ok(raw, n) =>
      var wire := Truncate(raw, W64);
      if WireType(wire) == 4 then BadTag(EndGroupForNonGroup)
      else if FieldNum(wire) <= 0 then BadTag(IllegalTag)
      else Tag(FieldNum(wire), WireType(wire), n)
  }

  function UintAt(rest: Bytes, wireType: nat): (r: ScanResult)
    ensures r.Ok? ==> 0 < r.len <= |rest|
  {
    if wireType != 0 then Err(WrongWireType) else ScanVarint(rest, 0)
  }

  /** A stretch of the buffer. */
  datatype Cut = Cut(from: nat, to: nat) | BadCut(error: WireError)

  /** A length-delimited payload; the index after it is an int64 sum that may overflow. */
  function BytesAt(rest: Bytes, wireType: nat, base: nat): (c: Cut)
    ensures c.Cut? ==> 0 < c.from <= c.to <= |rest|
  {
    if wireType != 2 then BadCut(WrongWireType)
    else match ScanVarint(rest, 0)
      case Err(e) => BadCut(e)
      case Ok(raw, n) =>
        var len := Truncate(raw, W64);
        if len >= TWO63 || base + n + len >= TWO63 then BadCut(InvalidLength)
        else if n + len > |rest| then BadCut(UnexpectedEof)
        else Cut(n, n + len)
  }

  /** The whole of an unknown field, tag included. */
  function UnknownAt(rest: Bytes, base: nat): (c: Cut)
    ensures c.Cut? ==> c.from == 0 < c.to <= |rest|
  {
    match Skip(rest, 0, 0)
    case SkipErr(e) => BadCut(e)
    case Skipped(end) =>
      if base + end >= TWO63 then BadCut(InvalidLength)
      else if end > |rest| then BadCut(UnexpectedEof)
      else Cut(0, end)
  }

  datatype StepResult = Stepped(m: Message, len: nat) | StepErr(error: WireError)

  /** The switch on the field number: n bytes of tag have been read off `rest`, which starts at `base`. */
  function StepField(m: Message, num: int, wireType: nat, n: nat, rest: Bytes, base: nat): (r: StepResult)
    requires 0 < n <= |rest|
    ensures r.Stepped? ==> 0 < r.len <= |rest| && SameType(m, r.m)
    decreases |rest|, 0
  {
    match KindOf(m, num)
    case UintKind =>
      (match UintAt(rest[n..], wireType)
       case Err(e) => StepErr(e)
       case Ok(v, len) => Stepped(PutUint(m, num, v), n + len))
    case BytesKind =>
      (match BytesAt(rest[n..], wireType, base + n)
       case BadCut(e) => StepErr(e)
       case Cut(from, to) =>
         match PutBytes(m, num, rest[n..][from..to])
         case Parsed(m') => Stepped(m', n + to)
         case ParseErr(e) => StepErr(e))
    case UnknownField =>
      match UnknownAt(rest, base)
      case BadCut(e) => StepErr(e)
      case Cut(_, to) => Stepped(m, to)
  }

  /** One round of an Unmarshal loop at index `base`, with `rest` still to read. */
  function Step(m: Message, rest: Bytes, base: nat): (r: StepResult)
    ensures r.Stepped? ==> 0 < r.len <= |rest| && SameType(m, r.m)
    decreases |rest|, 1
  {
    match TagAt(rest)
    case BadTag(e) => StepErr(e)
    case Tag(num, wireType, n) => StepField(m, num, wireType, n, rest, base)
  }

  /** Unmarshal into m, from index `base` on. */
  function Parse(m: Message, rest: Bytes, base: nat): (r: ParseResult)
    ensures r.Parsed? ==> SameType(m, r.m)
    decreases |rest|, 2
  {
    if rest == [] then Parsed(m)
    else match Step(m, rest, base)
      case StepErr(e) => ParseErr(e)
      case Stepped(m', len) => Parse(m', rest[len..], base + len)
  }
}
