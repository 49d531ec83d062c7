/** The keys mailbox messages are stored under (dmsg/service/mailbox/service.go) and how a client reads them
    back (dmsg/service/mailbox/client.go). */
module MailboxKeys {
  import opened GoTypes
  import opened GoStrings
  import opened Services

  // ----- strconv, base 10

  function Digits(n: nat): Bytes {
    if n < 10 then [48 + n] else Digits(n / 10) + [48 + n % 10]
  }

  function FormatInt(n: int64): Bytes {
    if n < 0 then [45] + Digits(-(n as int)) else Digits(n)
  }

  function DigitsValue(s: Bytes): Option<nat> {
    if s == [] then Some(0)
    else
      var front, c := DigitsValue(s[..|s| - 1]), s[|s| - 1];
      if front.Some? && 48 <= c <= 57 then Some(10 * front.value + c - 48) else None
  }

  /** ParseInt(s, 10, 64): an optional sign, at least one digit, and the range of an int64. */
  function ParseInt(s: Bytes): Option<int64> {
    var digits := if s != [] && (s[0] == 43 || s[0] == 45) then s[1..] else s;
    var n := DigitsValue(digits);
    if digits == [] || n.None? then None
    else if s[0] == 45 then (if n.value <= TWO63 then Some(-(n.value as int)) else None)
    else if n.value < TWO63 then Some(n.value) else None
  }

  lemma {:induction false} DigitsParse(n: nat)
    ensures DigitsValue(Digits(n)) == Some(n) && Digits(n) != []
    ensures forall c | c in Digits(n) :: 48 <= c <= 57
  {
    if n >= 10 {
      DigitsParse(n / 10);
      assert Digits(n)[..|Digits(n)| - 1] == Digits(n / 10);
    } else {
      assert Digits(n)[..0] == [];
    }
  }

  lemma FormatParses(n: int64)
    ensures ParseInt(FormatInt(n)) == Some(n) && Plain(FormatInt(n))
  {
    var m := if n < 0 then -(n as int) else n;
    DigitsParse(m);
    assert FormatInt(n)[0] in FormatInt(n);
    if n < 0 {
      assert FormatInt(n)[1..] == Digits(m);
    } else {
      assert Digits(m)[0] in Digits(m);
    }
  }

  // ----- datastore keys

  const DOT: byte := 46

  /** A name that a cleaned path keeps as one component. */
  predicate Plain(name: Bytes) {
    name != [] && name != [DOT] && name != [DOT, DOT] && SLASH !in name
  }

  predicate NoSlashes(parts: seq<Bytes>) {
    forall p | p in parts :: SLASH !in p
  }

  predicate AllPlain(parts: seq<Bytes>) {
    forall p | p in parts :: Plain(p)
  }

  /** path.Clean on the components of a rooted path: empty and dot components go, dot-dot takes one back. */
  function CleanParts(parts: seq<Bytes>, kept: seq<Bytes>): seq<Bytes> {
    if parts == [] then kept else CleanParts(parts[1..], Keep(kept, parts[0]))
  }

  function Keep(kept: seq<Bytes>, p: Bytes): seq<Bytes> {
    if p == [] || p == [DOT] then kept
    else if p == [DOT, DOT] then (if kept == [] then [] else kept[..|kept| - 1])
    else kept + [p]
  }

  function Join(parts: seq<Bytes>): Bytes {
    if parts == [] then [] else [SLASH] + (parts[0] + Join(parts[1..]))
  }

  /** datastore.NewKey of a path that starts with a slash. */
  function NewKey(path: Bytes): Bytes
    requires path != [] && path[0] == SLASH
  {
    var parts := CleanParts(Split(path[1..], SLASH), []);
    if parts == [] then [SLASH] else Join(parts)
  }

  lemma JoinCons(parts: seq<Bytes>)
    requires parts != []
    ensures Join(parts) != [] && Join(parts)[0] == SLASH && Join(parts)[1..] == parts[0] + Join(parts[1..])
  {
    HeadTail(SLASH, parts[0] + Join(parts[1..]));
  }

  lemma HeadTail<T>(x: T, s: seq<T>)
    ensures ([x] + s)[0] == x && ([x] + s)[1..] == s
  {
  }

  lemma {:induction false} SplitJoin(parts: seq<Bytes>)
    requires parts != [] && NoSlashes(parts)
    ensures Join(parts) != [] && Join(parts)[0] == SLASH && Split(Join(parts)[1..], SLASH) == parts
  {
    JoinCons(parts);
    var p, rest := parts[0], Join(parts[1..]);
    PartsTail(parts);
    if |parts| == 1 {
      SplitNoSep(p, SLASH);
      assert p + rest == p && parts == [p];
    } else {
      hide Join, Split;
      SplitJoin(parts[1..]);
      SplitPrefix(p, SLASH, rest[1..]);
      assert p + rest == p + [SLASH] + rest[1..];
      assert parts == [p] + parts[1..];
    }
  }

  lemma PartsTail(parts: seq<Bytes>)
    requires parts != []
    ensures NoSlashes(parts) <==> SLASH !in parts[0] && NoSlashes(parts[1..])
    ensures AllPlain(parts) <==> Plain(parts[0]) && AllPlain(parts[1..])
  {
    hide Plain;
    assert forall q :: q in parts <==> q == parts[0] || q in parts[1..];
  }

  lemma KeepOne(kept: seq<Bytes>, p: Bytes)
    requires NoSlashes(kept) && SLASH !in p
    ensures NoSlashes(Keep(kept, p))
    ensures if Plain(p) then Keep(kept, p) == kept + [p] else |Keep(kept, p)| <= |kept|
  {
  }

  /** Cleaning keeps plain components, and only those: any other makes the path shorter. */
  lemma {:induction false} CleanKeepsPlain(parts: seq<Bytes>, kept: seq<Bytes>)
    requires NoSlashes(parts) && NoSlashes(kept)
    ensures |CleanParts(parts, kept)| <= |kept| + |parts| && NoSlashes(CleanParts(parts, kept))
    ensures if AllPlain(parts) then CleanParts(parts, kept) == kept + parts
            else |CleanParts(parts, kept)| < |kept| + |parts|
  {
    if parts == [] {
      assert kept + parts == kept;
    } else {
      var p := parts[0];
      PartsTail(parts);
      KeepOne(kept, p);
      hide NoSlashes, AllPlain, Plain, Keep;
      CleanKeepsPlain(parts[1..], Keep(kept, p));
      assert kept + [p] + parts[1..] == kept + parts;
    }
  }

  // ----- messages

  /** The parts of a message request that storing it uses. */
  datatype MsgReq = MsgReq(src: Bytes, dest: Bytes, id: Bytes, ts: int64, content: Bytes)

  datatype ReceiveMsg = ReceiveMsg(
    id: Bytes, reqPubkey: Bytes, destPubkey: Bytes, content: Bytes, timeStamp: int64, direction: Bytes)

  const MSG_FIELDS_LEN: nat := 7

  function MsgPrefix(): Bytes { Ascii("/dmsg/") }
  function From(): Bytes { Ascii("from") }

  function GetMsgPrefix(pubkey: Bytes): Bytes {
    MsgPrefix() + pubkey
  }

  function GetBasicFromMsgPrefix(src: Bytes, dest: Bytes): Bytes {
    MsgPrefix() + dest + [SLASH] + src
  }

  function GetFullFromMsgPrefix(m: MsgReq): (key: Bytes)
    ensures key != [] && key[0] == SLASH
  {
    GetBasicFromMsgPrefix(m.src, m.dest) + [SLASH] + From() + [SLASH] + m.id + [SLASH] + FormatInt(m.ts)
  }

  /** One round of parseReadMailboxResponse. The source's index constants are named for another order of keys;
      the variables it assigns are the right way round. */
  function ParseItem(key: Bytes, content: Bytes, direction: Bytes): Option<ReceiveMsg> {
    var fields := Split(key, SLASH);
    if |fields| < MSG_FIELDS_LEN then None
    else
      var ts := ParseInt(fields[6]);
      if ts.None? then None
      else Some(ReceiveMsg(fields[5], fields[3], fields[2], content, ts.value, direction))
  }

  function Received(m: MsgReq): ReceiveMsg {
    ReceiveMsg(m.id, m.src, m.dest, m.content, m.ts, From())
  }

  predicate PlainNames(m: MsgReq) {
    Plain(m.dest) && Plain(m.src) && Plain(m.id)
  }

  function Parts(m: MsgReq): seq<Bytes> {
    [Ascii("dmsg"), m.dest, m.src, From(), m.id, FormatInt(m.ts)]
  }

  lemma PrefixIs()
    ensures MsgPrefix() == [SLASH] + Ascii("dmsg") + [SLASH]
  {
  }

  lemma KeyIsJoin(m: MsgReq)
    ensures GetFullFromMsgPrefix(m) == Join(Parts(m))
  {
    PrefixIs();
    hide MsgPrefix, Ascii, From, FormatInt;
    JoinTwo(m.id, FormatInt(m.ts));
    JoinTwo(m.src, From());
    JoinTwo(Ascii("dmsg"), m.dest);
    JoinAppend([m.src, From()], [m.id, FormatInt(m.ts)]);
    JoinAppend([Ascii("dmsg"), m.dest], [m.src, From(), m.id, FormatInt(m.ts)]);
    assert [m.src, From()] + [m.id, FormatInt(m.ts)] == [m.src, From(), m.id, FormatInt(m.ts)];
    assert [Ascii("dmsg"), m.dest] + [m.src, From(), m.id, FormatInt(m.ts)] == Parts(m);
  }

  lemma JoinTwo(a: Bytes, b: Bytes)
    ensures Join([a, b]) == [SLASH] + a + [SLASH] + b
  {
    assert [a, b][1..] == [b] && [b][1..] == [];
    assert Join([b]) == [SLASH] + (b + []);
  }

  lemma {:induction false} JoinAppend(a: seq<Bytes>, b: seq<Bytes>)
    ensures Join(a + b) == Join(a) + Join(b)
  {
    if a == [] {
      assert a + b == b;
    } else {
      JoinAppend(a[1..], b);
      assert (a + b)[1..] == a[1..] + b;
      assert [SLASH] + (a[0] + (Join(a[1..]) + Join(b))) == [SLASH] + (a[0] + Join(a[1..])) + Join(b);
    }
  }

  lemma PlainWords()
    ensures Plain(Ascii("dmsg")) && Plain(From())
  {
  }

  lemma PartsWithoutSlash(m: MsgReq)
    requires SLASH !in m.src && SLASH !in m.dest && SLASH !in m.id
    ensures NoSlashes(Parts(m)) && (PlainNames(m) <==> AllPlain(Parts(m)))
  {
    FormatParses(m.ts);
    PlainWords();
    SixParts(Ascii("dmsg"), m.dest, m.src, From(), m.id, FormatInt(m.ts));
    assert forall p | Plain(p) :: SLASH !in p;
    hide Plain, NoSlashes, AllPlain, FormatInt, Ascii, From;
  }

  lemma SixParts(a: Bytes, b: Bytes, c: Bytes, d: Bytes, e: Bytes, f: Bytes)
    ensures NoSlashes([a, b, c, d, e, f]) <==> SLASH !in a && SLASH !in b && SLASH !in c &&
                                               SLASH !in d && SLASH !in e && SLASH !in f
    ensures AllPlain([a, b, c, d, e, f]) <==> Plain(a) && Plain(b) && Plain(c) && Plain(d) && Plain(e) && Plain(f)
  {
    hide Plain;
  }

  /** The key as it is stored. */
  function StoredKey(m: MsgReq): Bytes {
    NewKey(GetFullFromMsgPrefix(m))
  }

  lemma PlainKeyFields(m: MsgReq)
    requires PlainNames(m)
    ensures StoredKey(m) == GetFullFromMsgPrefix(m)
    ensures Split(StoredKey(m), SLASH) == [[]] + Parts(m)
  {
    var ps := Parts(m);
    var none: seq<Bytes> := [];
    KeyIsJoin(m);
    PartsWithoutSlash(m);
    SplitJoin(ps);
    CleanKeepsPlain(ps, none);
    assert none + ps == ps;
  }

  lemma ShortKeyFields(m: MsgReq)
    requires SLASH !in m.src && SLASH !in m.dest && SLASH !in m.id && !PlainNames(m)
    ensures |Split(StoredKey(m), SLASH)| < MSG_FIELDS_LEN
  {
    var ps := Parts(m);
    var none: seq<Bytes> := [];
    KeyIsJoin(m);
    PartsWithoutSlash(m);
    SplitJoin(ps);
    CleanKeepsPlain(ps, none);
    var kept := CleanParts(ps, none);
    if kept != [] {
      SplitJoin(kept);
    }
  }

  /** A client reads back the request a key was made for exactly when the three names are plain. Without a
      slash, one that is not plain leaves the key too short to parse; with one, the fields cannot match. */
  lemma KeyRoundTrip(m: MsgReq)
    ensures ParseItem(StoredKey(m), m.content, From()) == Some(Received(m)) <==> PlainNames(m)
    ensures PlainNames(m) ==>
              var r := ParseItem(StoredKey(m), m.content, From()).value;
              && r.id == m.id && r.reqPubkey == m.src && r.destPubkey == m.dest
              && r.content == m.content && r.timeStamp == m.ts && r.direction == Ascii("from")
  {
    var fields := Split(StoredKey(m), SLASH);
    if PlainNames(m) {
      PlainKeyFields(m);
      FormatParses(m.ts);
    } else if SLASH !in m.src && SLASH !in m.dest && SLASH !in m.id {
      ShortKeyFields(m);
    } else {
      PartsHaveNoSep(StoredKey(m), SLASH);
      if |fields| >= MSG_FIELDS_LEN {
        assert fields[2] in fields && fields[3] in fields && fields[5] in fields;
      }
    }
  }

  /** So messages that differ in sender, receiver, ID or time never overwrite each other. */
  lemma KeysDistinct(m: MsgReq, n: MsgReq)
    requires PlainNames(m) && PlainNames(n) && StoredKey(m) == StoredKey(n)
    ensures m == n.(content := m.content)
  {
    KeyRoundTrip(m);
    KeyRoundTrip(n.(content := m.content));
  }

  // ----- the keys of one user

  /** What a query over a user's prefix selects: the datastore cleans it and ends it with a slash. */
  predicate Selects(pubkey: Bytes, key: Bytes) {
    var prefix := NewKey(GetMsgPrefix(pubkey)) + [SLASH];
    |key| >= |prefix| && key[..|prefix|] == prefix
  }

  lemma UserPrefix(pubkey: Bytes)
    requires Plain(pubkey)
    ensures NewKey(GetMsgPrefix(pubkey)) == MsgPrefix() + pubkey
  {
    var none: seq<Bytes> := [];
    var ps := [Ascii("dmsg"), pubkey];
    assert ps[1..] == [pubkey] && Join([pubkey]) == [SLASH] + pubkey + Join(none);
    assert MsgPrefix() == [SLASH] + Ascii("dmsg") + [SLASH];
    assert GetMsgPrefix(pubkey) == Join(ps);
    SplitJoin(ps);
    assert none + ps == ps;
    CleanKeepsPlain(ps, none);
  }

  lemma DestField(dest: Bytes, rest: Bytes)
    requires SLASH !in dest
    ensures |Split(MsgPrefix() + dest + [SLASH] + rest, SLASH)| > 2
    ensures Split(MsgPrefix() + dest + [SLASH] + rest, SLASH)[2] == dest
  {
    var key := MsgPrefix() + dest + [SLASH] + rest;
    var tail := dest + [SLASH] + rest;
    SplitPrefix(Ascii("dmsg"), SLASH, tail);
    SplitPrefix(dest, SLASH, rest);
    assert key[1..] == Ascii("dmsg") + [SLASH] + tail;
  }

  /** A user's query selects the messages to that user and no other's. */
  lemma PrefixSelectsUser(pubkey: Bytes, m: MsgReq)
    requires Plain(pubkey) && PlainNames(m)
    ensures Selects(pubkey, StoredKey(m)) <==> m.dest == pubkey
  {
    UserPrefix(pubkey);
    PlainKeyFields(m);
    KeyStarts(m);
    var prefix := MsgPrefix() + pubkey + [SLASH];
    var key := StoredKey(m);
    hide StoredKey, NewKey, MsgPrefix, GetFullFromMsgPrefix, Plain, Split;
    if Selects(pubkey, key) {
      assert key == prefix + key[|prefix|..];
      DestField(pubkey, key[|prefix|..]);
    }
  }

  lemma KeyStarts(m: MsgReq)
    ensures var prefix, key := MsgPrefix() + m.dest + [SLASH], GetFullFromMsgPrefix(m);
            |key| >= |prefix| && key[..|prefix|] == prefix
  {
    hide MsgPrefix, From, FormatInt;
    var tail := m.src + [SLASH] + From() + [SLASH] + m.id + [SLASH] + FormatInt(m.ts);
    assert GetFullFromMsgPrefix(m) == MsgPrefix() + m.dest + [SLASH] + tail;
  }

  /** No key is of two users' mail. */
  lemma SelectsOne(pubkey: Bytes, other: Bytes, key: Bytes)
    requires Plain(pubkey) && Plain(other) && other != pubkey
    ensures !(Selects(pubkey, key) && Selects(other, key))
  {
    hide NewKey, Split, MsgPrefix;
    UserPrefix(pubkey);
    UserPrefix(other);
    if Selects(pubkey, key) {
      SelectedDest(pubkey, key);
    }
    if Selects(other, key) {
      SelectedDest(other, key);
    }
  }

  lemma SelectedDest(pubkey: Bytes, key: Bytes)
    requires Plain(pubkey) && Selects(pubkey, key)
    ensures |Split(key, SLASH)| > 2 && Split(key, SLASH)[2] == pubkey
  {
    UserPrefix(pubkey);
    hide NewKey, Split, MsgPrefix;
    var prefix := MsgPrefix() + pubkey + [SLASH];
    assert key == prefix + key[|prefix|..];
    DestField(pubkey, key[|prefix|..]);
  }

  // ----- the key, spelled out

  /** "/dmsg/", receiver, sender, "from", ID and the decimal timestamp, with slashes between them. */
  lemma KeySpelled(m: MsgReq)
    requires PlainNames(m)
    ensures StoredKey(m) ==
            Ascii("/dmsg/") + m.dest + [SLASH] + m.src + [SLASH] + Ascii("from") + [SLASH] + m.id + [SLASH] +
            FormatInt(m.ts)
  {
    PlainKeyFields(m);
    hide StoredKey, NewKey, FormatInt, Split;
  }

  /** n without its lowest i decimal digits. */
  function Tenths(n: nat, i: nat): nat
    decreases i
  {
    if i == 0 then n else Tenths(n / 10, i - 1)
  }

  /** Decimal digits, the highest first, without leading zeros; a negative number has a minus in front. */
  lemma {:induction false} DigitsSpelled(n: nat, i: nat)
    requires i < |Digits(n)|
    ensures Digits(n)[|Digits(n)| - 1 - i] == 48 + Tenths(n, i) % 10
    ensures Tenths(n, i + 1) > 0 <==> i < |Digits(n)| - 1
  {
    if n < 10 {
      assert Tenths(n, 1) == Tenths(0, 0);
    } else if i == 0 {
      DigitsSpelled(n / 10, 0);
      assert Tenths(n, 1) == Tenths(n / 10, 0);
    } else {
      DigitsSpelled(n / 10, i - 1);
    }
  }

  lemma IntSpelled(n: int64)
    ensures FormatInt(n) == if n < 0 then Ascii("-") + Digits(-(n as int)) else Digits(n)
  {
    assert Ascii("-") == [45];
  }
}
