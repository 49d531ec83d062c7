/** Paging a mailbox (dmsg/service/mailbox/service.go, client.go): the datastore in key order, the page a
    read request takes from it, and what the client's loop gathers from page after page. */
module MailboxPaging {
  import opened GoTypes
  import opened MailboxKeys
  import opened Records
  import opened Services

  datatype Item = Item(key: Bytes, content: Bytes)

  // ----- the datastore, in the order it iterates

  type Store = seq<Item>

  predicate Sorted(st: Store) {
    st == [] || (Below(st[0].key, st[1..]) && Sorted(st[1..]))
  }

  predicate Below(key: Bytes, st: Store) {
    forall x | x in st :: CompareBytes(key, x.key) < 0
  }

  function Put(st: Store, key: Bytes, content: Bytes): Store {
    if st == [] then [Item(key, content)]
    else
      var c := CompareBytes(key, st[0].key);
      if c < 0 then [Item(key, content)] + st
      else if c == 0 then [Item(key, content)] + st[1..]
      else [st[0]] + Put(st[1..], key, content)
  }

  function Filter(s: Store, f: Item -> bool): (r: Store)
    ensures forall x :: x in r <==> x in s && f(x)
  {
    if s == [] then []
    else
      var rest := Filter(s[1..], f);
      if f(s[0]) then [s[0]] + rest else rest
  }

  function Delete(st: Store, key: Bytes): Store {
    Filter(st, (x: Item) => x.key != key)
  }

  function Query(st: Store, pubkey: Bytes): Store {
    Filter(st, (x: Item) => Selects(pubkey, x.key))
  }

  /** The messages of all other users. */
  function Others(st: Store, pubkey: Bytes): Store {
    Filter(st, (x: Item) => !Selects(pubkey, x.key))
  }

  function Without(st: Store, keys: seq<Bytes>): Store {
    Filter(st, (x: Item) => x.key !in keys)
  }

  function Keys(items: seq<Item>): (ks: seq<Bytes>)
    ensures |ks| == |items| && forall i | 0 <= i < |items| :: ks[i] == items[i].key
  {
    if items == [] then [] else [items[0].key] + Keys(items[1..])
  }

  lemma BelowAll(key: Bytes, st: Store)
    requires st != [] && Sorted(st) && CompareBytes(key, st[0].key) < 0
    ensures Below(key, st)
  {
    forall x | x in st
      ensures CompareBytes(key, x.key) < 0
    {
      if x != st[0] {
        Before(key, st[0].key, x.key);
      }
    }
  }

  lemma Before(a: Bytes, b: Bytes, c: Bytes)
    requires CompareBytes(a, b) < 0 && CompareBytes(b, c) < 0
    ensures CompareBytes(a, c) < 0
  {
    CompareBytesTransitive(a, b, c);
    CompareBytesOrder(a, c);
    CompareBytesOrder(b, c);
  }

  lemma BelowHasNot(key: Bytes, st: Store)
    requires Below(key, st)
    ensures forall x | x in st :: x.key != key
  {
    CompareBytesOrder(key, key);
  }

  /** Put is an update of the map from keys to contents. */
  lemma {:induction false} PutItems(st: Store, key: Bytes, content: Bytes)
    requires Sorted(st)
    ensures Sorted(Put(st, key, content))
    ensures forall x :: x in Put(st, key, content) <==> x == Item(key, content) || (x in st && x.key != key)
  {
    if st != [] {
      var c := CompareBytes(key, st[0].key);
      CompareBytesOrder(key, st[0].key);
      BelowHasNot(st[0].key, st[1..]);
      assert forall x :: x in st <==> x == st[0] || x in st[1..];
      if c < 0 {
        BelowAll(key, st);
        BelowHasNot(key, st);
        assert Put(st, key, content)[1..] == st;
      } else if c == 0 {
        assert Put(st, key, content)[1..] == st[1..];
      } else {
        PutItems(st[1..], key, content);
        assert Put(st, key, content)[1..] == Put(st[1..], key, content);
      }
    }
  }

  lemma {:induction false} FilterSorted(st: Store, f: Item -> bool)
    requires Sorted(st)
    ensures Sorted(Filter(st, f))
  {
    if st != [] {
      FilterSorted(st[1..], f);
      assert f(st[0]) ==> Filter(st, f)[1..] == Filter(st[1..], f);
    }
  }

  lemma {:induction false} FilterSame(s: Store, f: Item -> bool, g: Item -> bool)
    requires forall x | x in s :: f(x) == g(x)
    ensures Filter(s, f) == Filter(s, g)
  {
    if s != [] {
      FilterSame(s[1..], f, g);
    }
  }

  lemma {:induction false} FilterTwice(s: Store, f: Item -> bool, g: Item -> bool)
    ensures Filter(Filter(s, f), g) == Filter(s, x => f(x) && g(x))
  {
    if s != [] {
      FilterTwice(s[1..], f, g);
      if f(s[0]) {
        assert Filter(s, f)[1..] == Filter(s[1..], f);
      }
    }
  }

  lemma {:induction false} FilterAll(s: Store, f: Item -> bool)
    requires forall x | x in s :: f(x)
    ensures Filter(s, f) == s
  {
    if s != [] {
      FilterAll(s[1..], f);
    }
  }

  lemma {:induction false} FilterAppend(a: Store, b: Store, f: Item -> bool)
    ensures Filter(a + b, f) == Filter(a, f) + Filter(b, f)
  {
    if a == [] {
      assert a + b == b;
    } else {
      assert (a + b)[1..] == a[1..] + b;
      FilterAppend(a[1..], b, f);
    }
  }

  lemma WithoutStep(st: Store, keys: seq<Bytes>, k: Bytes)
    ensures Delete(Without(st, keys), k) == Without(st, keys + [k])
  {
    var f, g := (x: Item) => x.key !in keys, (x: Item) => x.key != k;
    FilterTwice(st, f, g);
    FilterSame(st, x => f(x) && g(x), (x: Item) => x.key !in keys + [k]);
  }

  /** The keys among these that the datastore does delete. */
  function Deletable(keys: seq<Bytes>, stuck: set<Bytes>): seq<Bytes> {
    if keys == [] then []
    else (if keys[0] in stuck then [] else [keys[0]]) + Deletable(keys[1..], stuck)
  }

  lemma {:induction false} DeletableSnoc(keys: seq<Bytes>, k: Bytes, stuck: set<Bytes>)
    ensures Deletable(keys + [k], stuck) == Deletable(keys, stuck) + if k in stuck then [] else [k]
  {
    if keys == [] {
      assert keys + [k] == [k];
    } else {
      assert (keys + [k])[1..] == keys[1..] + [k];
      DeletableSnoc(keys[1..], k, stuck);
    }
  }

  /** Nothing is deleted before the first key. */
  lemma WithoutNone(st: Store, keys: seq<Bytes>, stuck: set<Bytes>)
    ensures Without(st, Deletable(keys[..0], stuck)) == st
  {
    FilterAll(st, (x: Item) => x.key !in Deletable(keys[..0], stuck));
  }

  /** One more key of the list, deleted unless the datastore refuses to. */
  lemma WithoutNext(st: Store, keys: seq<Bytes>, i: nat, stuck: set<Bytes>)
    requires i < |keys|
    ensures var st' := Without(st, Deletable(keys[..i], stuck));
      Without(st, Deletable(keys[..i + 1], stuck)) == if keys[i] in stuck then st' else Delete(st', keys[i])
  {
    var before := Deletable(keys[..i], stuck);
    DeletableSnoc(keys[..i], keys[i], stuck);
    assert keys[..i + 1] == keys[..i] + [keys[i]];
    assert before + [] == before;
    WithoutStep(st, before, keys[i]);
  }

  lemma {:induction false} DeletableAll(keys: seq<Bytes>)
    ensures Deletable(keys, {}) == keys
  {
    if keys != [] {
      DeletableAll(keys[1..]);
    }
  }

  lemma {:induction false} DeletableHas(keys: seq<Bytes>, stuck: set<Bytes>)
    ensures forall k :: k in Deletable(keys, stuck) <==> k in keys && k !in stuck
  {
    if keys != [] {
      DeletableHas(keys[1..], stuck);
    }
  }

  /** However many of the deletions fail, everyone else's mail and the order stay. */
  lemma WithoutSome(st: Store, pubkey: Bytes, n: nat, stuck: set<Bytes>)
    requires Sorted(st) && n <= |Query(st, pubkey)|
    ensures var st' := Without(st, Deletable(Keys(Query(st, pubkey)[..n]), stuck));
            Sorted(st') && Others(st', pubkey) == Others(st, pubkey)
  {
    hide Selects;
    var keys := Keys(Query(st, pubkey)[..n]);
    FilterSorted(st, (x: Item) => x.key !in Deletable(keys, stuck));
    KeysSelected(Query(st, pubkey)[..n], pubkey);
    DeletableHas(keys, stuck);
    OthersKept(st, pubkey, Deletable(keys, stuck));
  }

  /** Deleting the first n messages of a user leaves that user's others, in order, and everyone else's. */
  lemma WithoutFirst(st: Store, pubkey: Bytes, n: nat)
    requires Sorted(st) && n <= |Query(st, pubkey)|
    ensures var q := Query(st, pubkey);
            var st' := Without(st, Keys(q[..n]));
            Sorted(st') && Query(st', pubkey) == q[n..] && Others(st', pubkey) == Others(st, pubkey)
  {
    hide Selects, Sorted, Below, CompareBytes, Keys;
    var q := Query(st, pubkey);
    var keys := Keys(q[..n]);
    var mine, kept := (x: Item) => Selects(pubkey, x.key), (x: Item) => x.key !in keys;
    FilterSorted(st, mine);
    FilterSorted(st, kept);
    FilterCommutes(st, kept, mine);
    KeptOfQuery(q, n);
    assert forall x | x in q[..n] :: x in q;
    KeysSelected(q[..n], pubkey);
    OthersKept(st, pubkey, keys);
  }

  lemma {:induction false} KeysSelected(items: Store, pubkey: Bytes)
    requires forall x | x in items :: Selects(pubkey, x.key)
    ensures forall k | k in Keys(items) :: Selects(pubkey, k)
  {
    hide Selects;
    if items != [] {
      KeysSelected(items[1..], pubkey);
    }
  }

  lemma FilterCommutes(s: Store, f: Item -> bool, g: Item -> bool)
    ensures Filter(Filter(s, f), g) == Filter(Filter(s, g), f)
  {
    FilterTwice(s, f, g);
    FilterTwice(s, g, f);
    FilterSame(s, x => f(x) && g(x), x => g(x) && f(x));
  }

  lemma OthersKept(st: Store, pubkey: Bytes, keys: seq<Bytes>)
    requires forall k | k in keys :: Selects(pubkey, k)
    ensures Others(Without(st, keys), pubkey) == Others(st, pubkey)
  {
    hide Selects;
    var kept, rest := (x: Item) => x.key !in keys, (x: Item) => !Selects(pubkey, x.key);
    FilterTwice(st, kept, rest);
    FilterSame(st, x => kept(x) && rest(x), rest);
  }

  lemma {:induction false} KeptOfQuery(q: Store, n: nat)
    requires Sorted(q) && n <= |q|
    ensures Filter(q, (x: Item) => x.key !in Keys(q[..n])) == q[n..]
  {
    var kept := (x: Item) => x.key !in Keys(q[..n]);
    if n == 0 {
      FilterAll(q, kept);
    } else {
      KeptOfQuery(q[1..], n - 1);
      assert q[..n][1..] == q[1..][..n - 1];
      BelowHasNot(q[0].key, q[1..]);
      KeysCons(q[..n]);
      hide Below, Sorted, CompareBytes, Keys;
      FilterSame(q[1..], kept, (x: Item) => x.key !in Keys(q[1..][..n - 1]));
    }
  }

  lemma KeysCons(items: seq<Item>)
    requires items != []
    ensures forall k :: k in Keys(items) <==> k == items[0].key || k in Keys(items[1..])
  {
  }

  /** So no other user's mail changes while everything but one user's does not. */
  lemma NobodyElse(before: Store, after: Store, pubkey: Bytes, other: Bytes)
    requires Plain(pubkey) && Plain(other) && other != pubkey
    requires Others(after, pubkey) == Others(before, pubkey)
    ensures Query(after, other) == Query(before, other)
  {
    QueryOfOthers(before, pubkey, other);
    QueryOfOthers(after, pubkey, other);
  }

  lemma QueryOfOthers(st: Store, pubkey: Bytes, other: Bytes)
    requires Plain(pubkey) && Plain(other) && other != pubkey
    ensures Query(st, other) == Query(Others(st, pubkey), other)
  {
    hide Selects, Plain;
    var not, its := (x: Item) => !Selects(pubkey, x.key), (x: Item) => Selects(other, x.key);
    forall x | x in st
      ensures its(x) == (not(x) && its(x))
    {
      SelectsOne(pubkey, other, x.key);
    }
    FilterTwice(st, not, its);
    FilterSame(st, its, x => not(x) && its(x));
  }

  // ----- a page

  const MAX_CONTENT_SIZE: nat := 2 * 1024 * 1024

  /** How many messages fit: the one that reaches the limit is the last. */
  function Fill(q: Store, size: nat): (n: nat)
    ensures n <= |q|
  {
    if q == [] then 0
    else if size + |q[0].content| >= MAX_CONTENT_SIZE then 1
    else 1 + Fill(q[1..], size + |q[0].content|)
  }

  predicate Full(q: Store, size: nat) {
    q != [] && (size + |q[0].content| >= MAX_CONTENT_SIZE || Full(q[1..], size + |q[0].content|))
  }

  function Delivered(q: Store): Store {
    q[..Fill(q, 0)]
  }

  /** The message that fills a page is delivered but stays. */
  function Deleted(q: Store): (n: nat)
    ensures n <= |q|
  {
    if Full(q, 0) then FullFills(q, 0); Fill(q, 0) - 1 else Fill(q, 0)
  }

  predicate More(q: Store) {
    Full(q, 0) && Fill(q, 0) < |q|
  }

  function Total(q: Store): nat {
    if q == [] then 0 else |q[0].content| + Total(q[1..])
  }

  /** The page is the least prefix whose contents reach the limit, or all when none does. */
  lemma {:induction false} FullFills(q: Store, size: nat)
    requires size < MAX_CONTENT_SIZE
    ensures var n := Fill(q, size);
            if Full(q, size) then
              n > 0 && size + Total(q[..n - 1]) < MAX_CONTENT_SIZE && size + Total(q[..n]) >= MAX_CONTENT_SIZE
            else n == |q| && size + Total(q) < MAX_CONTENT_SIZE
  {
    if q != [] && size + |q[0].content| < MAX_CONTENT_SIZE {
      var size' := size + |q[0].content|;
      FullFills(q[1..], size');
      var n := Fill(q[1..], size');
      assert q[..n + 1][1..] == q[1..][..n];
      if n > 0 {
        assert q[..n][1..] == q[1..][..n - 1];
      }
    } else if q != [] {
      assert q[..1][1..] == [] && q[..0] == [];
    }
  }

  /** A page, what it deletes and whether there is more, exactly: when the contents reach 2 MiB together, the page ends
      with the message that gets them there, which stays; otherwise it is everything, and nothing stays. */
  lemma PageExactly(q: Store)
    ensures if Total(q) < 2097152 then Delivered(q) == q && AfterPage(q) == [] && !More(q)
            else exists n: nat :: FilledBy(q, n)
  {
    FullFills(q, 0);
    var n := Fill(q, 0);
    TotalGrows(q, n);
    if Full(q, 0) {
      FilledIs(q);
    } else {
      hide Fill, Full, Total;
      assert q[..|q|] == q && q[|q|..] == [];
    }
  }

  /** The n-th message is the one that brings the contents to 2 MiB: it ends the page and stays. */
  predicate FilledBy(q: Store, n: nat) {
    && 0 < n <= |q| && Total(q[..n - 1]) < 2097152 <= Total(q[..n])
    && Delivered(q) == q[..n] && AfterPage(q) == q[n - 1..] && (More(q) <==> n < |q|)
  }

  lemma FilledIs(q: Store)
    requires Full(q, 0)
    ensures FilledBy(q, Fill(q, 0))
  {
    FullFills(q, 0);
    hide Fill, Total;
  }

  lemma {:induction false} TotalGrows(q: Store, n: nat)
    requires n <= |q|
    ensures Total(q[..n]) <= Total(q)
  {
    if n > 0 {
      TotalGrows(q[1..], n - 1);
      assert q[..n][1..] == q[1..][..n - 1];
    }
  }

  /** A second message is reached exactly when the first does not fill the page. */
  lemma FirstFits(q: Store)
    requires |q| >= 2
    ensures Fill(q, 0) >= 2 <==> |q[0].content| < MAX_CONTENT_SIZE
  {
  }

  // ----- page after page

  function AfterPage(q: Store): Store {
    q[Deleted(q)..]
  }

  /** What is left after k more requests of the loop. */
  function AfterRounds(q: Store, k: nat): Store {
    if k == 0 then q else AfterRounds(if More(q) then AfterPage(q) else q, k - 1)
  }

  /** The loop comes to an answer that says there is no more. */
  ghost predicate Ends(q: Store) {
    exists k: nat :: !More(AfterRounds(q, k))
  }

  predicate AllButLastFit(q: Store) {
    forall i | 0 <= i < |q| - 1 :: |q[i].content| < MAX_CONTENT_SIZE
  }

  lemma MoreShrinks(q: Store)
    requires More(q) && AllButLastFit(q)
    ensures |AfterPage(q)| < |q| && AllButLastFit(AfterPage(q)) && |AfterPage(q)| >= 2
    ensures q[Deleted(q)] == AfterPage(q)[0]
  {
    FirstFits(q);
    FullFills(q, 0);
  }

  lemma {:induction false} FitEnds(q: Store)
    requires AllButLastFit(q)
    ensures Ends(q)
    decreases |q|
  {
    if More(q) {
      MoreShrinks(q);
      FitEnds(AfterPage(q));
      var k: nat :| !More(AfterRounds(AfterPage(q), k));
      assert AfterRounds(q, k + 1) == AfterRounds(AfterPage(q), k);
    } else {
      assert AfterRounds(q, 0) == q;
    }
  }

  /** A page never gets past a message that reaches the limit by itself. */
  lemma {:induction false} FillStopsAt(q: Store, size: nat, j: nat)
    requires j < |q| && |q[j].content| >= MAX_CONTENT_SIZE
    ensures Full(q, size) && Fill(q, size) <= j + 1
  {
    if j > 0 && size + |q[0].content| < MAX_CONTENT_SIZE {
      FillStopsAt(q[1..], size + |q[0].content|, j - 1);
    }
  }

  lemma BigStays(q: Store, j: nat)
    requires j < |q| - 1 && |q[j].content| >= MAX_CONTENT_SIZE
    ensures More(q) && Deleted(q) <= j
    ensures AfterPage(q) == q[Deleted(q)..] && AfterPage(q)[j - Deleted(q)] == q[j]
  {
    FillStopsAt(q, 0, j);
    FullFills(q, 0);
  }

  lemma {:induction false} NeverEnds(q: Store, j: nat, k: nat)
    requires j < |q| - 1 && |q[j].content| >= MAX_CONTENT_SIZE
    ensures More(AfterRounds(q, k))
    decreases k
  {
    hide More, Fill, Full, Deleted, AfterPage;
    BigStays(q, j);
    if k > 0 {
      NeverEnds(AfterPage(q), j - Deleted(q), k - 1);
    }
  }

  /** The loop ends exactly when no message but the last reaches 2 MiB. Otherwise that message comes to be the
      first of the page, is delivered again each time and never deleted. */
  lemma EndsIff(q: Store)
    ensures Ends(q) <==> AllButLastFit(q)
  {
    if AllButLastFit(q) {
      FitEnds(q);
    } else {
      var j :| 0 <= j < |q| - 1 && |q[j].content| >= MAX_CONTENT_SIZE;
      forall k: nat
        ensures More(AfterRounds(q, k))
      {
        NeverEnds(q, j, k);
      }
    }
  }

  /** All that the loop is sent, and what stays in the store. */
  function Drained(q: Store): Store
    requires AllButLastFit(q)
    decreases |q|
  {
    if More(q) then
      MoreShrinks(q);
      Delivered(q) + Drained(AfterPage(q))
    else Delivered(q)
  }

  function Left(q: Store): Store
    requires AllButLastFit(q)
    decreases |q|
  {
    if More(q) then MoreShrinks(q); Left(AfterPage(q)) else AfterPage(q)
  }

  /** d is q in order with some messages said twice in a row. */
  predicate Echo<T(==)>(q: seq<T>, d: seq<T>) {
    if q == [] then d == []
    else
      d != [] && d[0] == q[0] &&
      (Echo(q[1..], d[1..]) || (|d| >= 2 && d[1] == q[0] && Echo(q[1..], d[2..])))
  }

  lemma {:induction false} EchoSelf<T>(q: seq<T>)
    ensures Echo(q, q)
  {
    if q != [] {
      EchoSelf(q[1..]);
    }
  }

  lemma {:induction false} EchoPrefix<T>(a: seq<T>, q: seq<T>, d: seq<T>)
    requires Echo(q, d)
    ensures Echo(a + q, a + d)
  {
    if a == [] {
      assert a + q == q && a + d == d;
    } else {
      assert (a + q)[1..] == a[1..] + q && (a + d)[1..] == a[1..] + d;
      EchoPrefix(a[1..], q, d);
    }
  }

  /** Every message of the store arrives, in key order, once or twice in a row. */
  lemma {:induction false} DrainEchoes(q: Store)
    requires AllButLastFit(q)
    ensures Echo(q, Drained(q))
    ensures |q| >= 2 ==> Drained(q) != [] && Drained(q)[0] == q[0] && Echo(q[1..], Drained(q)[1..])
    decreases |q|
  {
    FullFills(q, 0);
    EchoSelf(q);
    if |q| >= 2 { EchoSelf(q[1..]); }
    if More(q) {
      MoreEchoes(q);
    } else {
      assert Delivered(q) == q;
    }
  }

  lemma MoreSplits(q: Store)
    requires AllButLastFit(q) && More(q)
    ensures AfterPage(q) != [] && Deleted(q) > 0
    ensures q == q[..Deleted(q)] + AfterPage(q) && Delivered(q) == q[..Deleted(q)] + [AfterPage(q)[0]]
  {
    FullFills(q, 0);
    MoreShrinks(q);
    FirstFits(q);
  }

  lemma {:induction false} MoreEchoes(q: Store)
    requires AllButLastFit(q) && More(q)
    ensures Echo(q, Drained(q)) && Drained(q)[0] == q[0] && Echo(q[1..], Drained(q)[1..])
    decreases |q|, 0
  {
    hide More, Fill, Full, Deleted, AfterPage, Delivered, Echo;
    MoreShrinks(q);
    MoreSplits(q);
    var n, rest, tail := Deleted(q), AfterPage(q), Drained(AfterPage(q));
    DrainEchoes(rest);
    EchoTwice(rest, tail);
    var d := [rest[0]] + tail;
    EchoPrefix(q[..n], rest, d);
    EchoPrefix(q[1..n], rest, d);
    assert Drained(q) == q[..n] + d;
    assert q[1..] == q[1..n] + rest && Drained(q)[1..] == q[1..n] + d;
  }

  lemma EchoTwice<T>(q: seq<T>, d: seq<T>)
    requires q != [] && d != [] && d[0] == q[0] && Echo(q[1..], d[1..])
    ensures Echo(q, [q[0]] + d)
  {
    var d' := [q[0]] + d;
    assert d'[0] == q[0] && d'[1] == d[0] && d'[2..] == d[1..];
    assert Echo(q[1..], d'[2..]);
  }

  lemma {:induction false} EchoCounts<T>(q: seq<T>, d: seq<T>)
    requires Echo(q, d)
    ensures forall x :: multiset(q)[x] <= multiset(d)[x] <= 2 * multiset(q)[x]
  {
    if q != [] {
      assert q == [q[0]] + q[1..] && d == [d[0]] + d[1..];
      if Echo(q[1..], d[1..]) {
        EchoCounts(q[1..], d[1..]);
      } else {
        EchoCounts(q[1..], d[2..]);
        assert d == [q[0], q[0]] + d[2..];
      }
    }
  }

  lemma {:induction false} SortedOnce(q: Store, x: Item)
    requires Sorted(q)
    ensures multiset(q)[x] == if x in q then 1 else 0
  {
    if q != [] {
      SortedOnce(q[1..], x);
      BelowHasNot(q[0].key, q[1..]);
      assert q == [q[0]] + q[1..];
    }
  }

  /** Each stored message is delivered at least once and at most twice, nothing else is, and the mailbox ends
      empty or with its last message alone. */
  lemma DrainDelivers(q: Store)
    requires Sorted(q) && AllButLastFit(q)
    ensures forall x :: x in Drained(q) <==> x in q
    ensures forall x | x in q :: 1 <= multiset(Drained(q))[x] <= 2
    ensures Left(q) == [] || (q != [] && Left(q) == [q[|q| - 1]])
  {
    DrainEchoes(q);
    EchoCounts(q, Drained(q));
    forall x: Item
      ensures multiset(q)[x] == if x in q then 1 else 0
    {
      SortedOnce(q, x);
    }
    assert forall x :: x in Drained(q) <==> x in multiset(Drained(q));
    LeftIsLast(q);
  }

  /** The last message stays just when it fills the last page. */
  lemma {:induction false} LeftExactly(q: Store)
    requires AllButLastFit(q)
    ensures Left(q) != [] <==> q != [] && Total(LastPage(q)) >= 2097152
    decreases |q|
  {
    FullFills(q, 0);
    if More(q) {
      MoreShrinks(q);
      LeftExactly(AfterPage(q));
    } else {
      assert q[..|q|] == q;
    }
  }

  /** What is left for the last request of the loop. */
  function LastPage(q: Store): Store
    requires AllButLastFit(q)
    decreases |q|
  {
    if More(q) then MoreShrinks(q); LastPage(AfterPage(q)) else q
  }

  lemma {:induction false} LeftIsLast(q: Store)
    requires AllButLastFit(q)
    ensures Left(q) == [] || (q != [] && Left(q) == [q[|q| - 1]])
    decreases |q|
  {
    FullFills(q, 0);
    if More(q) {
      MoreShrinks(q);
      LeftIsLast(AfterPage(q));
    }
  }

  // ----- what the client makes of it

  /** parseReadMailboxResponse: all of a page, or an error. */
  function ParsePage(page: Store): Option<seq<ReceiveMsg>> {
    if page == [] then Some([])
    else
      var m, rest := ParseItem(page[0].key, page[0].content, From()), ParsePage(page[1..]);
      if m.Some? && rest.Some? then Some([m.value] + rest.value) else None
  }

  /** The client's loop: the messages, whether it failed, and what the mailbox is left with. A page that does
      not parse is lost, but for the message that filled it. */
  function ReadAll(q: Store): (seq<ReceiveMsg>, bool, Store)
    requires AllButLastFit(q)
    decreases |q|
  {
    var msgs := ParsePage(Delivered(q));
    if msgs.None? then ([], true, AfterPage(q))
    else if !More(q) then (msgs.value, false, AfterPage(q))
    else
      MoreShrinks(q);
      var (later, err, left) := ReadAll(AfterPage(q));
      (msgs.value + later, err, left)
  }

  lemma {:induction false} ParsePageAppend(a: Store, b: Store)
    ensures ParsePage(a + b) ==
            if ParsePage(a).Some? && ParsePage(b).Some? then Some(ParsePage(a).value + ParsePage(b).value) else None
  {
    hide ParseItem;
    if a == [] {
      assert a + b == b;
      if ParsePage(b).Some? {
        assert ParsePage(a).value + ParsePage(b).value == ParsePage(b).value;
      }
    } else {
      assert (a + b)[1..] == a[1..] + b;
      ParsePageAppend(a[1..], b);
      if ParsePage(a).Some? && ParsePage(b).Some? {
        assert ParsePage(a).value + ParsePage(b).value ==
               [ParsePage(a).value[0]] + (ParsePage(a[1..]).value + ParsePage(b).value);
      }
    }
  }

  lemma {:induction false} ParsePageIff(page: Store)
    ensures ParsePage(page).Some? <==> forall x | x in page :: ParseItem(x.key, x.content, From()).Some?
    ensures ParsePage(page).Some? ==> |ParsePage(page).value| == |page|
    ensures ParsePage(page).Some? ==>
              forall i | 0 <= i < |page| ::
                ParseItem(page[i].key, page[i].content, From()) == Some(ParsePage(page).value[i])
  {
    if page != [] {
      ParsePageIff(page[1..]);
      assert forall x :: x in page <==> x == page[0] || x in page[1..];
    }
  }

  /** A read succeeds exactly when every stored key parses, and then it returns what DrainDelivers describes. */
  lemma {:induction false} ReadAllIff(q: Store)
    requires AllButLastFit(q)
    ensures !ReadAll(q).1 <==> ParsePage(q).Some?
    ensures !ReadAll(q).1 ==> Some(ReadAll(q).0) == ParsePage(Drained(q)) && ReadAll(q).2 == Left(q)
    decreases |q|
  {
    hide ParsePage, Fill, Full, Deleted;
    if More(q) {
      hide More, AfterPage, Delivered;
      MoreShrinks(q);
      MoreSplits(q);
      var rest := AfterPage(q);
      ReadAllIff(rest);
      ParsePageAppend(Delivered(q), Drained(rest));
      ParsePageAppend(q[..Deleted(q)], rest);
      ParsePageAppend(q[..Deleted(q)], [rest[0]]);
      assert rest == [rest[0]] + rest[1..];
      ParsePageAppend([rest[0]], rest[1..]);
    } else {
      FullFills(q, 0);
      assert Delivered(q) == q;
    }
  }

  // ----- over a network

  /** What becomes of a request and its reply; a time-out or the end of the context while waiting loses one. */
  datatype Trip = Answered | RequestLost | ReplyLost

  /** The client's loop when these are its trips, one for each page; one that is not listed is lost. */
  function ReadOver(q: Store, net: seq<Trip>): (seq<ReceiveMsg>, bool, Store)
    requires AllButLastFit(q)
    decreases |q|
  {
    var msgs := ParsePage(Delivered(q));
    if FirstTrip(net) == RequestLost then ([], true, q)
    else if FirstTrip(net) == ReplyLost || msgs.None? then ([], true, AfterPage(q))
    else if !More(q) then (msgs.value, false, AfterPage(q))
    else
      MoreShrinks(q);
      var (later, err, left) := ReadOver(AfterPage(q), net[1..]);
      (msgs.value + later, err, left)
  }

  function FirstTrip(net: seq<Trip>): (t: Trip)
    ensures t != RequestLost ==> net != []
  {
    if net == [] then RequestLost else net[0]
  }

  /** How many pages a mailbox makes. */
  function Pages(q: Store): (n: nat)
    requires AllButLastFit(q)
    ensures n > 0
    decreases |q|
  {
    if More(q) then MoreShrinks(q); 1 + Pages(AfterPage(q)) else 1
  }

  /** The first n trips are answered. */
  predicate Answers(net: seq<Trip>, n: nat) {
    n <= |net| && forall j | 0 <= j < n :: net[j] == Answered
  }

  lemma AnswersNext(net: seq<Trip>, n: nat)
    requires n > 0
    ensures Answers(net, n) <==> FirstTrip(net) == Answered && Answers(net[1..], n - 1)
  {
    if FirstTrip(net) == Answered && Answers(net[1..], n - 1) {
      assert forall j | 0 < j < n :: net[j] == net[1..][j - 1];
    }
  }

  /** A read succeeds exactly when every key parses and every page's trip is answered, and then the network makes no
      difference. */
  lemma {:induction false} ReadOverIff(q: Store, net: seq<Trip>)
    requires AllButLastFit(q)
    ensures !ReadOver(q, net).1 <==> ParsePage(q).Some? && Answers(net, Pages(q))
    ensures !ReadOver(q, net).1 ==> ReadOver(q, net) == ReadAll(q)
    decreases |q|
  {
    hide ParsePage, Fill, Full, Deleted, Answers;
    ReadAllIff(q);
    AnswersNext(net, Pages(q));
    if More(q) {
      hide More, AfterPage, Delivered;
      MoreShrinks(q);
      ReadAllIff(AfterPage(q));
      if FirstTrip(net) == Answered {
        ReadOverIff(AfterPage(q), net[1..]);
      }
    } else {
      assert Pages(q) == 1;
      assert FirstTrip(net) == Answered ==> Answers(net[1..], 0) by { NoneAsked(net); }
    }
  }

  lemma NoneAsked(net: seq<Trip>)
    ensures net != [] ==> Answers(net[1..], 0)
  {
  }

  /** When the trip after the first j is the first to fail, the j pages before it are returned, with the messages that
      filled one of them said twice. If it was the reply that was lost, the service has deleted that page all the
      same, and nothing of it is returned. */
  lemma {:induction false} LostTrip(q: Store, net: seq<Trip>, j: nat)
    requires AllButLastFit(q) && ParsePage(q).Some? && j < Pages(q)
    requires Answers(net, j) && FirstTrip(net[j..]) != Answered
    ensures ReadOver(q, net).1
    ensures var at := AfterRounds(q, j);
            && |at| <= |q| && |ReadOver(q, net).0| == |q| - |at| + j
            && ReadOver(q, net).2 == if FirstTrip(net[j..]) == ReplyLost then AfterPage(at) else at
    decreases |q|
  {
    assert j <= |net|;
    hide Fill, Full, Deleted, ParsePage, Answers, ReadAll, Drained, Left, More, AfterPage, Delivered, AllButLastFit;
    if j == 0 {
      assert net[0..] == net;
    } else {
      AnswersNext(net, j);
      ReadAllIff(q);
      MoreShrinks(q);
      RestParses(q);
      assert net[1..][j - 1..] == net[j..];
      LostTrip(AfterPage(q), net[1..], j - 1);
      PageParses(q);
    }
  }

  lemma RestParses(q: Store)
    requires AllButLastFit(q) && More(q) && ParsePage(q).Some?
    ensures ParsePage(AfterPage(q)).Some?
  {
    MoreSplits(q);
    hide *;
    ParsePageAppend(q[..Deleted(q)], AfterPage(q));
  }

  lemma PageParses(q: Store)
    requires AllButLastFit(q) && More(q) && ParsePage(q).Some?
    ensures ParsePage(Delivered(q)).Some? && |ParsePage(Delivered(q)).value| == |q| - |AfterPage(q)| + 1
  {
    hide Fill, Full, ParsePage;
    MoreSplits(q);
    ParsePageIff(q);
    ParsePageIff(Delivered(q));
  }

  // ----- from sender to receiver

  ghost predicate IsMail(x: Item, m: MsgReq) {
    PlainNames(m) && x == Item(StoredKey(m), m.content)
  }

  /** What requests with plain names leave in the store. */
  ghost predicate AllMail(q: Store) {
    forall x | x in q :: exists m :: IsMail(x, m)
  }

  /** If a user's mailbox holds messages with plain names, the read succeeds and returns each as it was sent. */
  lemma MailArrives(q: Store)
    requires Sorted(q) && AllButLastFit(q) && AllMail(q)
    ensures !ReadAll(q).1
    ensures forall x, m | x in q && IsMail(x, m) :: Received(m) in ReadAll(q).0
    ensures forall r | r in ReadAll(q).0 :: exists m :: Received(m) == r && Item(StoredKey(m), m.content) in q
  {
    hide StoredKey, ParseItem, ReadAll, Left;
    forall x | x in q
      ensures ParseItem(x.key, x.content, From()).Some?
    {
      var m :| IsMail(x, m);
      KeyRoundTrip(m);
    }
    ParsePageIff(q);
    ReadAllIff(q);
    DrainDelivers(q);
    var d, rs := Drained(q), ReadAll(q).0;
    ParsePageIff(d);
    hide Drained, AllButLastFit, Sorted, ParsePage;
    forall x, m | x in q && IsMail(x, m)
      ensures Received(m) in rs
    {
      var i :| 0 <= i < |d| && d[i] == x;
      KeyRoundTrip(m);
      assert rs[i] == Received(m);
    }
    forall r | r in rs
      ensures exists m :: Received(m) == r && Item(StoredKey(m), m.content) in q
    {
      var i :| 0 <= i < |d| && rs[i] == r;
      assert d[i] in d && d[i] in q;
      var m :| IsMail(d[i], m);
      KeyRoundTrip(m);
    }
  }

  /** Storing a message for a user adds it to that user's mail and keeps it all readable. */
  lemma MailStays(st: Store, m: MsgReq, pubkey: Bytes)
    requires Sorted(st) && Plain(pubkey) && PlainNames(m) && AllMail(Query(st, pubkey))
    ensures var q := Query(Put(st, StoredKey(m), m.content), pubkey);
            && Sorted(q) && AllMail(q)
            && (m.dest == pubkey ==> Item(StoredKey(m), m.content) in q)
            && (forall x | x in Query(st, pubkey) && x.key != StoredKey(m) :: x in q)
  {
    hide StoredKey, Selects;
    var st' := Put(st, StoredKey(m), m.content);
    PutItems(st, StoredKey(m), m.content);
    PrefixSelectsUser(pubkey, m);
    FilterSorted(st', (y: Item) => Selects(pubkey, y.key));
    forall x | x in Query(st', pubkey)
      ensures exists n :: IsMail(x, n)
    {
      if x == Item(StoredKey(m), m.content) {
        assert IsMail(x, m);
      } else {
        assert x in Query(st, pubkey);
      }
    }
  }

  // ----- a read that fails

  /** Where the page that does not parse begins, and what the pages before it delivered. */
  function FailAt(q: Store): (i: nat)
    requires AllButLastFit(q)
    ensures i <= |q|
    decreases |q|
  {
    if ParsePage(Delivered(q)).None? || !More(q) then 0
    else MoreShrinks(q); Deleted(q) + FailAt(AfterPage(q))
  }

  function PagesBefore(q: Store): Store
    requires AllButLastFit(q)
    decreases |q|
  {
    if ParsePage(Delivered(q)).None? || !More(q) then []
    else MoreShrinks(q); Delivered(q) + PagesBefore(AfterPage(q))
  }

  /** A failed read ends at a page that does not parse. It returns the pages before, and that page is deleted,
      but for a message that filled it. */
  lemma {:induction false} FailedRead(q: Store)
    requires AllButLastFit(q) && ReadAll(q).1
    ensures var i := FailAt(q);
            && i < |q| && ParsePage(Delivered(q[i..])).None?
            && ReadAll(q).2 == AfterPage(q[i..])
            && Some(ReadAll(q).0) == ParsePage(PagesBefore(q))
            && (i == 0 ==> PagesBefore(q) == [])
            && (forall x | x in PagesBefore(q) :: x in q[..i + 1])
    decreases |q|
  {
    hide Fill, Full, ParsePage, AllButLastFit, Delivered, AfterPage, Deleted, More;
    if ParsePage(Delivered(q)).None? {
      NothingParses(q);
      assert q[0..] == q;
    } else {
      MoreShrinks(q);
      MoreSplits(q);
      assert AfterPage(q) == q[Deleted(q)..] by { AfterIs(q); }
      var n, rest := Deleted(q), AfterPage(q);
      FailedRead(rest);
      ParsePageAppend(Delivered(q), PagesBefore(rest));
      Shifted(q, n, FailAt(rest), PagesBefore(rest));
    }
  }

  /** What holds of the rest of a mailbox, from n on, said of the whole. */
  lemma Shifted(q: Store, n: nat, k: nat, before: Store)
    requires n <= |q| && k < |q[n..]| && (forall x | x in before :: x in q[n..][..k + 1])
    ensures q[n + k..] == q[n..][k..]
    ensures forall x | x in q[..n] + [q[n..][0]] + before :: x in q[..n + k + 1]
  {
    var rest := q[n..];
    assert q[..n + k + 1] == q[..n] + rest[..k + 1];
    assert rest[0] == rest[..k + 1][0];
  }

  lemma NothingParses(q: Store)
    requires ParsePage(Delivered(q)).None?
    ensures q != [] && ParsePage([]) == Some([])
  {
  }

  lemma AfterIs(q: Store)
    ensures AfterPage(q) == q[Deleted(q)..]
  {
  }

  /** So every other message of that page is lost, whoever sent it: neither returned nor left to read again. */
  lemma PageIsLost(q: Store, j: nat)
    requires Sorted(q) && AllButLastFit(q) && ReadAll(q).1
    requires FailAt(q) < j < FailAt(q) + Deleted(q[FailAt(q)..]) && j < |q|
    ensures q[j] !in PagesBefore(q) && q[j] !in ReadAll(q).2
  {
    FailedRead(q);
    DistinctAt(q, j);
    AfterIs(q[FailAt(q)..]);
    hide *;
  }

  lemma DistinctAt(q: Store, j: nat)
    requires Sorted(q) && j < |q|
    ensures forall k | 0 <= k < |q| && k != j :: q[k] != q[j]
  {
    forall k | 0 <= k < |q| && k != j
      ensures q[k] != q[j]
    {
      SortedDistinct(q, if k < j then k else j, if k < j then j else k);
    }
  }

  lemma {:induction false} SortedDistinct(q: Store, i: nat, j: nat)
    requires Sorted(q) && i < j < |q|
    ensures q[i] != q[j]
  {
    if i == 0 {
      BelowHasNot(q[0].key, q[1..]);
      assert q[j] == q[1..][j - 1];
    } else {
      SortedDistinct(q[1..], i - 1, j - 1);
    }
  }

  /** A message whose ID is empty, or whose names are otherwise not plain, fails the read of its page, and its
      page is deleted all the same. */
  lemma MalformedMailIsLost(m: MsgReq)
    requires SLASH !in m.src && SLASH !in m.dest && SLASH !in m.id && !PlainNames(m)
    requires |m.content| < MAX_CONTENT_SIZE
    ensures ReadAll([Item(StoredKey(m), m.content)]) == ([], true, [])
  {
    hide StoredKey;
    var q := [Item(StoredKey(m), m.content)];
    ShortKeyFields(m);
    assert q[1..] == [];
    assert !Full(q, 0) && Fill(q, 0) == 1;
    assert Delivered(q) == q;
    assert ParsePage(q).None?;
    assert AfterPage(q) == [];
  }
}
