/** The mailbox service (dmsg/service/mailbox/service.go) and the client's read of it (client.go). Requests
    reach the service and replies the client; the order of map iteration is left open. */
module MailboxService {
  import opened GoTypes
  import opened MailboxKeys
  import opened MailboxPaging
  import opened SubscriptionIndex

  datatype ReadReq = ReadReq(peerID: Bytes, pubkey: Bytes, proxyPubkey: Bytes, clearMode: bool)

  /** Silent sends no response, Refused an error. */
  datatype ReadReply = Silent | Refused | Reply(items: seq<Item>, existData: bool)

  /** Whose mail a request is for: a proxy key, when there is one, stands in for the requester's. */
  function UserOf(req: ReadReq): (user: Bytes)
    ensures req.proxyPubkey != [] ==> user == req.proxyPubkey
    ensures req.proxyPubkey == [] ==> user == req.pubkey
  {
    if req.proxyPubkey != [] then req.proxyPubkey else req.pubkey
  }

  /** How a page of the mailbox of pubkey is served, from one state of the store to the next. */
  ghost predicate Served(users: set<Bytes>, pubkey: Bytes, before: Store, after: Store, clearMode: bool, fails: bool,
                         stuck: set<Bytes>, r: ReadReply) {
    if pubkey !in users || fails then r == Refused && after == before
    else
      var q := Query(before, pubkey);
      && r == (if clearMode then Reply([], false) else Reply(Delivered(q), More(q)))
      && after == Without(before, Deletable(Keys(q[..if clearMode then |q| else Deleted(q)]), stuck))
      && (stuck == {} ==> Query(after, pubkey) == if clearMode then [] else AfterPage(q))
      && Others(after, pubkey) == Others(before, pubkey)
  }

  class Service {
    const peerID: Bytes
    var enable: bool
    var serviceUserList: set<Bytes>
    var datastore: Store
    var subscribed: Db
    var legacyList: Option<seq<Bytes>>

    constructor (peerID: Bytes, enable: bool, store: Store, db: Db, legacy: Option<seq<Bytes>>)
      requires Sorted(store)
      ensures Valid() && serviceUserList == {} && datastore == store && subscribed == db && legacyList == legacy
      ensures this.peerID == peerID && this.enable == enable
    {
      this.peerID, this.enable := peerID, enable;
      serviceUserList, datastore, subscribed, legacyList := {}, store, db, legacy;
    }

    ghost predicate Valid()
      reads this
    {
      Sorted(datastore)
    }

    /** Whether a read request gets a page. */
    predicate Serves(req: ReadReq)
      reads this`enable, this`serviceUserList
    {
      enable && req.peerID != peerID && UserOf(req) in serviceUserList
    }

    /** Stores the message under its key, if the receiver has a mailbox here; `fails` is an error of the datastore. */
    method OnPubsubMsgRequest(m: MsgReq, fails: bool) returns (err: bool)
      requires Valid()
      modifies this`datastore
      ensures Valid()
      ensures err == (enable && (m.dest !in serviceUserList || fails))
      ensures datastore == if enable && m.dest in serviceUserList && !fails
                           then Put(old(datastore), StoredKey(m), m.content) else old(datastore)
    {
      if !enable {
        return false;
      }
      if m.dest !in serviceUserList {
        return true;
      }
      if fails {
        return true;
      }
      PutItems(datastore, StoredKey(m), m.content);
      datastore := Put(datastore, StoredKey(m), m.content);
      return false;
    }

    /** Answers with the next page and deletes it, but for a message that filled it; in clear mode deletes all.
        `fails` is an error of the query, `stuck` are the keys whose deletion fails, which is not reported. */
    method OnReadMailboxRequest(req: ReadReq, fails: bool, stuck: set<Bytes>) returns (r: ReadReply)
      requires Valid()
      modifies this`datastore
      ensures Valid()
      ensures !enable || req.peerID == peerID ==> r == Silent && datastore == old(datastore)
      ensures enable && req.peerID != peerID && req.proxyPubkey != [] ==>
                Served(serviceUserList, req.proxyPubkey, old(datastore), datastore, req.clearMode, fails, stuck, r)
      ensures enable && req.peerID != peerID && req.proxyPubkey == [] ==>
                Served(serviceUserList, req.pubkey, old(datastore), datastore, req.clearMode, fails, stuck, r)
    {
      hide Filter, Selects, Sorted, Fill, Full, Without, Keys, StoredKey;
      if !enable || req.peerID == peerID {
        return Silent;
      }
      var pubkey := req.pubkey;
      if req.proxyPubkey != [] {
        pubkey := req.proxyPubkey;
      }
      if pubkey !in serviceUserList {
        return Refused;
      }
      if fails {
        return Refused;
      }
      var results := Query(datastore, pubkey);
      var mailboxMsgDataList, needDeleteKeyList, existData, n := CollectPage(results, req.clearMode);
      DeleteKeys(needDeleteKeyList, stuck);
      WithoutSome(old(datastore), pubkey, n, stuck);
      WithoutFirst(old(datastore), pubkey, n);
      DeletableAll(needDeleteKeyList);
      assert results[..|results|] == results;
      return Reply(mailboxMsgDataList, existData);
    }

    /** The loop that deletes the collected keys. */
    method DeleteKeys(keys: seq<Bytes>, stuck: set<Bytes>)
      modifies this`datastore
      ensures datastore == Without(old(datastore), Deletable(keys, stuck))
    {
      hide Without, Deletable, Delete;
      var i := 0;
      WithoutNone(datastore, keys, stuck);
      while i < |keys|
        invariant i <= |keys| && datastore == Without(old(datastore), Deletable(keys[..i], stuck))
      {
        WithoutNext(old(datastore), keys, i, stuck);
        if keys[i] !in stuck {
          datastore := Delete(datastore, keys[i]);
        }
        i := i + 1;
      }
      assert keys[..i] == keys;
    }

    /** saveSubscribeMailboxList */
    method SaveSubscribeMailboxList()
      modifies this`subscribed
      ensures subscribed == Saved(old(subscribed), serviceUserList)
    {
      hide On, Off, Saved;
      var todo := subscribed.Keys;
      while todo != {}
        invariant todo <= subscribed.Keys == old(subscribed).Keys
        invariant Settled(subscribed, todo, serviceUserList)
        decreases |todo|
      {
        var userid :| userid in todo;
        if userid in serviceUserList {
          if subscribed[userid] != On() {
            subscribed := subscribed[userid := On()];
          }
        } else {
          if subscribed[userid] != Off() {
            subscribed := subscribed[userid := Off()];
          }
        }
        todo := todo - {userid};
      }
      AddNewUsers();
      SavedIs(old(subscribed), serviceUserList, subscribed);
    }

    /** The second loop of the save: users the database does not know yet. */
    method AddNewUsers()
      requires Settled(subscribed, {}, serviceUserList)
      modifies this`subscribed
      ensures Settled(subscribed, {}, serviceUserList)
      ensures subscribed.Keys == old(subscribed).Keys + serviceUserList
    {
      hide Settled;
      var todo := serviceUserList;
      while todo != {}
        invariant todo <= serviceUserList
        invariant old(subscribed).Keys <= subscribed.Keys <= old(subscribed).Keys + serviceUserList
        invariant serviceUserList - todo <= subscribed.Keys
        invariant Settled(subscribed, {}, serviceUserList)
        decreases |todo|
      {
        var pubkey :| pubkey in todo;
        if pubkey !in subscribed {
          SettledNew(subscribed, pubkey, serviceUserList);
          subscribed := subscribed[pubkey := On()];
        }
        todo := todo - {pubkey};
      }
    }

    /** loadSubscribeMailboxList: takes over the list of an older version, once, then subscribes the marked. */
    method LoadSubscribeMailboxList(failing: set<Bytes>)
      modifies this`subscribed, this`legacyList, this`serviceUserList
      ensures legacyList == None
      ensures subscribed == if old(legacyList).Some? then Imported(old(subscribed), old(legacyList).value)
                            else old(subscribed)
      ensures serviceUserList == Loaded(subscribed, old(serviceUserList), failing)
    {
      hide Imported, Marked, On;
      if legacyList.Some? {
        var userList := legacyList.value;
        legacyList := None;
        ImportedNone(subscribed);
        for i := 0 to |userList|
          invariant subscribed == Imported(old(subscribed), userList[..i])
          invariant legacyList == None && serviceUserList == old(serviceUserList)
        {
          assert userList[..i + 1] == userList[..i] + [userList[i]];
          ImportedSnoc(old(subscribed), userList[..i], userList[i]);
          subscribed := subscribed[userList[i] := On()];
        }
        assert userList[..|userList|] == userList;
      }
      SubscribeMarked(failing);
    }

    /** The loop over the database of the load. */
    method SubscribeMarked(failing: set<Bytes>)
      modifies this`serviceUserList
      ensures serviceUserList == Loaded(subscribed, old(serviceUserList), failing)
    {
      hide On;
      var todo := subscribed.Keys;
      ghost var marked := Marked(subscribed);
      assert forall k :: k in marked <==> k in subscribed && subscribed[k] == On();
      hide Marked;
      while todo != {}
        invariant todo <= subscribed.Keys
        invariant forall k :: k in serviceUserList <==>
                    k in old(serviceUserList) || (k in marked && k !in todo && k !in failing)
        decreases |todo|
      {
        var userid :| userid in todo;
        if subscribed[userid] == On() && userid !in serviceUserList && userid !in failing {
          serviceUserList := serviceUserList + {userid};
        }
        todo := todo - {userid};
      }
    }
  }

  /** The loop over the query's results: the items for the reply, the keys to delete and how many those are. */
  method CollectPage(results: Store, clearMode: bool) returns (items: Store, keys: seq<Bytes>, existData: bool,
                     ghost n: nat)
    ensures n == if clearMode then |results| else Deleted(results)
    ensures n <= |results| && keys == Keys(results[..n])
    ensures items == if clearMode then [] else Delivered(results)
    ensures existData <==> !clearMode && More(results)
  {
    items, keys, existData, n := [], [], false, 0;
    var factSize: nat := 0;
    var next := 0;
    assert results[..0] == [] && results[0..] == results;
    while next < |results|
      invariant n == next <= |results| && keys == Keys(results[..n]) && !existData
      invariant clearMode ==> items == []
      invariant !clearMode ==> items == results[..n] && factSize < MAX_CONTENT_SIZE
      invariant !clearMode ==> Fill(results, 0) == n + Fill(results[n..], factSize)
      invariant !clearMode ==> Full(results, 0) == Full(results[n..], factSize)
    {
      var result := results[next];
      next := next + 1;
      assert results[n..][1..] == results[next..] && results[..next] == results[..n] + [result];
      if !clearMode {
        items := items + [result];
        factSize := factSize + |result.content|;
        if factSize >= MAX_CONTENT_SIZE {
          existData := next < |results|;
          return;
        }
      }
      KeysSnoc(results[..n], result);
      keys := keys + [result.key];
      n := next;
    }
    assert results[..|results|] == results;
  }

  lemma KeysSnoc(items: Store, x: Item)
    ensures Keys(items + [x]) == Keys(items) + [x.key]
  {
    assert forall i | 0 <= i < |items| :: (items + [x])[i] == items[i];
  }

  lemma ParseOne(x: Item)
    ensures var m := ParseItem(x.key, x.content, From());
            ParsePage([x]) == if m.Some? then Some([m.value]) else None
  {
    hide ParseItem;
    var none: Store := [];
    assert [x][1..] == none && ParsePage(none) == Some([]);
    var m := ParseItem(x.key, x.content, From());
    if m.Some? { assert [m.value] + ParsePage(none).value == [m.value]; }
  }

  /** parseReadMailboxResponse */
  method ParseReadMailboxResponse(page: Store) returns (msgs: seq<ReceiveMsg>, err: bool)
    ensures err <==> ParsePage(page).None?
    ensures !err ==> ParsePage(page) == Some(msgs)
  {
    hide ParseItem;
    msgs := [];
    assert page[..0] == [];
    for i := 0 to |page|
      invariant ParsePage(page[..i]) == Some(msgs)
    {
      var m := ParseItem(page[i].key, page[i].content, From());
      assert page[..i + 1] == page[..i] + [page[i]];
      ParseOne(page[i]);
      ParsePageAppend(page[..i], [page[i]]);
      if m.None? {
        assert page == page[..i + 1] + page[i + 1..];
        ParsePageAppend(page[..i + 1], page[i + 1..]);
        return [], true;
      }
      msgs := msgs + [m.value];
    }
    assert page[..|page|] == page;
    return msgs, false;
  }

  /** One round of the client's loop on a mailbox q: the messages of the page, whether to go on, whether it failed,
      and what is left. */
  function Round(serves: bool, clearMode: bool, q: Store, trip: Trip): (seq<ReceiveMsg>, bool, bool, Store) {
    if !serves || trip == RequestLost then ([], false, true, q)
    else if clearMode then ([], false, trip != Answered, [])
    else
      var msgs := ParsePage(Delivered(q));
      if trip == ReplyLost || msgs.None? then ([], false, true, AfterPage(q))
      else (msgs.value, More(q), false, AfterPage(q))
  }

  /** What the loop makes of it: the messages, whether it failed, and what is left. */
  function ReadOutcome(serves: bool, clearMode: bool, q: Store, net: seq<Trip>): (seq<ReceiveMsg>, bool, Store)
    requires clearMode || AllButLastFit(q)
  {
    if !serves then ([], true, q)
    else if clearMode then ([], FirstTrip(net) != Answered, if FirstTrip(net) == RequestLost then q else [])
    else ReadOver(q, net)
  }

  /** The outcome with msgs gathered and q to come. */
  function ReadOn(serves: bool, clearMode: bool, msgs: seq<ReceiveMsg>, q: Store, net: seq<Trip>):
      (seq<ReceiveMsg>, bool, Store)
    requires clearMode || AllButLastFit(q)
  {
    var (later, err, left) := ReadOutcome(serves, clearMode, q, net);
    (msgs + later, err, left)
  }

  lemma ReadOnNothing(serves: bool, clearMode: bool, q: Store, net: seq<Trip>)
    requires clearMode || AllButLastFit(q)
    ensures ReadOn(serves, clearMode, [], q, net) == ReadOutcome(serves, clearMode, q, net)
  {
    hide ReadOutcome;
    var none: seq<ReceiveMsg> := [];
    assert none + ReadOutcome(serves, clearMode, q, net).0 == ReadOutcome(serves, clearMode, q, net).0;
  }

  lemma ReadOnRound(serves: bool, clearMode: bool, msgs: seq<ReceiveMsg>, q: Store, net: seq<Trip>)
    requires clearMode || AllButLastFit(q)
    ensures var (page, more, err, left) := Round(serves, clearMode, q, FirstTrip(net));
            var r := ReadOn(serves, clearMode, msgs, q, net);
            if err then r == (msgs, true, left)
            else if !more then r == (msgs + page, false, left)
            else !clearMode && net != [] && AllButLastFit(left) && |left| < |q| &&
                 r == ReadOn(serves, clearMode, msgs + page, left, net[1..])
  {
    hide ParsePage, Fill, Full, Deleted;
    var (page, more, err, left) := Round(serves, clearMode, q, FirstTrip(net));
    var later := ReadOutcome(serves, clearMode, q, net).0;
    if err {
      assert msgs + later == msgs;
    } else if more {
      MoreShrinks(q);
      hide AfterPage, Delivered, AllButLastFit, More;
      var rest := ReadOver(left, net[1..]).0;
      assert msgs + (page + rest) == msgs + page + rest;
    }
  }

  /** One round of the client's loop: a request, its reply and the messages in it. */
  method ReadPage(service: Service, req: ReadReq, trip: Trip) returns (page: seq<ReceiveMsg>, more: bool, err: bool)
    requires service.Valid()
    modifies service`datastore
    ensures service.Valid()
    ensures Others(service.datastore, UserOf(req)) == Others(old(service.datastore), UserOf(req))
    ensures !service.Serves(req) ==> service.datastore == old(service.datastore)
    ensures (page, more, err, Query(service.datastore, UserOf(req))) ==
            Round(service.Serves(req), req.clearMode, Query(old(service.datastore), UserOf(req)), trip)
  {
    assert ParsePage([]) == Some([]);
    hide Without, Deletable, Keys, ParsePage, More, Delivered, AfterPage, Query, Others;
    page, more := [], false;
    if trip == RequestLost {
      return page, more, true;
    }
    var r := service.OnReadMailboxRequest(req, false, {});
    if trip == ReplyLost || !r.Reply? {
      return page, more, true;
    }
    page, err := ParseReadMailboxResponse(r.items);
    if err {
      return [], false, true;
    }
    more := r.existData;
  }

  /** The client's loop over any network, against a service nobody else writes to meanwhile. Without the bound on the
      messages it need not end: EndsIff says exactly when it does. */
  method ReadMailbox(service: Service, req: ReadReq, net: seq<Trip>)
    returns (msgList: seq<ReceiveMsg>, err: bool)
    requires service.Valid()
    requires !req.clearMode ==> AllButLastFit(Query(service.datastore, UserOf(req)))
    modifies service`datastore
    ensures service.Valid()
    ensures Others(service.datastore, UserOf(req)) == Others(old(service.datastore), UserOf(req))
    ensures (msgList, err, Query(service.datastore, UserOf(req))) ==
            ReadOutcome(service.Serves(req), req.clearMode, Query(old(service.datastore), UserOf(req)), net)
    ensures !service.Serves(req) ==> service.datastore == old(service.datastore)
    ensures req.proxyPubkey != [] && req.proxyPubkey != req.pubkey && Plain(req.proxyPubkey) && Plain(req.pubkey) ==>
              Query(service.datastore, req.pubkey) == Query(old(service.datastore), req.pubkey)
  {
    ghost var user := UserOf(req);
    ghost var q0 := Query(service.datastore, user);
    ReadOnNothing(service.Serves(req), req.clearMode, q0, net);
    assert net[0..] == net;
    hide ReadOutcome, ReadOn, Round, FirstTrip, AllButLastFit, Query, Others, UserOf;
    msgList := [];
    var k := 0;
    while true
      invariant k <= |net| && service.Valid()
      invariant Others(service.datastore, user) == Others(old(service.datastore), user)
      invariant !service.Serves(req) ==> service.datastore == old(service.datastore)
      invariant req.clearMode || (AllButLastFit(q0) && AllButLastFit(Query(service.datastore, user)))
      invariant ReadOutcome(service.Serves(req), req.clearMode, q0, net) ==
                ReadOn(service.Serves(req), req.clearMode, msgList, Query(service.datastore, user), net[k..])
      decreases |Query(service.datastore, user)|
    {
      ReadOnRound(service.Serves(req), req.clearMode, msgList, Query(service.datastore, user), net[k..]);
      var page, more;
      page, more, err := ReadPage(service, req, FirstTrip(net[k..]));
      if err {
        break;
      }
      msgList := msgList + page;
      if !more {
        break;
      }
      assert net[k..][1..] == net[k + 1..];
      k := k + 1;
    }
    if req.proxyPubkey != [] && req.proxyPubkey != req.pubkey && Plain(req.proxyPubkey) && Plain(req.pubkey) {
      NobodyElse(old(service.datastore), service.datastore, user, req.pubkey);
    }
  }
}
