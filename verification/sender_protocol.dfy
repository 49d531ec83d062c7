/** The stream-reusing message sender (dkvs/kaddht/message_sender.go) under every interleaving of sends,
    disconnects and failed preparations. A step is a critical section of the map lock, the taking or
    releasing of a sender's lock, the cancelling of a wait for it, or one network call or field update under
    that lock. */
module SenderProtocol {
  import opened GoTypes
  import opened SenderSteps

  /** A peerMessageSender: its peer, the guarded fields, and its lock, a channel of capacity one. The
      occupant is recorded for the proof; taking and releasing look only at whether there is one. */
  datatype Cell = Cell(peer: nat, s: Sender, lk: Option<nat>)

  /** senders is the heap of senders ever created, threads the calls ever started. Recorded for the proof:
      `abandoned` are the senders that a cancelled wait left without their invalidation. */
  datatype State = State(strmap: map<nat, nat>, senders: seq<Cell>, threads: seq<Pc>, net: Net, abandoned: set<nat>)

  const INIT := State(map[], [], [], Net(0, {}), {})

  datatype Event =
    | Call(p: nat, req: bool)       // SendMessage or SendRequest is called
    | Disconnect(p: nat)            // OnDisconnect is called
    | Run(t: nat, ok: bool)         // call t takes its next step
    | Cancel(t: nat)                // the context of call t ends while it waits for a lock

  /** The sender a call refers to. */
  function SenderOf(pc: Pc): Option<nat> {
    if pc.Lookup? || pc.Done? then None else Some(pc.ms)
  }

  /** The peer a call inside messageSenderForPeer works for. */
  predicate ForPeer(pc: Pc, p: nat) {
    (pc.PrepWait? || pc.Prepping? || pc.PrepAbort? || pc.PrepUnlock? || pc.PrepFailed?) ==> pc.p == p
  }

  predicate Waits(pc: Pc) {
    pc.PrepWait? || pc.SendWait? || pc.DropWait?
  }

  /** No call refers to a sender that does not exist. */
  predicate Refs(s: State) {
    && (forall t | 0 <= t < |s.threads| :: SenderOf(s.threads[t]).Some? ==>
          SenderOf(s.threads[t]).value < |s.senders| &&
          ForPeer(s.threads[t], s.senders[SenderOf(s.threads[t]).value].peer))
    && (forall p | p in s.strmap :: s.strmap[p] < |s.senders| && s.senders[s.strmap[p]].peer == p)
  }

  /** A step under a lock that uses the stream finds one. */
  predicate StreamsThere(s: State)
    requires Refs(s)
  {
    forall t | 0 <= t < |s.threads| && NeedsStream(s.threads[t]) :: s.senders[s.threads[t].ms].s.stream.Some?
  }

  predicate Enabled(s: State, e: Event)
    requires Refs(s)
  {
    if e.Run? then
      e.t < |s.threads| &&
      var pc := s.threads[e.t];
      !pc.Done? && (Waits(pc) ==> s.senders[pc.ms].lk.None?)
    else
      e.Cancel? ==> e.t < |s.threads| && Waits(s.threads[e.t])
  }

  function Goto(s: State, t: nat, pc: Pc): State
    requires t < |s.threads|
  {
    s.(threads := s.threads[t := pc])
  }

  /** messageSenderForPeer up to the release of the map lock. */
  function StepLookup(s: State, t: nat): State
    requires t < |s.threads| && s.threads[t].Lookup?
  {
    var Lookup(p, req) := s.threads[t];
    if p in s.strmap then Goto(s, t, SendWait(s.strmap[p], req))
    else
      var ms := |s.senders|;
      Goto(s.(strmap := s.strmap[p := ms], senders := s.senders + [Cell(p, NEW_SENDER, None)]), t, PrepWait(p, ms, req))
  }

  /** The second map section of messageSenderForPeer, after a failed preparation. */
  function StepPrepFailed(s: State, t: nat): State
    requires t < |s.threads| && s.threads[t].PrepFailed?
  {
    var PrepFailed(p, ms, req) := s.threads[t];
    if p in s.strmap then
      if s.strmap[p] != ms then Goto(s, t, SendWait(s.strmap[p], req))
      else Goto(s.(strmap := s.strmap - {p}), t, Done)
    else Goto(s, t, Done)
  }

  /** Where a call stands once it has the lock, and once it has given it back. */
  function Locked(pc: Pc): Pc
    requires Waits(pc)
  {
    match pc
    case PrepWait(p, ms, req) => Prepping(p, ms, req)
    case SendWait(ms, req) => SendPrep(ms, req, false)
    case DropWait(ms) => Dropping(ms)
  }

  function Unlocked(pc: Pc): Pc
    requires AtUnlock(pc)
  {
    match pc
    case PrepUnlock(p, ms, req, ok) => if ok then SendWait(ms, req) else PrepFailed(p, ms, req)
    case SendUnlock(_, _) => Done
    case DropUnlock(_) => Done
  }

  function SetLock(s: State, ms: nat, lk: Option<nat>): State
    requires ms < |s.senders|
  {
    s.(senders := s.senders[ms := s.senders[ms].(lk := lk)])
  }

  function TakeLock(s: State, t: nat): State
    requires Refs(s) && t < |s.threads| && Waits(s.threads[t])
  {
    Goto(SetLock(s, s.threads[t].ms, Some(t)), t, Locked(s.threads[t]))
  }

  function GiveLock(s: State, t: nat): State
    requires Refs(s) && t < |s.threads| && AtUnlock(s.threads[t])
  {
    Goto(SetLock(s, s.threads[t].ms, None), t, Unlocked(s.threads[t]))
  }

  function StepSection(s: State, t: nat, ok: bool): State
    requires Refs(s) && StreamsThere(s) && t < |s.threads| && InSection(s.threads[t])
  {
    var ms := s.threads[t].ms;
    var (pc', f, net') := Local(s.threads[t], s.senders[ms].s, s.net, ok);
    Goto(s.(senders := s.senders[ms := s.senders[ms].(s := f)], net := net'), t, pc')
  }

  function StepRun(s: State, t: nat, ok: bool): State
    requires Refs(s) && StreamsThere(s) && Enabled(s, Run(t, ok))
  {
    var pc := s.threads[t];
    if pc.Lookup? then StepLookup(s, t)
    else if pc.PrepFailed? then StepPrepFailed(s, t)
    else if Waits(pc) then TakeLock(s, t)
    else if AtUnlock(pc) then GiveLock(s, t)
    else StepSection(s, t, ok)
  }

  /** Lock returns an error. A call in prepOrInvalidate goes on to the map all the same; only a send just ends. */
  function StepCancel(s: State, t: nat): State
    requires t < |s.threads| && Waits(s.threads[t])
  {
    match s.threads[t]
    case PrepWait(p, ms, req) => Goto(s.(abandoned := s.abandoned + {ms}), t, PrepFailed(p, ms, req))
    case SendWait(_, _) => Goto(s, t, Done)
    case DropWait(ms) => Goto(s.(abandoned := s.abandoned + {ms}), t, Done)
  }

  function Next(s: State, e: Event): State
    requires Refs(s) && StreamsThere(s) && Enabled(s, e)
  {
    match e
    case Call(p, req) => s.(threads := s.threads + [Lookup(p, req)])
    case Disconnect(p) =>
      if p !in s.strmap then s
      else s.(strmap := s.strmap - {p}, threads := s.threads + [DropWait(s.strmap[p])])
    case Run(t, ok) => StepRun(s, t, ok)
    case Cancel(t) => StepCancel(s, t)
  }

  // ----- the invariant

  /** The occupant of a sender's lock is the one call inside its critical section. */
  predicate Locks(s: State)
    requires Refs(s)
  {
    && (forall t | 0 <= t < |s.threads| && HoldsLock(s.threads[t]) :: s.senders[s.threads[t].ms].lk == Some(t))
    && (forall ms | 0 <= ms < |s.senders| && s.senders[ms].lk.Some? ::
          var t := s.senders[ms].lk.value;
          t < |s.threads| && HoldsLock(s.threads[t]) && s.threads[t].ms == ms)
  }

  predicate InMap(s: State, ms: nat) {
    exists p :: p in s.strmap && s.strmap[p] == ms
  }

  /** An invalidation is on its way. */
  predicate Dropped(pc: Pc, ms: nat) {
    (pc.DropWait? || pc.Dropping?) && pc.ms == ms
  }

  predicate DropPending(s: State, ms: nat) {
    exists t :: 0 <= t < |s.threads| && Dropped(s.threads[t], ms)
  }

  /** Invalid, or never to be invalidated because the wait for its lock was cancelled. */
  predicate Finished(s: State, ms: nat)
    requires ms < |s.senders|
  {
    s.senders[ms].s.invalid || ms in s.abandoned
  }

  /** Every sender is in the map, about to be invalidated, or finished; so is that of a call that gave up on its
      preparation. */
  predicate Accounted(s: State)
    requires Refs(s)
  {
    && (forall ms | 0 <= ms < |s.senders| :: InMap(s, ms) || DropPending(s, ms) || Finished(s, ms))
    && (forall t | 0 <= t < |s.threads| && GaveUp(s.threads[t]) :: Finished(s, s.threads[t].ms))
  }

  predicate GaveUp(pc: Pc) {
    pc.PrepFailed? || (pc.PrepUnlock? && !pc.ok)
  }

  predicate FieldsOk(f: Sender, net: Net) {
    (f.invalid ==> f.stream.None?) && f.singleMes <= STREAM_REUSE_TRIES + 1 && Held(f, net)
  }

  predicate Fields(s: State) {
    forall ms | 0 <= ms < |s.senders| :: FieldsOk(s.senders[ms].s, s.net)
  }

  /** The open streams are the held ones, each held by one sender. */
  predicate Conserved(s: State) {
    && (forall x | x in s.net.open ::
          x < s.net.next && exists ms :: 0 <= ms < |s.senders| && s.senders[ms].s.stream == Some(x))
    && (forall ms, ns | 0 <= ms < ns < |s.senders| && s.senders[ms].s.stream.Some? ::
          s.senders[ms].s.stream != s.senders[ns].s.stream)
  }

  predicate Inv(s: State) {
    Refs(s) && StreamsThere(s) && Locks(s) && Accounted(s) && Fields(s) && Conserved(s)
  }

  // ----- every step keeps it

  /** Two steps under locks of different senders do not touch each other's; these say what one does to its
      own. */
  lemma LocalKeeps(pc: Pc, f: Sender, net: Net, ok: bool)
    requires InSection(pc) && (NeedsStream(pc) ==> f.stream.Some?) && FieldsOk(f, net)
    ensures var (pc', f', net') := Local(pc, f, net, ok);
            && FieldsOk(f', net') && HoldsLock(pc') && pc'.ms == pc.ms
            && (forall p :: ForPeer(pc, p) ==> ForPeer(pc', p))
            && (NeedsStream(pc') ==> f'.stream.Some?)
            && (GaveUp(pc') ==> f'.invalid) && (f.invalid ==> f'.invalid)
            && (pc.Dropping? ==> f'.invalid) && !pc'.Dropping? && !pc'.DropWait?
  {
  }

  lemma LocalStreams(pc: Pc, f: Sender, net: Net, ok: bool)
    requires InSection(pc) && (NeedsStream(pc) ==> f.stream.Some?) && FieldsOk(f, net)
    requires forall x | x in net.open :: x < net.next
    ensures var (pc', f', net') := Local(pc, f, net, ok);
            && net.next <= net'.next && (forall x | x in net'.open :: x < net'.next)
            && net'.open == net.open - Holding(f) + Holding(f')
            && (f'.stream.Some? ==> f'.stream == f.stream || f'.stream.value == net.next)
  {
  }

  lemma SectionKeepsStreams(s: State, t: nat, ok: bool)
    requires Inv(s) && t < |s.threads| && InSection(s.threads[t])
    ensures Fields(StepSection(s, t, ok)) && Conserved(StepSection(s, t, ok))
  {
    hide Local, Locks, Accounted;
    var pc := s.threads[t];
    var k := pc.ms;
    var f := s.senders[k].s;
    LocalKeeps(pc, f, s.net, ok);
    LocalStreams(pc, f, s.net, ok);
    var s' := StepSection(s, t, ok);
    var f' := s'.senders[k].s;
    assert |s'.senders| == |s.senders| && s'.senders[k].s == f';
    assert forall ms | 0 <= ms < |s.senders| && ms != k :: s'.senders[ms] == s.senders[ms];
    forall ms | 0 <= ms < |s.senders|
      ensures FieldsOk(s'.senders[ms].s, s'.net)
    {
      if ms != k && s.senders[ms].s.stream.Some? {
        assert s.senders[ms].s.stream != f.stream;
      }
    }
    forall x | x in s'.net.open
      ensures exists ms :: 0 <= ms < |s'.senders| && s'.senders[ms].s.stream == Some(x)
    {
      if f'.stream != Some(x) {
        assert x in s.net.open;
        var ms :| 0 <= ms < |s.senders| && s.senders[ms].s.stream == Some(x);
        assert s'.senders[ms].s.stream == Some(x);
      }
    }
  }

  lemma SectionKeepsRefs(s: State, t: nat, ok: bool)
    requires Refs(s) && StreamsThere(s) && Locks(s) && Fields(s) && t < |s.threads| && InSection(s.threads[t])
    ensures Refs(StepSection(s, t, ok)) && StreamsThere(StepSection(s, t, ok)) && Locks(StepSection(s, t, ok))
  {
    hide Local;
    var pc := s.threads[t];
    LocalKeeps(pc, s.senders[pc.ms].s, s.net, ok);
    var s' := StepSection(s, t, ok);
    OneSenderKeepsRefs(s, s', t);
    OneSenderKeepsLocks(s, s', t);
  }

  /** A step of one call that holds a lock, on the fields of its sender alone. */
  ghost predicate OneSender(s: State, s': State, t: nat)
    requires Refs(s) && t < |s.threads| && HoldsLock(s.threads[t])
  {
    && s'.strmap == s.strmap && |s'.threads| == |s.threads| && |s'.senders| == |s.senders|
    && (forall u | 0 <= u < |s.threads| && u != t :: s'.threads[u] == s.threads[u])
    && HoldsLock(s'.threads[t]) && s'.threads[t].ms == s.threads[t].ms
    && (forall p :: ForPeer(s.threads[t], p) ==> ForPeer(s'.threads[t], p))
    && (NeedsStream(s'.threads[t]) ==> s'.senders[s.threads[t].ms].s.stream.Some?)
    && (forall ms | 0 <= ms < |s.senders| ::
          s'.senders[ms] == if ms == s.threads[t].ms then s.senders[ms].(s := s'.senders[ms].s) else s.senders[ms])
  }

  lemma OneSenderKeepsRefs(s: State, s': State, t: nat)
    requires Refs(s) && StreamsThere(s) && Locks(s) && t < |s.threads| && HoldsLock(s.threads[t])
    requires OneSender(s, s', t)
    ensures Refs(s') && StreamsThere(s')
  {
  }

  lemma OneSenderKeepsLocks(s: State, s': State, t: nat)
    requires Refs(s) && Refs(s') && Locks(s) && t < |s.threads| && HoldsLock(s.threads[t])
    requires OneSender(s, s', t)
    ensures Locks(s')
  {
  }

  lemma SectionKeepsAccounted(s: State, t: nat, ok: bool)
    requires Refs(s) && StreamsThere(s) && Fields(s) && Accounted(s) && t < |s.threads| && InSection(s.threads[t])
    requires Refs(StepSection(s, t, ok))
    ensures Accounted(StepSection(s, t, ok))
  {
    hide Local;
    var pc := s.threads[t];
    var k := pc.ms;
    LocalKeeps(pc, s.senders[k].s, s.net, ok);
    hide FieldsOk;
    var s' := StepSection(s, t, ok);
    assert forall u | 0 <= u < |s.threads| && u != t :: s'.threads[u] == s.threads[u];
    assert forall ms | 0 <= ms < |s.senders| && ms != k :: s'.senders[ms] == s.senders[ms];
    forall ms | 0 <= ms < |s.senders|
      ensures InMap(s', ms) || DropPending(s', ms) || Finished(s', ms)
    {
      if InMap(s, ms) {
        var p :| p in s.strmap && s.strmap[p] == ms;
        assert p in s'.strmap && s'.strmap[p] == ms;
      } else if DropPending(s, ms) {
        var u :| 0 <= u < |s.threads| && Dropped(s.threads[u], ms);
        if u != t {
          assert Dropped(s'.threads[u], ms);
        }
      }
    }
  }

  // ----- the other steps

  /** Other steps change no guarded field, though they may make a new sender. */
  predicate SameFields(s: State, s': State) {
    && s'.net == s.net && |s.senders| <= |s'.senders|
    && (forall ms | 0 <= ms < |s'.senders| ::
          s'.senders[ms].s == if ms < |s.senders| then s.senders[ms].s else NEW_SENDER)
  }

  lemma SameFieldsKeeps(s: State, s': State)
    requires Fields(s) && Conserved(s) && SameFields(s, s')
    ensures Fields(s') && Conserved(s')
  {
    forall x | x in s'.net.open
      ensures exists ms :: 0 <= ms < |s'.senders| && s'.senders[ms].s.stream == Some(x)
    {
      var ms :| 0 <= ms < |s.senders| && s.senders[ms].s.stream == Some(x);
      assert s'.senders[ms].s.stream == Some(x);
    }
  }

  /** Steps outside the senders' locks: those at the map, and the start of a call. */
  predicate Outside(s: State, s': State) {
    && |s.threads| <= |s'.threads| && |s.senders| <= |s'.senders|
    && (forall t | 0 <= t < |s'.threads| :: Unmoved(s, s', t) || MovedOutside(s, s', t))
    && (forall ms | 0 <= ms < |s'.senders| ::
          s'.senders[ms].lk == if ms < |s.senders| then s.senders[ms].lk else None)
  }

  predicate Unmoved(s: State, s': State, t: nat)
    requires t < |s'.threads|
  {
    t < |s.threads| && s'.threads[t] == s.threads[t]
  }

  predicate MovedOutside(s: State, s': State, t: nat)
    requires t < |s'.threads|
  {
    !HoldsLock(s'.threads[t]) && (t < |s.threads| ==> !HoldsLock(s.threads[t]))
  }

  lemma OutsideKeepsStreams(s: State, s': State)
    requires Refs(s) && StreamsThere(s) && Outside(s, s') && SameFields(s, s') && Refs(s')
    ensures StreamsThere(s')
  {
    forall t | 0 <= t < |s'.threads| && NeedsStream(s'.threads[t])
      ensures s'.senders[s'.threads[t].ms].s.stream.Some?
    {
      assert Unmoved(s, s', t);
    }
  }

  lemma OutsideKeepsLocks(s: State, s': State)
    requires Refs(s) && Locks(s) && Outside(s, s') && Refs(s')
    ensures Locks(s')
  {
    forall t | 0 <= t < |s'.threads| && HoldsLock(s'.threads[t])
      ensures s'.senders[s'.threads[t].ms].lk == Some(t)
    {
      assert Unmoved(s, s', t);
    }
    forall ms | 0 <= ms < |s'.senders| && s'.senders[ms].lk.Some?
      ensures var t := s'.senders[ms].lk.value;
              t < |s'.threads| && HoldsLock(s'.threads[t]) && s'.threads[t].ms == ms
    {
      var t := s.senders[ms].lk.value;
      assert HoldsLock(s.threads[t]);
      assert Unmoved(s, s', t);
    }
  }

  /** What keeps Accounted: entries and pending invalidations stay, or their senders are invalid. */
  lemma StillAccounted(s: State, s': State)
    requires Refs(s) && Refs(s') && Accounted(s) && SameFields(s, s') && |s'.senders| == |s.senders|
    requires |s.threads| <= |s'.threads| && s.abandoned <= s'.abandoned
    requires forall ms | 0 <= ms < |s.senders| && InMap(s, ms) ::
               InMap(s', ms) || DropPending(s', ms) || Finished(s', ms)
    requires forall t, ms | 0 <= t < |s.threads| && Dropped(s.threads[t], ms) ::
               Dropped(s'.threads[t], ms) || ms in s'.abandoned
    requires forall t | 0 <= t < |s'.threads| && GaveUp(s'.threads[t]) ::
               s'.threads[t].ms in s'.abandoned ||
               (t < |s.threads| && GaveUp(s.threads[t]) && s'.threads[t].ms == s.threads[t].ms)
    ensures Accounted(s')
  {
    forall ms | 0 <= ms < |s.senders| && DropPending(s, ms)
      ensures DropPending(s', ms) || ms in s'.abandoned
    {
      var t :| 0 <= t < |s.threads| && Dropped(s.threads[t], ms);
      assert Dropped(s'.threads[t], ms) || ms in s'.abandoned;
    }
  }

  lemma SameMap(s: State, s': State)
    requires s'.strmap == s.strmap
    ensures forall ms :: InMap(s, ms) ==> InMap(s', ms)
  {
    forall ms | InMap(s, ms)
      ensures InMap(s', ms)
    {
      var p :| p in s.strmap && s.strmap[p] == ms;
      assert p in s'.strmap && s'.strmap[p] == ms;
    }
  }

  lemma CallKeeps(s: State, p: nat, req: bool)
    requires Inv(s)
    ensures Inv(Next(s, Call(p, req)))
  {
    hide Fields, Conserved, Locks, StreamsThere, Accounted;
    var s' := Next(s, Call(p, req));
    SameFieldsKeeps(s, s');
    OutsideKeepsLocks(s, s');
    OutsideKeepsStreams(s, s');
    SameMap(s, s');
    StillAccounted(s, s');
  }

  lemma DisconnectKeeps(s: State, p: nat)
    requires Inv(s)
    ensures Inv(Next(s, Disconnect(p))) && p !in Next(s, Disconnect(p)).strmap
    ensures p in s.strmap ==> DropPending(Next(s, Disconnect(p)), s.strmap[p])
  {
    hide Fields, Conserved, Locks, StreamsThere, Accounted;
    if p in s.strmap {
      var s' := Next(s, Disconnect(p));
      SameFieldsKeeps(s, s');
      OutsideKeepsLocks(s, s');
      OutsideKeepsStreams(s, s');
      forall ms | 0 <= ms < |s.senders| && InMap(s, ms)
        ensures InMap(s', ms) || DropPending(s', ms)
      {
        var q :| q in s.strmap && s.strmap[q] == ms;
        if q == p {
          assert Dropped(s'.threads[|s.threads|], ms);
        } else {
          assert q in s'.strmap && s'.strmap[q] == ms;
        }
      }
      StillAccounted(s, s');
    }
  }

  lemma LookupAccounted(s: State, t: nat)
    requires Refs(s) && Accounted(s) && t < |s.threads| && s.threads[t].Lookup?
    ensures Refs(StepLookup(s, t)) && Accounted(StepLookup(s, t))
  {
    var s' := StepLookup(s, t);
    forall ms | 0 <= ms < |s'.senders|
      ensures InMap(s', ms) || DropPending(s', ms) || Finished(s', ms)
    {
      if ms == |s.senders| {
        assert s'.strmap[s.threads[t].p] == ms;
      } else if InMap(s, ms) {
        var p :| p in s.strmap && s.strmap[p] == ms;
        assert p in s'.strmap && s'.strmap[p] == ms;
      } else if DropPending(s, ms) {
        var u :| 0 <= u < |s.threads| && Dropped(s.threads[u], ms);
        assert Dropped(s'.threads[u], ms);
      }
    }
  }

  lemma LookupKeeps(s: State, t: nat)
    requires Inv(s) && t < |s.threads| && s.threads[t].Lookup?
    ensures Inv(StepLookup(s, t))
  {
    hide Fields, Conserved, Locks, StreamsThere, Accounted;
    var s' := StepLookup(s, t);
    LookupAccounted(s, t);
    SameFieldsKeeps(s, s');
    OutsideKeepsLocks(s, s');
    OutsideKeepsStreams(s, s');
  }

  lemma PrepFailedAccounted(s: State, t: nat)
    requires Refs(s) && Accounted(s) && t < |s.threads| && s.threads[t].PrepFailed?
    ensures Refs(StepPrepFailed(s, t)) && Accounted(StepPrepFailed(s, t))
  {
    var s' := StepPrepFailed(s, t);
    assert Finished(s, s.threads[t].ms);
    forall ms | 0 <= ms < |s.senders| && InMap(s, ms)
      ensures InMap(s', ms) || Finished(s', ms)
    {
      var p :| p in s.strmap && s.strmap[p] == ms;
      assert p in s'.strmap ==> s'.strmap[p] == ms;
    }
    hide Accounted;
    StillAccounted(s, s');
  }

  /** The failed sender, and no other, is out of the map, and it is finished; the call goes on with the sender that
      has taken its place, if there is one. */
  ghost predicate OutOfMap(s: State, t: nat, s': State)
    requires Refs(s) && t < |s.threads| && s.threads[t].PrepFailed?
  {
    var PrepFailed(p, ms, req) := s.threads[t];
    && Finished(s, ms) && !InMap(s', ms)
    && (forall q | q in s.strmap && s.strmap[q] != ms :: q in s'.strmap && s'.strmap[q] == s.strmap[q])
    && s'.strmap.Keys <= s.strmap.Keys
    && t < |s'.threads| && s'.threads[t] == if p in s'.strmap then SendWait(s'.strmap[p], req) else Done
  }

  lemma PrepFailedOut(s: State, t: nat)
    requires Refs(s) && Accounted(s) && t < |s.threads| && s.threads[t].PrepFailed?
    ensures OutOfMap(s, t, StepPrepFailed(s, t))
  {
    assert Finished(s, s.threads[t].ms);
    hide Accounted, Finished;
  }

  lemma PrepFailedKeeps(s: State, t: nat)
    requires Inv(s) && t < |s.threads| && s.threads[t].PrepFailed?
    ensures Inv(StepPrepFailed(s, t)) && OutOfMap(s, t, StepPrepFailed(s, t))
  {
    PrepFailedOut(s, t);
    PrepFailedInv(s, t);
    hide *;
  }

  lemma PrepFailedInv(s: State, t: nat)
    requires Inv(s) && t < |s.threads| && s.threads[t].PrepFailed?
    ensures Inv(StepPrepFailed(s, t))
  {
    hide Fields, Conserved, Locks, StreamsThere, Accounted;
    var s' := StepPrepFailed(s, t);
    PrepFailedAccounted(s, t);
    SameFieldsKeeps(s, s');
    OutsideKeepsLocks(s, s');
    OutsideKeepsStreams(s, s');
  }

  /** Taking or giving back a lock moves one call and one lock, and the call stays with its sender. */
  ghost predicate OneLock(s: State, s': State, t: nat, lk: Option<nat>)
    requires Refs(s)
  {
    && t < |s.threads| && SenderOf(s.threads[t]).Some?
    && s'.strmap == s.strmap && s'.net == s.net && s'.abandoned == s.abandoned
    && |s'.threads| == |s.threads| && |s'.senders| == |s.senders|
    && (forall u | 0 <= u < |s.threads| && u != t :: s'.threads[u] == s.threads[u])
    && (forall ms | 0 <= ms < |s.senders| ::
          s'.senders[ms] == if ms == s.threads[t].ms then s.senders[ms].(lk := lk) else s.senders[ms])
    && (s'.threads[t].Done? ||
        (SenderOf(s'.threads[t]) == SenderOf(s.threads[t]) &&
         (forall p :: ForPeer(s.threads[t], p) ==> ForPeer(s'.threads[t], p))))
    && !NeedsStream(s'.threads[t])
  }

  lemma OneLockKeeps(s: State, s': State, t: nat, lk: Option<nat>)
    requires Refs(s) && StreamsThere(s) && OneLock(s, s', t, lk)
    ensures Refs(s') && StreamsThere(s') && SameFields(s, s')
  {
  }

  lemma TakeKeepsLocks(s: State, s': State, t: nat)
    requires Refs(s) && Refs(s') && Locks(s) && OneLock(s, s', t, Some(t)) && s.senders[s.threads[t].ms].lk.None?
    requires HoldsLock(s'.threads[t]) && s'.threads[t].ms == s.threads[t].ms
    ensures Locks(s')
  {
  }

  lemma GiveKeepsLocks(s: State, s': State, t: nat)
    requires Refs(s) && Refs(s') && Locks(s) && OneLock(s, s', t, None)
    requires HoldsLock(s.threads[t]) && !HoldsLock(s'.threads[t])
    ensures Locks(s')
  {
    forall u | 0 <= u < |s'.threads| && HoldsLock(s'.threads[u])
      ensures s'.senders[s'.threads[u].ms].lk == Some(u)
    {
      assert s.senders[s.threads[u].ms].lk == Some(u);
    }
  }

  lemma LockKeeps(s: State, t: nat)
    requires Inv(s) && t < |s.threads| && Waits(s.threads[t]) && s.senders[s.threads[t].ms].lk.None?
    ensures Inv(TakeLock(s, t))
  {
    hide Fields, Conserved, Locks, StreamsThere, Accounted;
    var s' := TakeLock(s, t);
    OneLockKeeps(s, s', t, Some(t));
    TakeKeepsLocks(s, s', t);
    SameFieldsKeeps(s, s');
    SameMap(s, s');
    StillAccounted(s, s');
  }

  lemma UnlockKeeps(s: State, t: nat)
    requires Inv(s) && t < |s.threads| && AtUnlock(s.threads[t])
    ensures Inv(GiveLock(s, t))
  {
    var s' := GiveLock(s, t);
    UnlockAccounted(s, t);
    hide Fields, Conserved, Locks, StreamsThere, Accounted;
    OneLockKeeps(s, s', t, None);
    GiveKeepsLocks(s, s', t);
    SameFieldsKeeps(s, s');
  }

  lemma UnlockAccounted(s: State, t: nat)
    requires Refs(s) && StreamsThere(s) && Accounted(s) && t < |s.threads| && AtUnlock(s.threads[t])
    ensures Refs(GiveLock(s, t)) && Accounted(GiveLock(s, t))
  {
    var s' := GiveLock(s, t);
    hide Accounted, StreamsThere;
    OneLockKeeps(s, s', t, None);
    SameMap(s, s');
    StillAccounted(s, s');
  }

  lemma CancelKeeps(s: State, t: nat)
    requires Inv(s) && t < |s.threads| && Waits(s.threads[t])
    ensures Inv(StepCancel(s, t))
  {
    hide Fields, Conserved, Locks, StreamsThere, Accounted;
    var s' := StepCancel(s, t);
    CancelAccounted(s, t);
    SameFieldsKeeps(s, s');
    OutsideKeepsLocks(s, s');
    OutsideKeepsStreams(s, s');
  }

  lemma CancelAccounted(s: State, t: nat)
    requires Refs(s) && Accounted(s) && t < |s.threads| && Waits(s.threads[t])
    ensures Refs(StepCancel(s, t)) && Accounted(StepCancel(s, t))
  {
    hide Accounted;
    var s' := StepCancel(s, t);
    SameMap(s, s');
    StillAccounted(s, s');
  }

  lemma NextKeepsInv(s: State, e: Event)
    requires Inv(s) && Enabled(s, e)
    ensures Inv(Next(s, e))
  {
    match e
    case Call(p, req) => CallKeeps(s, p, req);
    case Disconnect(p) => DisconnectKeeps(s, p);
    case Cancel(t) => CancelKeeps(s, t);
    case Run(t, ok) =>
      hide StepLookup, StepPrepFailed, StepSection, TakeLock, GiveLock, Accounted, Fields, Conserved, Locks;
      var pc := s.threads[t];
      if pc.Lookup? { LookupKeeps(s, t); }
      else if pc.PrepFailed? { PrepFailedKeeps(s, t); }
      else if Waits(pc) { LockKeeps(s, t); }
      else if AtUnlock(pc) { UnlockKeeps(s, t); }
      else {
        SectionKeepsStreams(s, t, ok);
        SectionKeepsRefs(s, t, ok);
        SectionKeepsAccounted(s, t, ok);
      }
  }

  // ----- whole runs

  /** es can happen from s on, in this order. */
  ghost predicate Runs(s: State, es: seq<Event>)
    requires Inv(s)
    decreases |es|
  {
    es == [] || (Enabled(s, es[0]) && (NextKeepsInv(s, es[0]); Runs(Next(s, es[0]), es[1..])))
  }

  ghost function After(s: State, es: seq<Event>): (s': State)
    requires Inv(s) && Runs(s, es)
    ensures Inv(s')
    decreases |es|
  {
    if es == [] then s
    else
      NextKeepsInv(s, es[0]);
      After(Next(s, es[0]), es[1..])
  }

  ghost predicate Reachable(s: State)
    ensures Reachable(s) ==> Inv(s)
  {
    assert Inv(INIT);
    exists es :: Runs(INIT, es) && After(INIT, es) == s
  }

  /** In every reachable state a sender that holds a stream is the entry of its peer or has an invalidation
      on its way, unless the wait for one was cancelled; and an invalid sender holds none. */
  lemma NoForgottenStream(s: State, ms: nat)
    requires Reachable(s) && ms < |s.senders|
    ensures var c := s.senders[ms];
            && (c.s.stream.Some? ==>
                  (c.peer in s.strmap && s.strmap[c.peer] == ms) || DropPending(s, ms) || ms in s.abandoned)
            && (c.s.invalid ==> c.s.stream.None?)
            && c.s.singleMes <= STREAM_REUSE_TRIES + 1
  {
    if InMap(s, ms) {
      var p :| p in s.strmap && s.strmap[p] == ms;
      assert s.senders[ms].peer == p;
    }
  }

  predicate Quiet(s: State) {
    forall t | 0 <= t < |s.threads| :: s.threads[t].Done?
  }

  /** A stream held by a sender that no map entry leads to. */
  predicate Forgotten(s: State, ms: nat) {
    ms < |s.senders| && s.senders[ms].s.stream.Some? && !InMap(s, ms)
  }

  /** The guarantee, exactly: once every call has returned, a sender that holds a stream is forgotten if and only
      if a wait to invalidate it was cancelled. So with no such wait each open stream is that of its peer's entry;
      and no lock is taken in any case. */
  lemma QuietForgetsNothing(s: State)
    requires Reachable(s) && Quiet(s)
    ensures forall ms | 0 <= ms < |s.senders| && s.senders[ms].s.stream.Some? ::
              Forgotten(s, ms) <==> ms in s.abandoned
    ensures s.abandoned == {} ==>
              forall x :: x in s.net.open <==>
                exists p :: p in s.strmap && s.strmap[p] < |s.senders| && s.senders[s.strmap[p]].s.stream == Some(x)
    ensures forall ms | 0 <= ms < |s.senders| :: s.senders[ms].lk.None?
  {
    ReachableRemoved(s);
    forall x | x in s.net.open && s.abandoned == {}
      ensures exists p :: p in s.strmap && s.strmap[p] < |s.senders| && s.senders[s.strmap[p]].s.stream == Some(x)
    {
      var ms :| 0 <= ms < |s.senders| && s.senders[ms].s.stream == Some(x);
      NoForgottenStream(s, ms);
      assert s.strmap[s.senders[ms].peer] == ms;
    }
  }

  /** At most one call is inside a sender's critical section; the step that unlocks finds the lock taken, and
      one that uses the stream finds it. */
  lemma MutualExclusion(s: State, t: nat, u: nat)
    requires Reachable(s) && t < |s.threads| && u < |s.threads| && HoldsLock(s.threads[t])
    ensures var pc := s.threads[t];
            && pc.ms < |s.senders| && s.senders[pc.ms].lk == Some(t)
            && (HoldsLock(s.threads[u]) && s.threads[u].ms == pc.ms ==> u == t)
            && (NeedsStream(pc) ==> s.senders[pc.ms].s.stream.Some?)
  {
  }

  /** While a call is inside a critical section nobody else moves it or touches the sender's fields. */
  lemma SectionIsAlone(s: State, e: Event, t: nat)
    requires Inv(s) && Enabled(s, e) && t < |s.threads| && HoldsLock(s.threads[t])
    requires Moves(e) ==> e.t != t
    ensures var s' := Next(s, e);
            var ms := s.threads[t].ms;
            && t < |s'.threads| && s'.threads[t] == s.threads[t]
            && ms < |s'.senders| && s'.senders[ms] == s.senders[ms]
  {
    hide Accounted, Fields, Conserved, Local;
    if e.Run? && SenderOf(s.threads[e.t]).Some? && s.threads[e.t].ms == s.threads[t].ms {
      assert !HoldsLock(s.threads[e.t]);
    }
  }

  /** What no step undoes: a sender keeps its peer, stays invalid, and never comes back into the map. */
  lemma StepForward(s: State, e: Event, ms: nat)
    requires Inv(s) && Enabled(s, e) && ms < |s.senders|
    ensures var s' := Next(s, e);
            && ms < |s'.senders| && Forward(s.senders[ms], s'.senders[ms])
            && (InMap(s', ms) ==> InMap(s, ms))
  {
    hide Accounted, Conserved, Locks;
    var s' := Next(s, e);
    if e.Run? && InSection(s.threads[e.t]) && s.threads[e.t].ms == ms {
      LocalForward(s.threads[e.t], s.senders[ms].s, s.net, e.ok);
    }
    if InMap(s', ms) {
      var p :| p in s'.strmap && s'.strmap[p] == ms;
      assert p in s.strmap && s.strmap[p] == ms;
    }
  }

  predicate Forward(c: Cell, c': Cell) {
    && c'.peer == c.peer && c.s.singleMes <= c'.s.singleMes
    && (c.s.invalid ==> c'.s.invalid)
  }

  lemma LocalForward(pc: Pc, f: Sender, net: Net, ok: bool)
    requires InSection(pc) && (NeedsStream(pc) ==> f.stream.Some?)
    ensures var f' := Local(pc, f, net, ok).1;
            f.singleMes <= f'.singleMes && (f.invalid ==> f'.invalid)
  {
  }

  /** A sender invalidated at some point of a run never has a stream again, and one taken out of the map is
      never found there again. */
  lemma {:induction false} InvalidForever(s: State, es: seq<Event>, ms: nat)
    requires Inv(s) && Runs(s, es) && ms < |s.senders|
    ensures var s' := After(s, es);
            && ms < |s'.senders| && Forward(s.senders[ms], s'.senders[ms])
            && (s.senders[ms].s.invalid ==> s'.senders[ms].s.stream.None?)
            && (!InMap(s, ms) ==> !InMap(s', ms))
    decreases |es|
  {
    if es != [] {
      StepForward(s, es[0], ms);
      NextKeepsInv(s, es[0]);
      InvalidForever(Next(s, es[0]), es[1..], ms);
    }
  }

  // ----- conservation

  function HeldStreams(cs: seq<Cell>): set<nat> {
    if cs == [] then {} else Holding(cs[0].s) + HeldStreams(cs[1..])
  }

  function HeldCount(cs: seq<Cell>): nat {
    if cs == [] then 0 else (if cs[0].s.stream.Some? then 1 else 0) + HeldCount(cs[1..])
  }

  lemma {:induction false} HeldStreamsHas(cs: seq<Cell>, x: nat)
    ensures x in HeldStreams(cs) <==> exists ms :: 0 <= ms < |cs| && cs[ms].s.stream == Some(x)
  {
    if cs != [] {
      HeldStreamsHas(cs[1..], x);
      if ms :| 0 <= ms < |cs| && cs[ms].s.stream == Some(x) && ms > 0 {
        assert cs[1..][ms - 1] == cs[ms];
      }
      if ms :| 0 <= ms < |cs[1..]| && cs[1..][ms].s.stream == Some(x) {
        assert cs[ms + 1] == cs[1..][ms];
      }
    }
  }

  lemma {:induction false} HeldAreDistinct(cs: seq<Cell>)
    requires forall i, j | 0 <= i < j < |cs| && cs[i].s.stream.Some? :: cs[i].s.stream != cs[j].s.stream
    ensures |HeldStreams(cs)| == HeldCount(cs)
  {
    if cs != [] {
      HeldAreDistinct(cs[1..]);
      if cs[0].s.stream.Some? {
        HeldStreamsHas(cs[1..], cs[0].s.stream.value);
      }
    }
  }

  /** Streams opened are the streams reset or closed and those now held: the open ones are the held ones,
      each by one sender. */
  lemma StreamsConserved(s: State)
    requires Reachable(s)
    ensures s.net.open == HeldStreams(s.senders)
    ensures |s.net.open| == HeldCount(s.senders)
    ensures forall x | x in s.net.open :: x < s.net.next
  {
    forall x
      ensures x in s.net.open <==> x in HeldStreams(s.senders)
    {
      HeldStreamsHas(s.senders, x);
    }
    HeldAreDistinct(s.senders);
  }

  // ----- every call returns

  /** No deadlock: a call that has not returned leaves one that can move. */
  lemma Progress(s: State)
    requires Inv(s) && !Quiet(s)
    ensures exists t :: 0 <= t < |s.threads| && Enabled(s, Run(t, true)) && Enabled(s, Run(t, false))
  {
    var t :| 0 <= t < |s.threads| && !s.threads[t].Done?;
    var pc := s.threads[t];
    if Waits(pc) && s.senders[pc.ms].lk.Some? {
      var u := s.senders[pc.ms].lk.value;
      assert Enabled(s, Run(u, true)) && Enabled(s, Run(u, false));
    } else {
      assert Enabled(s, Run(t, true)) && Enabled(s, Run(t, false));
    }
  }

  function TotalRank(ts: seq<Pc>): nat {
    if ts == [] then 0 else Rank(ts[|ts| - 1]) + TotalRank(ts[..|ts| - 1])
  }

  lemma {:induction false} TotalRankAt(ts: seq<Pc>, t: nat, pc: Pc)
    requires t < |ts|
    ensures TotalRank(ts[t := pc]) == TotalRank(ts) - Rank(ts[t]) + Rank(pc)
  {
    var n := |ts| - 1;
    assert ts[t := pc][..n] == if t == n then ts[..n] else ts[..n][t := pc];
    if t < n {
      TotalRankAt(ts[..n], t, pc);
    }
  }

  lemma LocalDescends(pc: Pc, f: Sender, net: Net, ok: bool)
    requires InSection(pc) && (NeedsStream(pc) ==> f.stream.Some?)
    ensures Rank(Local(pc, f, net, ok).0) < Rank(pc)
  {
  }

  /** What the events of a run can add to the work left. */
  function Cost(e: Event): nat {
    match e
    case Call(_, _) => 16
    case Disconnect(_) => 3
    case Run(_, _) => 0
    case Cancel(_) => 0
  }

  predicate Moves(e: Event) {
    e.Run? || e.Cancel?
  }

  lemma RunMoves(s: State, t: nat, ok: bool)
    requires Inv(s) && Enabled(s, Run(t, ok))
    ensures var ts := StepRun(s, t, ok).threads;
            |ts| == |s.threads| && ts == s.threads[t := ts[t]] && Rank(ts[t]) < Rank(s.threads[t])
  {
    hide Accounted, Conserved, Locks, Fields, Local;
    var pc := s.threads[t];
    if InSection(pc) {
      LocalDescends(pc, s.senders[pc.ms].s, s.net, ok);
    }
  }

  lemma CancelMoves(s: State, t: nat)
    requires t < |s.threads| && Waits(s.threads[t])
    ensures var ts := StepCancel(s, t).threads;
            |ts| == |s.threads| && ts == s.threads[t := ts[t]] && Rank(ts[t]) < Rank(s.threads[t])
  {
  }

  lemma NextDescends(s: State, e: Event)
    requires Inv(s) && Enabled(s, e)
    ensures TotalRank(Next(s, e).threads) + (if Moves(e) then 1 else 0) <= TotalRank(s.threads) + Cost(e)
  {
    hide Accounted, Conserved, Locks, Fields, StepRun, StepCancel, Rank;
    var s' := Next(s, e);
    if Moves(e) {
      if e.Run? { RunMoves(s, e.t, e.ok); } else { CancelMoves(s, e.t); }
      TotalRankAt(s.threads, e.t, s'.threads[e.t]);
    } else if |s'.threads| > |s.threads| {
      NewRank(s.threads, s'.threads[|s.threads|], Cost(e));
    }
  }

  lemma NewRank(ts: seq<Pc>, pc: Pc, cost: nat)
    requires (pc.Lookup? && cost == 16) || (pc.DropWait? && cost == 3)
    ensures TotalRank(ts + [pc]) == TotalRank(ts) + cost
  {
    assert (ts + [pc])[..|ts|] == ts;
  }

  function Steps(es: seq<Event>): nat {
    if es == [] then 0 else (if Moves(es[0]) then 1 else 0) + Steps(es[1..])
  }

  function TotalCost(es: seq<Event>): nat {
    if es == [] then 0 else Cost(es[0]) + TotalCost(es[1..])
  }

  /** A call takes at most sixteen steps and a disconnect at most three, whatever the interleaving and the
      failures; so with Progress every call returns. */
  lemma {:induction false} StepsBounded(s: State, es: seq<Event>)
    requires Inv(s) && Runs(s, es)
    ensures Steps(es) + TotalRank(After(s, es).threads) <= TotalRank(s.threads) + TotalCost(es)
    decreases |es|
  {
    if es != [] {
      NextDescends(s, es[0]);
      NextKeepsInv(s, es[0]);
      StepsBounded(Next(s, es[0]), es[1..]);
    }
  }

  lemma {:induction false} RankZero(ts: seq<Pc>, t: nat)
    requires t < |ts| && TotalRank(ts) == 0
    ensures ts[t].Done?
  {
    if t < |ts| - 1 {
      RankZero(ts[..|ts| - 1], t);
    }
  }

  /** From every such state the calls can all return with no new one, be the network up (ok) or down. */
  lemma {:induction false} Settles(s: State, ok: bool)
    requires Inv(s)
    ensures exists es :: Runs(s, es) && Quiet(After(s, es)) && |es| <= TotalRank(s.threads)
    decreases TotalRank(s.threads)
  {
    hide Refs, StreamsThere, Locks, Accounted, Fields, Conserved, Enabled, Next;
    var none: seq<Event> := [];
    if Quiet(s) {
      assert Runs(s, none) && After(s, none) == s;
    } else {
      Progress(s);
      var t :| 0 <= t < |s.threads| && Enabled(s, Run(t, true)) && Enabled(s, Run(t, false));
      var e := Run(t, ok);
      NextDescends(s, e);
      NextKeepsInv(s, e);
      Settles(Next(s, e), ok);
      var es :| Runs(Next(s, e), es) && Quiet(After(Next(s, e), es)) && |es| <= TotalRank(Next(s, e).threads);
      var all := [e] + es;
      assert all[0] == e && all[1..] == es;
      assert Runs(s, all) && After(s, all) == After(Next(s, e), es);
    }
  }

  // ----- what a cancelled wait does

  lemma {:induction false} RunsOn(s: State, es: seq<Event>, e: Event)
    requires Inv(s) && Runs(s, es) && Enabled(After(s, es), e)
    ensures Runs(s, es + [e]) && After(s, es + [e]) == Next(After(s, es), e)
    decreases |es|
  {
    hide Refs, StreamsThere, Locks, Accounted, Fields, Conserved, Enabled, Next;
    var all := es + [e];
    if es == [] {
      NextKeepsInv(s, e);
      assert all[1..] == [] && all[0] == e;
    } else {
      NextKeepsInv(s, es[0]);
      RunsOn(Next(s, es[0]), es[1..], e);
      assert all[1..] == es[1..] + [e] && all[0] == es[0];
    }
  }

  lemma ReachableOn(s: State, e: Event) returns (s': State)
    requires Reachable(s) && Enabled(s, e)
    ensures Reachable(s') && s' == Next(s, e) && Refs(s') && StreamsThere(s')
  {
    assert Inv(INIT);
    NextKeepsInv(s, e);
    hide Refs, StreamsThere, Locks, Accounted, Fields, Conserved, Enabled, Next;
    var es :| Runs(INIT, es) && After(INIT, es) == s;
    RunsOn(INIT, es, e);
    s' := Next(s, e);
  }

  lemma ReachableInit()
    ensures Reachable(INIT) && Refs(INIT) && StreamsThere(INIT)
  {
    var none: seq<Event> := [];
    assert Inv(INIT);
    assert Runs(INIT, none) && After(INIT, none) == INIT;
  }

  /** The condition of QuietForgetsNothing is needed: a peer disconnects, the wait to invalidate its sender is
      cancelled, and the sender's stream stays open with nobody to find it. */
  lemma CancelledDropForgets(p: nat) returns (s: State)
    ensures Reachable(s) && Quiet(s) && Forgotten(s, 0) && s.net.open == {0}
  {
    hide Reachable, Inv, Refs, StreamsThere;
    ReachableInit();
    s := ReachableOn(INIT, Call(p, false));
    s := ReachableOn(s, Run(0, true));
    s := ReachableOn(s, Run(0, true));
    s := ReachableOn(s, Run(0, true));
    s := ReachableOn(s, Run(0, true));
    s := ReachableOn(s, Cancel(0));
    s := ReachableOn(s, Disconnect(p));
    s := ReachableOn(s, Cancel(1));
  }

  /** Likewise a call cancelled before it could prepare its sender removes it from the map, though another call
      has meanwhile opened its stream. */
  lemma CancelledPrepForgets(p: nat) returns (s: State)
    ensures Reachable(s) && Quiet(s) && Forgotten(s, 0) && s.net.open == {0}
  {
    hide Reachable, Inv, Refs, StreamsThere;
    ReachableInit();
    s := ReachableOn(INIT, Call(p, false));
    s := ReachableOn(s, Run(0, true));
    s := ReachableOn(s, Call(p, false));
    s := ReachableOn(s, Run(1, true));
    s := ReachableOn(s, Run(1, true));
    s := ReachableOn(s, Run(1, true));
    s := ReachableOn(s, Run(1, true));
    s := ReachableOn(s, Run(1, true));
    s := ReachableOn(s, Run(1, true));
    s := ReachableOn(s, Cancel(0));
    s := ReachableOn(s, Run(0, true));
  }

  // ----- exactly which senders are forgotten

  /** A call whose second map section may still take the sender out. */
  predicate PrepGaveUp(s: State, ms: nat) {
    exists t :: 0 <= t < |s.threads| && s.threads[t].PrepFailed? && s.threads[t].ms == ms
  }

  predicate OnTheWayOut(s: State, ms: nat) {
    !InMap(s, ms) || PrepGaveUp(s, ms)
  }

  /** A sender waiting to be dropped is out of the map, and an abandoned one is or will be. */
  ghost predicate Removed(s: State) {
    && (forall t | 0 <= t < |s.threads| && s.threads[t].DropWait? :: !InMap(s, s.threads[t].ms))
    && (forall ms | ms in s.abandoned :: ms < |s.senders| && OnTheWayOut(s, ms))
  }

  /** No step brings a sender back, and PrepFailed is left only with the sender out of the map. */
  lemma StepKeepsOut(s: State, e: Event, ms: nat)
    requires Inv(s) && Enabled(s, e) && ms < |s.senders| && OnTheWayOut(s, ms)
    ensures ms < |Next(s, e).senders| && OnTheWayOut(Next(s, e), ms)
  {
    hide Accounted, Conserved, Locks, Fields, Local;
    StepForward(s, e, ms);
    if InMap(s, ms) {
      var t :| 0 <= t < |s.threads| && s.threads[t].PrepFailed? && s.threads[t].ms == ms;
      hide InMap;
      if e.Run? && e.t == t {
        PrepFailedTakesOut(s, t);
      } else {
        assert !Moves(e) || e.t != t;
        OthersStay(s, e, t);
        hide Next;
        assert Next(s, e).threads[t].ms == ms;
      }
    }
  }

  lemma PrepFailedTakesOut(s: State, t: nat)
    requires Refs(s) && t < |s.threads| && s.threads[t].PrepFailed?
    ensures !InMap(StepPrepFailed(s, t), s.threads[t].ms)
  {
  }

  lemma OthersStay(s: State, e: Event, t: nat)
    requires Inv(s) && Enabled(s, e) && t < |s.threads| && s.threads[t].PrepFailed?
    requires Moves(e) ==> e.t != t
    ensures t < |Next(s, e).threads| && Next(s, e).threads[t] == s.threads[t]
  {
    hide Accounted, Conserved, Locks, Fields, Local;
  }

  lemma NextKeepsRemoved(s: State, e: Event)
    requires Inv(s) && Enabled(s, e) && Removed(s)
    ensures Removed(Next(s, e))
  {
    var s' := Next(s, e);
    forall t | 0 <= t < |s'.threads| && s'.threads[t].DropWait?
      ensures !InMap(s', s'.threads[t].ms)
    {
      if t < |s.threads| && s.threads[t] == s'.threads[t] {
        StepForward(s, e, s.threads[t].ms);
      } else {
        NewDrop(s, e, t);
      }
    }
    forall ms | ms in s'.abandoned
      ensures ms < |s'.senders| && OnTheWayOut(s', ms)
    {
      if ms in s.abandoned {
        StepKeepsOut(s, e, ms);
      } else {
        NewlyAbandoned(s, e, ms);
      }
    }
  }

  lemma NewDrop(s: State, e: Event, t: nat)
    requires Inv(s) && Enabled(s, e) && t < |Next(s, e).threads|
    requires Next(s, e).threads[t].DropWait? && !(t < |s.threads| && s.threads[t] == Next(s, e).threads[t])
    ensures !InMap(Next(s, e), Next(s, e).threads[t].ms)
  {
    hide Accounted, Conserved, Locks;
    if e.Run? && InSection(s.threads[e.t]) {
      LocalKeeps(s.threads[e.t], s.senders[s.threads[e.t].ms].s, s.net, e.ok);
    }
  }

  lemma NewlyAbandoned(s: State, e: Event, ms: nat)
    requires Inv(s) && Enabled(s, e) && Removed(s) && ms in Next(s, e).abandoned && ms !in s.abandoned
    ensures ms < |Next(s, e).senders| && OnTheWayOut(Next(s, e), ms)
  {
    hide Accounted, Conserved, Locks, Fields, StreamsThere;
    var s' := Next(s, e);
    assert e.Cancel?;
    if s.threads[e.t].DropWait? {
      StepForward(s, e, ms);
    } else {
      assert s'.threads[e.t].PrepFailed? && s'.threads[e.t].ms == ms;
    }
  }

  lemma {:induction false} RunKeepsRemoved(s: State, es: seq<Event>)
    requires Inv(s) && Runs(s, es) && Removed(s)
    ensures Removed(After(s, es))
    decreases |es|
  {
    hide Refs, StreamsThere, Locks, Accounted, Fields, Conserved, Enabled, Next, Removed;
    if es != [] {
      NextKeepsRemoved(s, es[0]);
      NextKeepsInv(s, es[0]);
      RunKeepsRemoved(Next(s, es[0]), es[1..]);
    }
  }

  lemma ReachableRemoved(s: State)
    requires Reachable(s)
    ensures Removed(s)
  {
    var es :| Runs(INIT, es) && After(INIT, es) == s;
    RunKeepsRemoved(INIT, es);
  }

  predicate Unreferenced(s: State, ms: nat) {
    forall t | 0 <= t < |s.threads| :: SenderOf(s.threads[t]) != Some(ms)
  }

  lemma StepLeavesForgotten(s: State, e: Event, ms: nat)
    requires Inv(s) && Enabled(s, e) && Forgotten(s, ms) && Unreferenced(s, ms)
    ensures Forgotten(Next(s, e), ms) && Unreferenced(Next(s, e), ms)
    ensures Next(s, e).senders[ms].s.stream == s.senders[ms].s.stream
  {
    StepForward(s, e, ms);
    StepTouchesOwn(s, e, ms);
    StepFindsNot(s, e, ms);
    hide Next, InMap, Unreferenced;
  }

  lemma StepTouchesOwn(s: State, e: Event, ms: nat)
    requires Inv(s) && Enabled(s, e) && ms < |s.senders| && Unreferenced(s, ms)
    ensures ms < |Next(s, e).senders| && Next(s, e).senders[ms].s == s.senders[ms].s
  {
    hide Accounted, Conserved, Locks, Fields, Local;
    if e.Run? {
      assert SenderOf(s.threads[e.t]) != Some(ms);
    }
  }

  lemma StepFindsNot(s: State, e: Event, ms: nat)
    requires Inv(s) && Enabled(s, e) && ms < |s.senders| && !InMap(s, ms) && Unreferenced(s, ms)
    ensures Unreferenced(Next(s, e), ms)
  {
    var s' := Next(s, e);
    if t :| 0 <= t < |s'.threads| && SenderOf(s'.threads[t]) == Some(ms) {
      hide Inv, InMap, Next, Enabled;
      NewReference(s, e, t, ms);
      assert false;
    }
  }

  /** A call refers to the sender it did before, to one it found in the map, or to a new one. */
  lemma NewReference(s: State, e: Event, t: nat, ms: nat)
    requires Inv(s) && Enabled(s, e) && t < |Next(s, e).threads| && SenderOf(Next(s, e).threads[t]) == Some(ms)
    ensures InMap(s, ms) || ms >= |s.senders| || (t < |s.threads| && SenderOf(s.threads[t]) == Some(ms))
  {
    hide Next;
    if e.Run? && InSection(s.threads[e.t]) {
      SectionReference(s, e, t, ms);
    } else {
      OtherReference(s, e, t, ms);
    }
  }

  lemma SectionReference(s: State, e: Event, t: nat, ms: nat)
    requires Inv(s) && Enabled(s, e) && t < |Next(s, e).threads| && SenderOf(Next(s, e).threads[t]) == Some(ms)
    requires e.Run? && InSection(s.threads[e.t])
    ensures t < |s.threads| && SenderOf(s.threads[t]) == Some(ms)
  {
    SectionKeepsSender(s, e.t, e.ok);
    assert Next(s, e) == StepSection(s, e.t, e.ok);
    hide *;
  }

  lemma OtherReference(s: State, e: Event, t: nat, ms: nat)
    requires Inv(s) && Enabled(s, e) && t < |Next(s, e).threads| && SenderOf(Next(s, e).threads[t]) == Some(ms)
    requires e.Run? ==> !InSection(s.threads[e.t])
    ensures InMap(s, ms) || ms >= |s.senders| || (t < |s.threads| && SenderOf(s.threads[t]) == Some(ms))
  {
    hide Accounted, Conserved, Locks, Fields, StreamsThere, StepSection, Refs;
  }

  lemma SectionKeepsSender(s: State, t: nat, ok: bool)
    requires Inv(s) && t < |s.threads| && InSection(s.threads[t])
    ensures var ts := StepSection(s, t, ok).threads;
            |ts| == |s.threads| && ts == s.threads[t := ts[t]] && SenderOf(ts[t]) == SenderOf(s.threads[t])
  {
    LocalKeeps(s.threads[t], s.senders[s.threads[t].ms].s, s.net, ok);
    hide Accounted, Conserved, Locks, Fields, Local, StreamsThere;
  }

  /** Then its stream stays open along every later run. */
  lemma {:induction false} ForgottenForever(s: State, es: seq<Event>, ms: nat)
    requires Inv(s) && Runs(s, es) && Forgotten(s, ms) && Unreferenced(s, ms)
    ensures var s' := After(s, es);
            && Forgotten(s', ms) && s'.senders[ms].s.stream == s.senders[ms].s.stream
            && s.senders[ms].s.stream.value in s'.net.open
    decreases |es|
  {
    if es != [] {
      hide Refs, StreamsThere, Locks, Accounted, Fields, Conserved, Enabled, Next, InMap, Unreferenced;
      StepLeavesForgotten(s, es[0], ms);
      NextKeepsInv(s, es[0]);
      ForgottenForever(Next(s, es[0]), es[1..], ms);
    }
  }

  /** So a cancelled wait for the invalidation of a sender that still holds a stream when all is quiet leaves that
      stream open for good. */
  lemma AbandonedForGood(s: State, es: seq<Event>, ms: nat)
    requires Reachable(s) && Quiet(s) && ms in s.abandoned && Runs(s, es)
    ensures ms < |s.senders|
    ensures s.senders[ms].s.stream.Some? ==> s.senders[ms].s.stream.value in After(s, es).net.open
  {
    ReachableRemoved(s);
    if s.senders[ms].s.stream.Some? {
      QuietForgetsNothing(s);
      ForgottenForever(s, es, ms);
    }
  }
}
