/** What a whole call comes to when nobody is in its way: the map section, the preparation and the send of
    dkvs/kaddht/message_sender.go one after the other. */
module CallOutcome {
  import opened GoTypes
  import opened SenderSteps
  import opened SendOutcome
  import opened SenderProtocol

  // ----- an entry of the map can be used

  /** A sender about to be invalidated by a disconnect is out of the map, and an invalid sender in the map is on
      its way out. */
  ghost predicate Usable(s: State) {
    && (forall t | 0 <= t < |s.threads| && (s.threads[t].DropWait? || s.threads[t].Dropping?) ::
          !InMap(s, s.threads[t].ms))
    && (forall ms | 0 <= ms < |s.senders| && s.senders[ms].s.invalid && InMap(s, ms) :: GivingUp(s, ms))
  }

  predicate GivingUp(s: State, ms: nat) {
    exists t :: 0 <= t < |s.threads| && GaveUp(s.threads[t]) && s.threads[t].ms == ms
  }

  lemma NextKeepsUsable(s: State, e: Event)
    requires Inv(s) && Enabled(s, e) && Usable(s)
    ensures Usable(Next(s, e))
  {
    var s' := Next(s, e);
    forall t | 0 <= t < |s'.threads| && (s'.threads[t].DropWait? || s'.threads[t].Dropping?)
      ensures !InMap(s', s'.threads[t].ms)
    {
      if t < |s.threads| && (s.threads[t].DropWait? || s.threads[t].Dropping?) {
        SameDrop(s, e, t);
        StepForward(s, e, s.threads[t].ms);
      } else {
        StartsDrop(s, e, t);
      }
    }
    forall ms | 0 <= ms < |s'.senders| && s'.senders[ms].s.invalid && InMap(s', ms)
      ensures GivingUp(s', ms)
    {
      NewInvalid(s, e, ms);
    }
  }

  lemma SameDrop(s: State, e: Event, t: nat)
    requires Inv(s) && Enabled(s, e) && t < |s.threads| && (s.threads[t].DropWait? || s.threads[t].Dropping?)
    ensures t < |Next(s, e).threads|
    ensures Next(s, e).threads[t].DropWait? || Next(s, e).threads[t].Dropping? ==>
              Next(s, e).threads[t].ms == s.threads[t].ms
  {
    hide Accounted, Conserved, Locks, Fields;
  }

  lemma StartsDrop(s: State, e: Event, t: nat)
    requires Inv(s) && Enabled(s, e) && t < |Next(s, e).threads|
    requires Next(s, e).threads[t].DropWait? || Next(s, e).threads[t].Dropping?
    requires !(t < |s.threads| && (s.threads[t].DropWait? || s.threads[t].Dropping?))
    ensures !InMap(Next(s, e), Next(s, e).threads[t].ms)
  {
    if e.Run? && InSection(s.threads[e.t]) {
      SectionStartsNoDrop(s, e);
      assert false;
    } else {
      OtherStartsDrop(s, e, t);
    }
  }

  lemma SectionStartsNoDrop(s: State, e: Event)
    requires Inv(s) && Enabled(s, e) && e.Run? && InSection(s.threads[e.t])
    ensures var ts := Next(s, e).threads;
            |ts| == |s.threads| &&
            forall u | 0 <= u < |ts| && (ts[u].DropWait? || ts[u].Dropping?) :: ts[u] == s.threads[u]
  {
    LocalKeeps(s.threads[e.t], s.senders[s.threads[e.t].ms].s, s.net, e.ok);
    assert Next(s, e) == StepSection(s, e.t, e.ok);
    hide Accounted, Conserved, Locks, Fields, Local;
  }

  lemma OtherStartsDrop(s: State, e: Event, t: nat)
    requires Inv(s) && Enabled(s, e) && t < |Next(s, e).threads| && (e.Run? ==> !InSection(s.threads[e.t]))
    requires Next(s, e).threads[t].DropWait? || Next(s, e).threads[t].Dropping?
    requires !(t < |s.threads| && (s.threads[t].DropWait? || s.threads[t].Dropping?))
    ensures !InMap(Next(s, e), Next(s, e).threads[t].ms)
  {
    hide Accounted, Conserved, Locks, Fields, StepSection;
  }

  lemma NewInvalid(s: State, e: Event, ms: nat)
    requires Inv(s) && Enabled(s, e) && Usable(s)
    requires ms < |Next(s, e).senders| && Next(s, e).senders[ms].s.invalid && InMap(Next(s, e), ms)
    ensures GivingUp(Next(s, e), ms)
  {
    NewSenderValid(s, e, ms);
    StepForward(s, e, ms);
    if s.senders[ms].s.invalid {
      var t :| 0 <= t < |s.threads| && GaveUp(s.threads[t]) && s.threads[t].ms == ms;
      StaysGivenUp(s, e, t);
    } else {
      Invalidated(s, e, ms);
    }
  }

  lemma NewSenderValid(s: State, e: Event, ms: nat)
    requires Inv(s) && Enabled(s, e) && ms < |Next(s, e).senders| && Next(s, e).senders[ms].s.invalid
    ensures ms < |s.senders|
  {
    hide Accounted, Conserved, Locks, Fields, Local;
  }

  lemma StaysGivenUp(s: State, e: Event, t: nat)
    requires Inv(s) && Enabled(s, e) && t < |s.threads| && GaveUp(s.threads[t])
    requires InMap(Next(s, e), s.threads[t].ms)
    ensures GivingUp(Next(s, e), s.threads[t].ms)
  {
    hide Accounted, Conserved, Locks, Fields, Local, InMap;
    var s' := Next(s, e);
    if e.Run? && e.t == t && s.threads[t].PrepFailed? {
      PrepFailedTakesOut(s, t);
    } else {
      assert t < |s'.threads| && GaveUp(s'.threads[t]) && s'.threads[t].ms == s.threads[t].ms;
    }
  }

  lemma Invalidated(s: State, e: Event, ms: nat)
    requires Inv(s) && Enabled(s, e) && Usable(s) && ms < |s.senders| && !s.senders[ms].s.invalid
    requires ms < |Next(s, e).senders| && Next(s, e).senders[ms].s.invalid && InMap(s, ms)
    ensures GivingUp(Next(s, e), ms)
  {
    hide Accounted, Conserved, Locks, Fields, Local, InMap;
    var s' := Next(s, e);
    assert e.Run? && InSection(s.threads[e.t]) && s.threads[e.t].ms == ms;
    LocalInvalidates(s.threads[e.t], s.senders[ms].s, s.net, e.ok);
    assert GaveUp(s'.threads[e.t]) && s'.threads[e.t].ms == ms;
  }

  lemma LocalInvalidates(pc: Pc, f: Sender, net: Net, ok: bool)
    requires InSection(pc) && (NeedsStream(pc) ==> f.stream.Some?) && !f.invalid && Local(pc, f, net, ok).1.invalid
    ensures pc.Dropping? || (GaveUp(Local(pc, f, net, ok).0) && Local(pc, f, net, ok).0.ms == pc.ms)
  {
  }

  lemma {:induction false} RunKeepsUsable(s: State, es: seq<Event>)
    requires Inv(s) && Runs(s, es) && Usable(s)
    ensures Usable(After(s, es))
    decreases |es|
  {
    hide Refs, StreamsThere, Locks, Accounted, Fields, Conserved, Enabled, Next, Usable;
    if es != [] {
      NextKeepsUsable(s, es[0]);
      NextKeepsInv(s, es[0]);
      RunKeepsUsable(Next(s, es[0]), es[1..]);
    }
  }

  /** In every reachable state in which no call has just failed to prepare, every entry of the map is valid. */
  lemma EntriesAreValid(s: State, p: nat)
    requires Reachable(s) && p in s.strmap && (forall t | 0 <= t < |s.threads| :: !GaveUp(s.threads[t]))
    ensures s.strmap[p] < |s.senders| && !s.senders[s.strmap[p]].s.invalid
  {
    var es :| Runs(INIT, es) && After(INIT, es) == s;
    RunKeepsUsable(INIT, es);
    assert InMap(s, s.strmap[p]);
  }

  // ----- a section run to its unlock

  /** Nothing but the call t and its sender ms changes, and no lock. */
  ghost predicate OnlySection(s: State, s': State, t: nat, ms: nat) {
    && s'.strmap == s.strmap && s'.abandoned == s.abandoned
    && |s'.threads| == |s.threads| && |s'.senders| == |s.senders|
    && (forall u | 0 <= u < |s.threads| && u != t :: s'.threads[u] == s.threads[u])
    && (forall n | 0 <= n < |s.senders| ::
          s'.senders[n] == if n == ms then s.senders[n].(s := s'.senders[n].s) else s.senders[n])
  }

  /** A call left alone in its critical section runs to the unlock that Drive describes. */
  lemma {:induction false} SectionRuns(s: State, t: nat, outs: nat -> bool, k: nat) returns (es: seq<Event>)
    requires Inv(s) && t < |s.threads| && HoldsLock(s.threads[t])
    ensures Runs(s, es)
    ensures var (pc', f', net') := Drive(s.threads[t], s.senders[s.threads[t].ms].s, s.net, outs, k);
            var s' := After(s, es);
            && OnlySection(s, s', t, s.threads[t].ms)
            && s'.threads[t] == pc' && s'.senders[s.threads[t].ms].s == f' && s'.net == net'
    decreases Rank(s.threads[t])
  {
    var pc, ms := s.threads[t], s.threads[t].ms;
    es := [];
    if !AtUnlock(pc) {
      var e := Run(t, outs(k));
      var s1 := Next(s, e);
      NextKeepsInv(s, e);
      SectionStep(s, t, outs(k));
      DriveStep(pc, s.senders[ms].s, s.net, outs, k);
      hide Inv, Next, Drive, Local, OnlySection;
      var rest := SectionRuns(s1, t, outs, k + 1);
      es := [e] + rest;
      RunsCons(s, e, rest);
      OnlyTwice(s, s1, After(s, es), t, ms);
    } else {
      OnlyNothing(s, t, ms);
    }
  }

  lemma OnlyNothing(s: State, t: nat, ms: nat)
    ensures OnlySection(s, s, t, ms)
  {
  }

  lemma OnlyTwice(s: State, s1: State, s2: State, t: nat, ms: nat)
    requires OnlySection(s, s1, t, ms) && OnlySection(s1, s2, t, ms)
    ensures OnlySection(s, s2, t, ms)
  {
    hide Holding;
  }

  lemma SectionStep(s: State, t: nat, ok: bool)
    requires Inv(s) && t < |s.threads| && InSection(s.threads[t])
    ensures var s' := Next(s, Run(t, ok));
            var (pc', f', net') := Local(s.threads[t], s.senders[s.threads[t].ms].s, s.net, ok);
            && OnlySection(s, s', t, s.threads[t].ms)
            && s'.threads[t] == pc' && s'.senders[s.threads[t].ms].s == f' && s'.net == net'
            && HoldsLock(pc') && pc'.ms == s.threads[t].ms && Rank(pc') < Rank(s.threads[t])
  {
    LocalKeeps(s.threads[t], s.senders[s.threads[t].ms].s, s.net, ok);
    LocalDescends(s.threads[t], s.senders[s.threads[t].ms].s, s.net, ok);
    hide Accounted, Conserved, Locks, Fields, Local;
  }

  lemma RunsCons(s: State, e: Event, es: seq<Event>)
    requires Inv(s) && Enabled(s, e) && Inv(Next(s, e)) && Runs(Next(s, e), es)
    ensures Runs(s, [e] + es) && After(s, [e] + es) == After(Next(s, e), es)
  {
    hide Inv, Next, Enabled;
    var all := [e] + es;
    assert all[0] == e && all[1..] == es;
  }

  // ----- a call from start to end

  lemma {:induction false} RunsConcat(s: State, a: seq<Event>, b: seq<Event>)
    requires Inv(s) && Runs(s, a) && Runs(After(s, a), b)
    ensures Runs(s, a + b) && After(s, a + b) == After(After(s, a), b)
    decreases |a|
  {
    hide Refs, StreamsThere, Locks, Accounted, Fields, Conserved, Enabled, Next;
    if a == [] {
      assert a + b == b;
    } else {
      NextKeepsInv(s, a[0]);
      assert (a + b)[1..] == a[1..] + b && (a + b)[0] == a[0];
      RunsConcat(Next(s, a[0]), a[1..], b);
    }
  }

  /** The call t waits for the lock of ms, which is free, and ms is valid. */
  ghost predicate Ready(s: State, t: nat, ms: nat) {
    && Inv(s) && t < |s.threads| && Waits(s.threads[t]) && s.threads[t].ms == ms
    && s.senders[ms].lk.None? && !s.senders[ms].s.invalid
  }

  /** With the network up, a section entered ends as Drive says. */
  lemma LockAndRun(s: State, t: nat, ms: nat) returns (es: seq<Event>)
    requires Ready(s, t, ms)
    ensures Runs(s, es)
    ensures var (pc', f', net') := Drive(Locked(s.threads[t]), s.senders[ms].s, s.net, UP, 0);
            var s' := After(s, es);
            && s'.strmap == s.strmap && |s'.threads| == |s.threads| && |s'.senders| == |s.senders|
            && s'.threads[t] == pc' && s'.senders[ms].s == f' && s'.net == net'
  {
    var e := Run(t, true);
    TakesLock(s, t, ms);
    var s1 := TakeLock(s, t);
    NextKeepsInv(s, e);
    hide Drive, Next;
    var rest := SectionRuns(s1, t, UP, 0);
    es := [e] + rest;
    RunsCons(s, e, rest);
  }

  lemma TakesLock(s: State, t: nat, ms: nat)
    requires Ready(s, t, ms)
    ensures Enabled(s, Run(t, true)) && Next(s, Run(t, true)) == TakeLock(s, t)
    ensures HoldsLock(Locked(s.threads[t])) && !NeedsStream(Locked(s.threads[t])) && Locked(s.threads[t]).ms == ms
    ensures TakeLock(s, t).threads[t] == Locked(s.threads[t])
    ensures TakeLock(s, t).senders[ms].s == s.senders[ms].s
  {
  }

  /** The network is up: every call succeeds. */
  const UP: nat -> bool := _ => true

  lemma SendUp(ms: nat, req: bool, f: Sender, net: Net)
    requires !f.invalid
    ensures var (pc', f', _) := Drive(SendPrep(ms, req, false), f, net, UP, 0);
            pc' == SendUnlock(ms, true) && Sent(f, net, f')
  {
    SendExactly(ms, req, f, net, UP);
    hide Drive;
  }

  /** The send of a call, with the network up, on a sender that is valid. */
  lemma SendStage(s: State, t: nat, ms: nat, req: bool) returns (es: seq<Event>)
    requires Ready(s, t, ms) && s.threads[t] == SendWait(ms, req)
    ensures Runs(s, es)
    ensures var s' := After(s, es);
            && s'.strmap == s.strmap && t < |s'.threads| && ms < |s'.senders|
            && s'.threads[t] == SendUnlock(ms, true) && Sent(s.senders[ms].s, s.net, s'.senders[ms].s)
  {
    SendUp(ms, req, s.senders[ms].s, s.net);
    hide Drive, Sent;
    es := LockAndRun(s, t, ms);
  }

  /** Over the stream that was there, or the next one; kept as long as the sender reuses streams. */
  predicate Sent(f: Sender, net: Net, f': Sender) {
    && !f'.invalid && f'.singleMes == f.singleMes
    && f'.stream == (if f.singleMes > 3 then None else if f.stream.Some? then f.stream else Some(net.next))
  }

  lemma PrepStage(s: State, t: nat, p: nat, ms: nat, req: bool) returns (es: seq<Event>, s': State)
    requires Ready(s, t, ms) && s.threads[t] == PrepWait(p, ms, req)
    ensures Runs(s, es) && After(s, es) == s' && Ready(s', t, ms) && s'.threads[t] == SendWait(ms, req)
    ensures s'.strmap == s.strmap && |s'.senders| == |s.senders|
    ensures s'.senders[ms].s == s.senders[ms].s.(stream := s'.senders[ms].s.stream) && s'.senders[ms].s.stream.Some?
  {
    PrepExactly(p, ms, req, s.senders[ms].s, s.net, UP);
    es := LockAndRun(s, t, ms);
    var s1 := After(s, es);
    s' := Unlocks(s1, t, p, ms, req);
    RunsOn(s, es, Run(t, true));
    es := es + [Run(t, true)];
  }

  lemma Unlocks(s: State, t: nat, p: nat, ms: nat, req: bool) returns (s': State)
    requires Inv(s) && t < |s.threads| && s.threads[t] == PrepUnlock(p, ms, req, true) && ms < |s.senders|
    requires !s.senders[ms].s.invalid
    ensures Enabled(s, Run(t, true)) && s' == Next(s, Run(t, true)) && Ready(s', t, ms)
    ensures s'.threads[t] == SendWait(ms, req) && s'.strmap == s.strmap && |s'.senders| == |s.senders|
    ensures s'.senders[ms].s == s.senders[ms].s
  {
    s' := GiveLock(s, t);
    NextKeepsInv(s, Run(t, true));
  }

  /** A call with nobody in its way and the network up succeeds: it goes over the sender of the map entry if there is
      one, over a new one that it enters in the map and prepares first if there is none. */
  lemma CallSucceeds(s: State, p: nat, req: bool) returns (es: seq<Event>)
    requires Reachable(s) && Quiet(s)
    ensures Runs(s, es)
    ensures var s', t := After(s, es), |s.threads|;
            var ms := if p in s.strmap then s.strmap[p] else |s.senders|;
            && s'.strmap == s.strmap[p := ms] && t < |s'.threads| && ms < |s'.senders|
            && s'.threads[t] == SendUnlock(ms, true) && s'.senders[ms].peer == p
            && (p in s.strmap ==> ms < |s.senders| && Sent(s.senders[ms].s, s.net, s'.senders[ms].s))
            && (p !in s.strmap ==> s'.senders[ms].s.stream.Some? && s'.senders[ms].s.singleMes == 0)
  {
    var t := |s.threads|;
    var e0, e1 := Call(p, req), Run(t, true);
    var s1, s2 := Starts(s, p, req);
    var ms := s2.threads[t].ms;
    var rest: seq<Event>;
    if p in s.strmap {
      rest := SendStage(s2, t, ms, req);
    } else {
      var prep, s3 := PrepStage(s2, t, p, ms, req);
      var send := SendStage(s3, t, ms, req);
      RunsConcat(s2, prep, send);
      rest := prep + send;
    }
    InvalidForever(s2, rest, ms);
    RunsCons(s1, e1, rest);
    RunsCons(s, e0, [e1] + rest);
    es := [e0] + ([e1] + rest);
  }

  /** The call is in and has looked up its peer. */
  lemma Starts(s: State, p: nat, req: bool) returns (s1: State, s2: State)
    requires Reachable(s) && Quiet(s)
    ensures s1 == Next(s, Call(p, req)) && Inv(s1) && Enabled(s1, Run(|s.threads|, true))
    ensures s2 == Next(s1, Run(|s.threads|, true)) && s2.net == s.net
    ensures var t, ms := |s.threads|, if p in s.strmap then s.strmap[p] else |s.senders|;
            && Ready(s2, t, ms) && s2.strmap == s.strmap[p := ms] && s2.senders[ms].peer == p
            && (if p in s.strmap then s2.threads[t] == SendWait(ms, req) && s2.senders == s.senders
                else s2.threads[t] == PrepWait(p, ms, req) && s2.senders[ms].s == NEW_SENDER)
  {
    QuietForgetsNothing(s);
    if p in s.strmap { EntriesAreValid(s, p); }
    s1 := Next(s, Call(p, req));
    NextKeepsInv(s, Call(p, req));
    s2 := StepLookup(s1, |s.threads|);
    NextKeepsInv(s1, Run(|s.threads|, true));
    hide Accounted, Conserved, Locks, Fields, StreamsThere, Reachable;
  }
}
