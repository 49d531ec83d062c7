/** The critical sections of a peer message sender (dkvs/kaddht/message_sender.go), one network call or
    field update at a time. */
module SenderSteps {
  import opened GoTypes

  const STREAM_REUSE_TRIES: nat := 3

  /** Streams are numbered as the host opens them; `open` are those neither reset nor closed. */
  datatype Net = Net(next: nat, open: set<nat>)

  /** The fields of a peerMessageSender that its lock guards. */
  datatype Sender = Sender(stream: Option<nat>, invalid: bool, singleMes: nat)

  const NEW_SENDER := Sender(None, false, 0)

  /** Where a call is. Those from Prepping to PrepUnlock, SendPrep to SendUnlock and Dropping to DropUnlock
      hold the sender's lock; ms is the sender's identity, p its peer. */
  datatype Pc =
    | Lookup(p: nat, req: bool)
    | PrepWait(p: nat, ms: nat, req: bool)
    | Prepping(p: nat, ms: nat, req: bool)
    | PrepAbort(p: nat, ms: nat, req: bool)
    | PrepUnlock(p: nat, ms: nat, req: bool, ok: bool)
    | PrepFailed(p: nat, ms: nat, req: bool)
    | SendWait(ms: nat, req: bool)
    | SendPrep(ms: nat, req: bool, retry: bool)
    | Writing(ms: nat, req: bool, retry: bool)
    | Reading(ms: nat, req: bool, retry: bool)
    | Finishing(ms: nat, req: bool, retry: bool)
    | SendUnlock(ms: nat, ok: bool)
    | DropWait(ms: nat)
    | Dropping(ms: nat)
    | DropUnlock(ms: nat)
    | Done

  predicate HoldsLock(pc: Pc) {
    pc.Prepping? || pc.PrepAbort? || pc.PrepUnlock? || pc.SendPrep? || pc.Writing? || pc.Reading? ||
    pc.Finishing? || pc.SendUnlock? || pc.Dropping? || pc.DropUnlock?
  }

  predicate AtUnlock(pc: Pc) {
    pc.PrepUnlock? || pc.SendUnlock? || pc.DropUnlock?
  }

  /** A step that works on the locked sender. */
  predicate InSection(pc: Pc) {
    HoldsLock(pc) && !AtUnlock(pc)
  }

  /** Writing, reading and finishing use the stream without looking whether it is there. */
  predicate NeedsStream(pc: Pc) {
    pc.Writing? || pc.Reading? || pc.Finishing?
  }

  // ----- the fields and the host

  /** Resets or closes the stream and lets go of it. */
  function Release(s: Sender, net: Net): (Sender, Net)
    requires s.stream.Some?
  {
    (s.(stream := None), net.(open := net.open - {s.stream.value}))
  }

  function Invalidate(s: Sender, net: Net): (Sender, Net) {
    if s.stream.Some? then Release(s.(invalid := true), net) else (s.(invalid := true), net)
  }

  /** prep, when NewStream would succeed iff `opens`; the last component is its success. */
  function Prep(s: Sender, net: Net, opens: bool): (Sender, Net, bool) {
    if s.invalid then (s, net, false)
    else if s.stream.Some? then (s, net, true)
    else if !opens then (s, net, false)
    else (s.(stream := Some(net.next)), Net(net.next + 1, net.open + {net.next}), true)
  }

  /** A failed write or read: reset the stream, and go round again the first time. */
  function Retry(ms: nat, req: bool, retry: bool, s: Sender, net: Net): (Pc, Sender, Net)
    requires s.stream.Some?
  {
    var (s', net') := Release(s, net);
    (if retry then SendUnlock(ms, false) else SendPrep(ms, req, true), s', net')
  }

  /** One step inside a critical section; ok is the outcome of its network call. */
  function Local(pc: Pc, s: Sender, net: Net, ok: bool): (Pc, Sender, Net)
    requires InSection(pc) && (NeedsStream(pc) ==> s.stream.Some?)
  {
    match pc
    case Prepping(p, ms, req) =>
      var (s', net', done) := Prep(s, net, ok);
      (if done then PrepUnlock(p, ms, req, true) else PrepAbort(p, ms, req), s', net')
    case PrepAbort(p, ms, req) =>
      var (s', net') := Invalidate(s, net);
      (PrepUnlock(p, ms, req, false), s', net')
    case SendPrep(ms, req, retry) =>
      var (s', net', done) := Prep(s, net, ok);
      (if done then Writing(ms, req, retry) else SendUnlock(ms, false), s', net')
    case Writing(ms, req, retry) =>
      if !ok then Retry(ms, req, retry, s, net)
      else (if req then Reading(ms, req, retry) else Finishing(ms, req, retry), s, net)
    case Reading(ms, req, retry) =>
      if !ok then Retry(ms, req, retry, s, net) else (Finishing(ms, req, retry), s, net)
    case Finishing(ms, req, retry) =>
      if s.singleMes > STREAM_REUSE_TRIES then
        var (s', net') := Release(s, net);
        (SendUnlock(ms, ok), s', net')
      else (SendUnlock(ms, true), if retry then s.(singleMes := s.singleMes + 1) else s, net)
    case Dropping(ms) =>
      var (s', net') := Invalidate(s, net);
      (DropUnlock(ms), s', net')
  }

  /** Steps a call can still take. */
  function Rank(pc: Pc): nat {
    match pc
    case Lookup(_, _) => 16
    case PrepWait(_, _, _) => 15
    case Prepping(_, _, _) => 14
    case PrepAbort(_, _, _) => 13
    case PrepUnlock(_, _, _, _) => 12
    case PrepFailed(_, _, _) => 11
    case SendWait(_, _) => 10
    case SendPrep(_, _, retry) => if retry then 5 else 9
    case Writing(_, _, retry) => if retry then 4 else 8
    case Reading(_, _, retry) => if retry then 3 else 7
    case Finishing(_, _, _) => 2
    case SendUnlock(_, _) => 1
    case DropWait(_) => 3
    case Dropping(_) => 2
    case DropUnlock(_) => 1
    case Done => 0
  }

  // ----- a whole section, run to its unlock

  /** The section from pc on; outs gives the outcome of each step's network call. */
  function Drive(pc: Pc, s: Sender, net: Net, outs: nat -> bool, k: nat): (Pc, Sender, Net)
    requires HoldsLock(pc) && (NeedsStream(pc) ==> s.stream.Some?)
    decreases Rank(pc)
  {
    if AtUnlock(pc) then (pc, s, net)
    else
      var (pc', s', net') := Local(pc, s, net, outs(k));
      Drive(pc', s', net', outs, k + 1)
  }

  lemma DriveStep(pc: Pc, s: Sender, net: Net, outs: nat -> bool, k: nat)
    requires InSection(pc) && (NeedsStream(pc) ==> s.stream.Some?)
    ensures var (pc', s', net') := Local(pc, s, net, outs(k));
            Drive(pc, s, net, outs, k) == Drive(pc', s', net', outs, k + 1)
  {
  }

  /** Every held stream is open, and was opened before `next`. */
  predicate Held(s: Sender, net: Net) {
    s.stream.Some? ==> s.stream.value in net.open && s.stream.value < net.next
  }

  /** What a section does to the streams: those it opened and no longer holds are closed, nothing else is. */
  lemma {:induction false} DriveConserves(pc: Pc, s: Sender, net: Net, outs: nat -> bool, k: nat)
    requires HoldsLock(pc) && (NeedsStream(pc) ==> s.stream.Some?)
    requires Held(s, net) && (forall x | x in net.open :: x < net.next)
    ensures var (pc', s', net') := Drive(pc, s, net, outs, k);
            && AtUnlock(pc') && Held(s', net') && net.next <= net'.next
            && net'.open == net.open - Holding(s) + Holding(s')
            && (forall x | x in net'.open :: x < net'.next)
            && (s'.stream.Some? ==> s'.stream == s.stream || net.next <= s'.stream.value)
    decreases Rank(pc)
  {
    if !AtUnlock(pc) {
      var (pc', s', net') := Local(pc, s, net, outs(k));
      DriveConserves(pc', s', net', outs, k + 1);
    }
  }

  function Holding(s: Sender): set<nat> {
    if s.stream.Some? then {s.stream.value} else {}
  }

  /** The streams a section writes to, one for each attempt. */
  function Attempts(pc: Pc, s: Sender, net: Net, outs: nat -> bool, k: nat): seq<nat>
    requires HoldsLock(pc) && (NeedsStream(pc) ==> s.stream.Some?)
    decreases Rank(pc)
  {
    if AtUnlock(pc) then []
    else
      var (pc', s', net') := Local(pc, s, net, outs(k));
      (if pc.Writing? then [s.stream.value] else []) + Attempts(pc', s', net', outs, k + 1)
  }

  /** A send makes at most two attempts, whether a write fails or the read of an answer, and the second goes over
      a stream opened for it. It opens at most two streams. */
  lemma SendAttempts(ms: nat, req: bool, s: Sender, net: Net, outs: nat -> bool)
    requires Held(s, net)
    ensures var a := Attempts(SendPrep(ms, req, false), s, net, outs, 0);
            |a| <= 2 && (|a| == 2 ==> a[1] >= net.next && a[1] != a[0])
    ensures Drive(SendPrep(ms, req, false), s, net, outs, 0).2.next <= net.next + 2
  {
    FirstAttempt(SendPrep(ms, req, false), s, net, outs, 0);
    AttemptsBound(SendPrep(ms, req, false), s, net, outs, 0);
  }

  /** After a failed attempt there is one more at most, over the next stream the host opens. */
  lemma {:induction false} SecondAttempt(pc: Pc, s: Sender, net: Net, outs: nat -> bool, k: nat)
    requires (pc.SendPrep? || NeedsStream(pc)) && pc.retry
    requires if pc.SendPrep? then s.stream.None? else s.stream.Some?
    ensures var a := Attempts(pc, s, net, outs, k);
            && |a| <= 1
            && (pc.SendPrep? ==> forall x | x in a :: x == net.next)
            && (pc.Reading? || pc.Finishing? ==> a == [])
    decreases Rank(pc)
  {
    var (pc', s', net') := Local(pc, s, net, outs(k));
    if AtUnlock(pc') {
      assert Attempts(pc', s', net', outs, k + 1) == [];
    } else {
      SecondAttempt(pc', s', net', outs, k + 1);
      if pc.SendPrep? {
        var (pc2, s2, net2) := Local(pc', s', net', outs(k + 1));
        if !AtUnlock(pc2) { SecondAttempt(pc2, s2, net2, outs, k + 2); }
        assert Attempts(pc', s', net', outs, k + 1) == [net.next] + Attempts(pc2, s2, net2, outs, k + 2);
      }
    }
  }

  lemma {:induction false} FirstAttempt(pc: Pc, s: Sender, net: Net, outs: nat -> bool, k: nat)
    requires (pc.SendPrep? || NeedsStream(pc)) && !pc.retry && (NeedsStream(pc) ==> s.stream.Some?) && Held(s, net)
    ensures var a := Attempts(pc, s, net, outs, k);
            if pc.Reading? || pc.Finishing? then |a| <= 1 && (forall x | x in a :: x >= net.next)
            else |a| <= 2 && (|a| == 2 ==> a[1] >= net.next && a[1] != a[0])
    ensures pc.Writing? ==> Attempts(pc, s, net, outs, k) != [] && Attempts(pc, s, net, outs, k)[0] == s.stream.value
    decreases Rank(pc)
  {
    var (pc', s', net') := Local(pc, s, net, outs(k));
    if AtUnlock(pc') {
      assert Attempts(pc', s', net', outs, k + 1) == [];
    } else {
      if pc'.retry {
        SecondAttempt(pc', s', net', outs, k + 1);
      } else {
        FirstAttempt(pc', s', net', outs, k + 1);
      }
      var a := Attempts(pc', s', net', outs, k + 1);
      assert Attempts(pc, s, net, outs, k) == (if pc.Writing? then [s.stream.value] + a else a);
      assert a != [] ==> a[0] in a;
    }
  }

  /** Streams a section can still open. */
  function OpensLeft(pc: Pc, s: Sender): nat {
    if pc.SendPrep? then (if pc.retry then 1 else if s.stream.Some? then 1 else 2)
    else if pc.Writing? || pc.Reading? then (if pc.retry then 0 else 1)
    else if pc.Prepping? then 1
    else 0
  }

  lemma {:induction false} AttemptsBound(pc: Pc, s: Sender, net: Net, outs: nat -> bool, k: nat)
    requires HoldsLock(pc) && (NeedsStream(pc) ==> s.stream.Some?)
    ensures Drive(pc, s, net, outs, k).2.next <= net.next + OpensLeft(pc, s)
    decreases Rank(pc)
  {
    if !AtUnlock(pc) {
      var (pc', s', net') := Local(pc, s, net, outs(k));
      AttemptsBound(pc', s', net', outs, k + 1);
    }
  }

  /** singleMes never goes down and never beyond one more than the limit; invalid stays invalid. */
  lemma {:induction false} DriveMonotone(pc: Pc, s: Sender, net: Net, outs: nat -> bool, k: nat)
    requires HoldsLock(pc) && (NeedsStream(pc) ==> s.stream.Some?)
    ensures var s' := Drive(pc, s, net, outs, k).1;
            && s.singleMes <= s'.singleMes
            && (s.singleMes <= STREAM_REUSE_TRIES + 1 ==> s'.singleMes <= STREAM_REUSE_TRIES + 1)
            && (s.invalid ==> s'.invalid)
            && (s.invalid && s.stream.None? ==> s'.stream.None?)
    decreases Rank(pc)
  {
    if !AtUnlock(pc) {
      var (pc', s', net') := Local(pc, s, net, outs(k));
      DriveMonotone(pc', s', net', outs, k + 1);
    }
  }

  /** Past the limit a stream carries one message: the send ends with no stream held. */
  lemma {:induction false} OneMessagePerStream(pc: Pc, s: Sender, net: Net, outs: nat -> bool, k: nat)
    requires (pc.SendPrep? || NeedsStream(pc)) && (NeedsStream(pc) ==> s.stream.Some?)
    requires s.singleMes > STREAM_REUSE_TRIES && (s.invalid ==> s.stream.None?)
    ensures Drive(pc, s, net, outs, k).1.stream == None
    decreases Rank(pc)
  {
    var (pc', s', net') := Local(pc, s, net, outs(k));
    if !AtUnlock(pc') {
      OneMessagePerStream(pc', s', net', outs, k + 1);
    }
  }

  /** Some attempt from pc on got through: a message was written, or the answer to a request read. */
  ghost predicate GotThrough(pc: Pc, s: Sender, net: Net, outs: nat -> bool, k: nat)
    requires HoldsLock(pc) && (NeedsStream(pc) ==> s.stream.Some?)
    decreases Rank(pc)
  {
    !AtUnlock(pc) &&
    ((((pc.Writing? && !pc.req) || pc.Reading?) && outs(k)) ||
     var (pc', s', net') := Local(pc, s, net, outs(k));
     GotThrough(pc', s', net', outs, k + 1))
  }

  /** A send reports success only if it got through; one that did is reported as failed only when closing its
      one-message stream failed. */
  lemma {:induction false} SuccessMeansGotThrough(pc: Pc, s: Sender, net: Net, outs: nat -> bool, k: nat)
    requires pc.SendPrep? || pc.Writing? || pc.Reading?
    requires NeedsStream(pc) ==> s.stream.Some?
    ensures var (pc', s', _) := Drive(pc, s, net, outs, k);
            && pc'.SendUnlock?
            && (pc'.ok ==> GotThrough(pc, s, net, outs, k))
            && (GotThrough(pc, s, net, outs, k) && !pc'.ok ==> s'.stream.None? && s'.singleMes > STREAM_REUSE_TRIES)
    decreases Rank(pc)
  {
    var (pc', s', net') := Local(pc, s, net, outs(k));
    if pc'.Finishing? {
      var (pc'', s'', net'') := Local(pc', s', net', outs(k + 1));
      assert AtUnlock(pc'') && Drive(pc', s', net', outs, k + 1) == (pc'', s'', net'');
    } else if !AtUnlock(pc') {
      SuccessMeansGotThrough(pc', s', net', outs, k + 1);
    } else {
      assert !GotThrough(pc', s', net', outs, k + 1);
    }
  }
}
