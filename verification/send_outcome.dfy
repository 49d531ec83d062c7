/** What a call between its Lock and Unlock comes to, said in terms of the sender it found and the outcomes of its
    network calls alone (dkvs/kaddht/message_sender.go). */
module SendOutcome {
  import opened GoTypes
  import opened SenderSteps

  /** The attempt whose preparation is the k-th network call gets through: its write, and for a request the read
      of the answer, succeed. */
  predicate Through(req: bool, outs: nat -> bool, k: nat) {
    outs(k + 1) && (req ==> outs(k + 2))
  }

  /** The preparation of the second attempt comes after the first failure. */
  function SecondAt(outs: nat -> bool): nat {
    if outs(1) then 3 else 2
  }

  /** The first attempt has a stream to write to. */
  predicate Begins(s: Sender, outs: nat -> bool) {
    !s.invalid && (s.stream.Some? || outs(0))
  }

  /** A failed first attempt is followed by a second, if a stream can be opened for it. */
  predicate BeginsAgain(req: bool, s: Sender, outs: nat -> bool) {
    Begins(s, outs) && !Through(req, outs, 0) && outs(SecondAt(outs))
  }

  /** The message went out, and the answer to a request came back, at the first or the second attempt. */
  predicate Sends(req: bool, s: Sender, outs: nat -> bool) {
    (Begins(s, outs) && Through(req, outs, 0)) ||
    (BeginsAgain(req, s, outs) && Through(req, outs, SecondAt(outs)))
  }

  /** The close of the stream, for a sender past reusing streams. */
  function CloseAt(req: bool, outs: nat -> bool): nat {
    (if Through(req, outs, 0) then 0 else SecondAt(outs)) + if req then 3 else 2
  }

  /** The end of a send, exactly. It succeeds just when it got through, at once or when retried, and the close of a
      one-message stream did not fail. A stream is left, and then it is the one the message went over, just when it
      got through on a sender that still reuses streams; and a retried success on such a sender counts one. */
  lemma SendExactly(ms: nat, req: bool, s: Sender, net: Net, outs: nat -> bool)
    ensures var (pc', s', net') := Drive(SendPrep(ms, req, false), s, net, outs, 0);
            var sends, reuses := Sends(req, s, outs), s.singleMes <= 3;
            && pc' == SendUnlock(ms, sends && (reuses || outs(CloseAt(req, outs))))
            && s'.invalid == s.invalid
            && s'.singleMes == s.singleMes + (if sends && reuses && !Through(req, outs, 0) then 1 else 0)
            && net'.next == net.next + Opens(req, s, outs)
            && s'.stream == (if !Begins(s, outs) then s.stream
                             else if !sends || !reuses then None
                             else if Through(req, outs, 0) && s.stream.Some? then s.stream
                             else Some(net'.next - 1))
  {
    hide Drive, Through, SecondAt, CloseAt;
    PrepStep(ms, req, false, s, net, outs, 0);
    if Begins(s, outs) {
      if Through(req, outs, 0) {
        AttemptExactly(ms, req, false, Opened(s, net).0, Opened(s, net).1, outs, 0);
        CloseAfter(req, outs);
      } else {
        RetryExactly(ms, req, s, net, outs);
      }
    }
  }

  /** How many streams a send opens. */
  function Opens(req: bool, s: Sender, outs: nat -> bool): nat {
    (if Begins(s, outs) && s.stream.None? then 1 else 0) + (if BeginsAgain(req, s, outs) then 1 else 0)
  }

  lemma CloseAfter(req: bool, outs: nat -> bool)
    ensures Through(req, outs, 0) ==> CloseAt(req, outs) == if req then 3 else 2
    ensures !Through(req, outs, 0) ==> CloseAt(req, outs) == SecondAt(outs) + if req then 3 else 2
  {
  }

  lemma RetryExactly(ms: nat, req: bool, s: Sender, net: Net, outs: nat -> bool)
    requires Begins(s, outs) && !Through(req, outs, 0)
    ensures var (pc', s', net') := Drive(SendPrep(ms, req, false), s, net, outs, 0);
            var k := SecondAt(outs);
            var sends := outs(k) && Through(req, outs, k);
            && pc' == SendUnlock(ms, sends && (s.singleMes <= 3 || outs(CloseAt(req, outs))))
            && s'.invalid == s.invalid
            && s'.singleMes == s.singleMes + (if sends && s.singleMes <= 3 then 1 else 0)
            && net'.next == net.next + (if s.stream.None? then 1 else 0) + (if outs(k) then 1 else 0)
            && s'.stream == if sends && s.singleMes <= 3 then Some(net'.next - 1) else None
  {
    PrepStep(ms, req, false, s, net, outs, 0);
    var s1, net1 := Opened(s, net).0, Opened(s, net).1;
    AttemptExactly(ms, req, false, s1, net1, outs, 0);
    var k, s2, net2 := SecondAt(outs), s1.(stream := None), net1.(open := net1.open - {s1.stream.value});
    SecondIs(outs);
    CloseAfter(req, outs);
    hide Drive, Through, SecondAt, CloseAt;
    PrepStep(ms, req, true, s2, net2, outs, k);
    if outs(k) {
      AttemptExactly(ms, req, true, Opened(s2, net2).0, Opened(s2, net2).1, outs, k);
    }
  }

  lemma SecondIs(outs: nat -> bool)
    ensures SecondAt(outs) == if outs(1) then 3 else 2
  {
  }

  /** The stream there is, or the next one the host opens. */
  function Opened(s: Sender, net: Net): (r: (Sender, Net))
    ensures r.0.stream.Some? && r.0.invalid == s.invalid
  {
    if s.stream.Some? then (s, net) else (s.(stream := Some(net.next)), Net(net.next + 1, net.open + {net.next}))
  }

  lemma PrepStep(ms: nat, req: bool, retry: bool, s: Sender, net: Net, outs: nat -> bool, k: nat)
    ensures Drive(SendPrep(ms, req, retry), s, net, outs, k) ==
            if s.invalid || (s.stream.None? && !outs(k)) then (SendUnlock(ms, false), s, net)
            else Drive(Writing(ms, req, retry), Opened(s, net).0, Opened(s, net).1, outs, k + 1)
  {
    DriveStep(SendPrep(ms, req, retry), s, net, outs, k);
  }

  /** One attempt, from its write on. */
  lemma AttemptExactly(ms: nat, req: bool, retry: bool, s: Sender, net: Net, outs: nat -> bool, k: nat)
    requires s.stream.Some? && !s.invalid
    ensures var r := Drive(Writing(ms, req, retry), s, net, outs, k + 1);
            var s0, net0 := s.(stream := None), net.(open := net.open - {s.stream.value});
            if Through(req, outs, k) then
              (if s.singleMes <= 3
               then r == (SendUnlock(ms, true), s.(singleMes := s.singleMes + if retry then 1 else 0), net)
               else r == (SendUnlock(ms, outs(k + if req then 3 else 2)), s0, net0))
            else if retry then r == (SendUnlock(ms, false), s0, net0)
            else r == Drive(SendPrep(ms, req, true), s0, net0, outs, if outs(k + 1) then k + 3 else k + 2)
  {
    DriveStep(Writing(ms, req, retry), s, net, outs, k + 1);
    if outs(k + 1) {
      if req {
        DriveStep(Reading(ms, req, retry), s, net, outs, k + 2);
        if outs(k + 2) { FinishExactly(ms, req, retry, s, net, outs, k + 3); }
      } else {
        FinishExactly(ms, req, retry, s, net, outs, k + 2);
      }
    }
  }

  lemma FinishExactly(ms: nat, req: bool, retry: bool, s: Sender, net: Net, outs: nat -> bool, k: nat)
    requires s.stream.Some?
    ensures Drive(Finishing(ms, req, retry), s, net, outs, k) ==
            if s.singleMes <= 3
            then (SendUnlock(ms, true), s.(singleMes := s.singleMes + if retry then 1 else 0), net)
            else (SendUnlock(ms, outs(k)), s.(stream := None), net.(open := net.open - {s.stream.value}))
  {
    DriveStep(Finishing(ms, req, retry), s, net, outs, k);
  }

  /** So a send fails only for one of these reasons: the sender is invalid, a stream could not be opened, both
      attempts failed, or the close of a one-message stream did. */
  lemma SendFails(ms: nat, req: bool, s: Sender, net: Net, outs: nat -> bool)
    requires Held(s, net)
    ensures var pc' := Drive(SendPrep(ms, req, false), s, net, outs, 0).0;
            var a := Attempts(SendPrep(ms, req, false), s, net, outs, 0);
            && |a| == (if Begins(s, outs) then 1 else 0) + (if BeginsAgain(req, s, outs) then 1 else 0)
            && pc'.SendUnlock?
            && (!pc'.ok <==>
                  || s.invalid
                  || (s.stream.None? && !outs(0))
                  || (!Through(req, outs, 0) && !outs(SecondAt(outs)))
                  || (|a| == 2 && !Through(req, outs, SecondAt(outs)))
                  || (s.singleMes > 3 && !outs(CloseAt(req, outs))))
  {
    SendExactly(ms, req, s, net, outs);
    CountAttempts(ms, req, s, net, outs);
    hide Drive, Attempts;
  }

  lemma CountAttempts(ms: nat, req: bool, s: Sender, net: Net, outs: nat -> bool)
    ensures |Attempts(SendPrep(ms, req, false), s, net, outs, 0)| ==
            (if Begins(s, outs) then 1 else 0) + (if BeginsAgain(req, s, outs) then 1 else 0)
  {
    var (s1, net1, done) := Prep(s, net, outs(0));
    AttemptsStep(SendPrep(ms, req, false), s, net, outs, 0);
    if Begins(s, outs) {
      CountAttempt(ms, req, false, s1, net1, outs, 0);
      if !Through(req, outs, 0) {
        var k, s2, net2 := SecondAt(outs), s1.(stream := None), net1.(open := net1.open - {s1.stream.value});
        AttemptsStep(SendPrep(ms, req, true), s2, net2, outs, k);
        if outs(k) {
          var (s3, net3, _) := Prep(s2, net2, true);
          CountAttempt(ms, req, true, s3, net3, outs, k);
        }
      }
    }
  }

  lemma AttemptsStep(pc: Pc, s: Sender, net: Net, outs: nat -> bool, k: nat)
    requires InSection(pc) && (NeedsStream(pc) ==> s.stream.Some?)
    ensures var (pc', s', net') := Local(pc, s, net, outs(k));
            |Attempts(pc, s, net, outs, k)| ==
            (if pc.Writing? then 1 else 0) + |Attempts(pc', s', net', outs, k + 1)|
    ensures AtUnlock(Local(pc, s, net, outs(k)).0) ==>
              |Attempts(pc, s, net, outs, k)| == if pc.Writing? then 1 else 0
  {
    hide Local;
  }

  lemma CountAttempt(ms: nat, req: bool, retry: bool, s: Sender, net: Net, outs: nat -> bool, k: nat)
    requires s.stream.Some? && !s.invalid
    ensures var s0, net0 := s.(stream := None), net.(open := net.open - {s.stream.value});
            |Attempts(Writing(ms, req, retry), s, net, outs, k + 1)| ==
            1 + if Through(req, outs, k) || retry then 0
                else |Attempts(SendPrep(ms, req, true), s0, net0, outs, if outs(k + 1) then k + 3 else k + 2)|
  {
    AttemptsStep(Writing(ms, req, retry), s, net, outs, k + 1);
    if outs(k + 1) {
      if req {
        AttemptsStep(Reading(ms, req, retry), s, net, outs, k + 2);
        if outs(k + 2) { AttemptsStep(Finishing(ms, req, retry), s, net, outs, k + 3); }
      } else {
        AttemptsStep(Finishing(ms, req, retry), s, net, outs, k + 2);
      }
    }
  }

  /** The end of a preparation: it fails just when the sender is invalid or needs a stream and gets none, and then
      the sender is invalid and without one. */
  lemma PrepExactly(p: nat, ms: nat, req: bool, s: Sender, net: Net, outs: nat -> bool)
    ensures var (pc', s', net') := Drive(Prepping(p, ms, req), s, net, outs, 0);
            && pc' == PrepUnlock(p, ms, req, Begins(s, outs))
            && s'.invalid == !Begins(s, outs) && s'.singleMes == s.singleMes
            && s'.stream == (if !Begins(s, outs) then None
                             else if s.stream.Some? then s.stream else Some(net.next))
            && net'.next == net.next + (if Begins(s, outs) && s.stream.None? then 1 else 0)
  {
    DriveStep(Prepping(p, ms, req), s, net, outs, 0);
    var (s1, net1, done) := Prep(s, net, outs(0));
    if !done {
      DriveStep(PrepAbort(p, ms, req), s1, net1, outs, 1);
    }
  }
}
