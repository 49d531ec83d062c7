/** peerMessageSender as an object: between a Lock and its Unlock each method does what the steps of the
    interleaving model do, and when the wait for the lock is cancelled it does nothing. */
module PeerSender {
  import opened GoTypes
  import opened SenderSteps

  /** The libp2p host, as far as streams go. */
  class Host {
    var next: nat
    var open: set<nat>

    constructor ()
      ensures Value() == Net(0, {})
    {
      next, open := 0, {};
    }

    function Value(): Net
      reads this
    {
      Net(next, open)
    }

    method NewStream(opens: bool) returns (s: Option<nat>)
      modifies this
      ensures s == if opens then Some(old(next)) else None
      ensures Value() == if opens then Net(old(next) + 1, old(open) + {old(next)}) else old(Value())
    {
      s := None;
      if opens {
        s := Some(next);
        open := open + {next};
        next := next + 1;
      }
    }

    /** Reset or Close: either way the stream is gone. */
    method End(stream: nat)
      modifies this
      ensures Value() == Net(old(next), old(open) - {stream})
    {
      open := open - {stream};
    }
  }

  class PeerMessageSender {
    var s: Option<nat>
    var invalid: bool
    var singleMes: nat
    const host: Host

    constructor (host: Host)
      ensures Fields() == NEW_SENDER && this.host == host
    {
      this.host := host;
      s, invalid, singleMes := None, false, 0;
    }

    function Fields(): Sender
      reads this
    {
      Sender(s, invalid, singleMes)
    }

    method Invalidate()
      modifies this, host
      ensures (Fields(), host.Value()) == SenderSteps.Invalidate(old(Fields()), old(host.Value()))
    {
      invalid := true;
      if s.Some? {
        host.End(s.value);
        s := None;
      }
    }

    method Prep(opens: bool) returns (err: bool)
      modifies this, host
      ensures (Fields(), host.Value(), !err) == SenderSteps.Prep(old(Fields()), old(host.Value()), opens)
    {
      if invalid {
        return true;
      }
      if s.Some? {
        return false;
      }
      var nstr := host.NewStream(opens);
      if nstr.None? {
        return true;
      }
      s := nstr;
      return false;
    }

    /** prepOrInvalidate: when the wait for the lock is cancelled, an error and nothing else. */
    method PrepOrInvalidate(cancelled: bool, opens: bool) returns (err: bool)
      modifies this, host
      ensures cancelled ==> err && Fields() == old(Fields()) && host.Value() == old(host.Value())
      ensures !cancelled ==> forall p, ms, req ::
                Drive(Prepping(p, ms, req), old(Fields()), old(host.Value()), _ => opens, 0) ==
                (PrepUnlock(p, ms, req, !err), Fields(), host.Value())
    {
      if cancelled {
        return true;
      }
      ghost var s0, net0 := Fields(), host.Value();
      err := Prep(opens);
      ghost var s1, net1 := Fields(), host.Value();
      if err {
        Invalidate();
      }
      forall p, ms, req
        ensures Drive(Prepping(p, ms, req), s0, net0, _ => opens, 0) ==
                (PrepUnlock(p, ms, req, !err), Fields(), host.Value())
      {
        DriveStep(Prepping(p, ms, req), s0, net0, _ => opens, 0);
        if err {
          DriveStep(PrepAbort(p, ms, req), s1, net1, _ => opens, 1);
        }
      }
    }

    method Reset()
      requires s.Some?
      modifies this, host
      ensures (Fields(), host.Value()) == Release(old(Fields()), old(host.Value()))
    {
      host.End(s.value);
      s := None;
    }

    /** The end of a successful send: close the stream past the limit, count the retry otherwise. */
    method Finish(retry: bool, closes: bool) returns (err: bool)
      requires s.Some?
      modifies this, host
      ensures forall ms, req ::
                Local(Finishing(ms, req, retry), old(Fields()), old(host.Value()), closes) ==
                (SendUnlock(ms, !err), Fields(), host.Value())
    {
      err := false;
      if singleMes > STREAM_REUSE_TRIES {
        err := !closes;
        host.End(s.value);
        s := None;
      } else if retry {
        singleMes := singleMes + 1;
      }
    }

    /** SendMessage; outs(k) is the outcome of the k-th step's network call. */
    method SendMessage(ms: nat, cancelled: bool, outs: nat -> bool) returns (err: bool)
      modifies this, host
      ensures cancelled ==> err && Fields() == old(Fields()) && host.Value() == old(host.Value())
      ensures !cancelled ==>
                Drive(SendPrep(ms, false, false), old(Fields()), old(host.Value()), outs, 0) ==
                (SendUnlock(ms, !err), Fields(), host.Value())
    {
      if cancelled {
        return true;
      }
      var retry, k := false, 0;
      while true
        invariant Drive(SendPrep(ms, false, false), old(Fields()), old(host.Value()), outs, 0) ==
                  Drive(SendPrep(ms, false, retry), Fields(), host.Value(), outs, k)
        decreases !retry
      {
        hide Release;
        DriveStep(SendPrep(ms, false, retry), Fields(), host.Value(), outs, k);
        err := Prep(outs(k));
        if err {
          return;
        }
        DriveStep(Writing(ms, false, retry), Fields(), host.Value(), outs, k + 1);
        if !outs(k + 1) {
          Reset();
          if retry {
            return true;
          }
          retry, k := true, k + 2;
          continue;
        }
        DriveStep(Finishing(ms, false, retry), Fields(), host.Value(), outs, k + 2);
        err := Finish(retry, outs(k + 2));
        return;
      }
    }

    /** SendRequest */
    method SendRequest(ms: nat, cancelled: bool, outs: nat -> bool) returns (err: bool)
      modifies this, host
      ensures cancelled ==> err && Fields() == old(Fields()) && host.Value() == old(host.Value())
      ensures !cancelled ==>
                Drive(SendPrep(ms, true, false), old(Fields()), old(host.Value()), outs, 0) ==
                (SendUnlock(ms, !err), Fields(), host.Value())
    {
      if cancelled {
        return true;
      }
      var retry, k := false, 0;
      while true
        invariant Drive(SendPrep(ms, true, false), old(Fields()), old(host.Value()), outs, 0) ==
                  Drive(SendPrep(ms, true, retry), Fields(), host.Value(), outs, k)
        decreases !retry
      {
        hide Release;
        DriveStep(SendPrep(ms, true, retry), Fields(), host.Value(), outs, k);
        err := Prep(outs(k));
        if err {
          return;
        }
        DriveStep(Writing(ms, true, retry), Fields(), host.Value(), outs, k + 1);
        if !outs(k + 1) {
          Reset();
          if retry {
            return true;
          }
          retry, k := true, k + 2;
          continue;
        }
        DriveStep(Reading(ms, true, retry), Fields(), host.Value(), outs, k + 2);
        if !outs(k + 2) {
          Reset();
          if retry {
            return true;
          }
          retry, k := true, k + 3;
          continue;
        }
        DriveStep(Finishing(ms, true, retry), Fields(), host.Value(), outs, k + 3);
        err := Finish(retry, outs(k + 3));
        return;
      }
    }
  }
}
