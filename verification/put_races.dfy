/** Puts to one key whose reads and writes interleave: putKeyToLocalNode of dkvs/dht.go reads the entry,
    decides, and writes, with no lock around the three. */
module PutRaces {
  import opened GoTypes
  import opened Certs
  import opened Records
  import opened LocalStore

  /** A put that has decided to write, on the strength of the entry it saw. */
  datatype Flight = Flight(p: Put, seen: Option<Stored>)

  /** Puts are numbered as they read; flights are those that have yet to write. */
  datatype Race = Race(entry: Option<Stored>, next: nat, flights: map<nat, Flight>)

  datatype Event =
    | Read(p: Put)        // reads the entry; a refused put ends here
    | Write(id: nat)      // a put in flight writes
    | Fail(id: nat)       // the datastore fails its write

  ghost predicate EventsOk(es: seq<Event>) {
    forall e | e in es :: e.Read? ==> TableOk(e.p.env.services)
  }

  ghost predicate Possible(r: Race, e: Event) {
    !e.Read? ==> e.id in r.flights
  }

  ghost function Next(key: Bytes, r: Race, e: Event): Race
    requires Possible(r, e) && (e.Read? ==> TableOk(e.p.env.services))
  {
    match e
    case Read(p) =>
      Race(r.entry, r.next + 1,
           if PutOutcome(p.env, r.entry, key, p.value).None? then r.flights[r.next := Flight(p, r.entry)]
           else r.flights)
    case Write(id) => r.(entry := Some(Wrapped(key, r.flights[id].p.value)), flights := r.flights - {id})
    case Fail(id) => r.(flights := r.flights - {id})
  }

  /** A run of events from the entry s with nothing in flight; None if some event has no put to do it. */
  ghost function State(key: Bytes, s: Option<Stored>, es: seq<Event>): Option<Race>
    requires EventsOk(es)
    decreases |es|
  {
    if es == [] then Some(Race(s, 0, map[]))
    else
      var before, e := State(key, s, es[..|es| - 1]), es[|es| - 1];
      if before.None? || !Possible(before.value, e) then None
      else assert e in es; Some(Next(key, before.value, e))
  }

  ghost predicate Happens(key: Bytes, s: Option<Stored>, es: seq<Event>) {
    EventsOk(es) && State(key, s, es).Some?
  }

  lemma {:induction false} PrefixHappens(key: Bytes, s: Option<Stored>, es: seq<Event>, k: nat)
    requires Happens(key, s, es) && k <= |es|
    ensures Happens(key, s, es[..k])
    decreases |es|
  {
    hide Next, Possible, TableOk;
    if k < |es| {
      PrefixHappens(key, s, es[..|es| - 1], k);
      assert es[..|es| - 1][..k] == es[..k];
    } else {
      assert es[..k] == es;
    }
  }

  /** The puts that wrote, in the order of their writes, and all that were begun. */
  ghost function Writes(key: Bytes, s: Option<Stored>, es: seq<Event>): seq<Put>
    requires Happens(key, s, es)
    decreases |es|
  {
    if es == [] then []
    else
      var front, e := es[..|es| - 1], es[|es| - 1];
      Writes(key, s, front) + if e.Write? then [State(key, s, front).value.flights[e.id].p] else []
  }

  ghost function Begun(es: seq<Event>): seq<Put> {
    if es == [] then []
    else
      var e := es[|es| - 1];
      Begun(es[..|es| - 1]) + if e.Read? then [e.p] else []
  }

  /** Every write finds the entry its put had read. */
  ghost predicate Undisturbed(key: Bytes, s: Option<Stored>, es: seq<Event>)
    requires Happens(key, s, es)
    decreases |es|
  {
    es == [] ||
    var front, e := es[..|es| - 1], es[|es| - 1];
    Undisturbed(key, s, front) &&
    (e.Write? ==> var r := State(key, s, front).value; r.flights[e.id].seen == r.entry)
  }

  /** What was decided stays decided. */
  ghost predicate Decided(key: Bytes, r: Race) {
    forall id | id in r.flights ::
      var f := r.flights[id];
      id < r.next && TableOk(f.p.env.services) && PutOutcome(f.p.env, f.seen, key, f.p.value).None?
  }

  lemma {:induction false} StateDecided(key: Bytes, s: Option<Stored>, es: seq<Event>)
    requires Happens(key, s, es)
    ensures Decided(key, State(key, s, es).value)
    decreases |es|
  {
    hide PutOutcome, TableOk;
    if es != [] {
      StateDecided(key, s, es[..|es| - 1]);
      assert es[|es| - 1] in es;
    }
  }

  /** A run whose writes are undisturbed is a run of whole puts, one at a time, in the order of the writes; so
      all that is proved of those holds of it. */
  lemma {:induction false} UndisturbedIsSerial(key: Bytes, s: Option<Stored>, es: seq<Event>)
    requires Happens(key, s, es) && Undisturbed(key, s, es)
    ensures PutsOk(Writes(key, s, es))
    ensures After(key, s, Writes(key, s, es)) == State(key, s, es).value.entry
    decreases |es|
  {
    hide PutOutcome, TableOk;
    if es != [] {
      var front, e := es[..|es| - 1], es[|es| - 1];
      UndisturbedIsSerial(key, s, front);
      if e.Write? {
        StateDecided(key, s, front);
        var f := State(key, s, front).value.flights[e.id];
        var ws := Writes(key, s, front) + [f.p];
        assert ws[..|ws| - 1] == Writes(key, s, front);
      } else {
        assert Writes(key, s, es) == Writes(key, s, front);
      }
    }
  }

  // ----- records of one owner

  /** Every put is of a record of the pool. */
  ghost predicate BegunInForce(key: Bytes, pool: set<Bytes>, es: seq<Event>) {
    forall e | e in es :: e.Read? ==> Pool(key, pool, e.p.env) && e.p.value in pool
  }

  /** No record put is greater than g. */
  ghost predicate Top(g: Bytes, es: seq<Event>) {
    forall e | e in es :: e.Read? ==> CompareVersions(VersionOf(e.p.value), VersionOf(g)) <= 0
  }

  /** The entry is g, and no put in flight is going to write anything else. */
  ghost predicate Settled(key: Bytes, g: Bytes, r: Race, later: seq<Event>) {
    && r.entry == Some(Wrapped(key, g))
    && (forall id | id in r.flights :: id < r.next && (r.flights[id].p.value == g || Write(id) !in later))
  }

  /** A put that reads g goes on to write only g itself. */
  lemma ReadOfTop(key: Bytes, pool: set<Bytes>, g: Bytes, p: Put)
    requires Pool(key, pool, p.env) && p.value in pool && g in pool
    requires CompareVersions(VersionOf(p.value), VersionOf(g)) <= 0
    ensures PutOutcome(p.env, Some(Wrapped(key, g)), key, p.value).None? ==> p.value == g
  {
    assert TableOk(p.env.services);
    hide Validate, Select, CompareVersions, Pool, VersionOf, PutOutcome, TableOk;
    SameOwnerPut(key, pool, g, p);
    if PutOutcome(p.env, Some(Wrapped(key, g)), key, p.value).None? {
      VersionOrderTotal(VersionOf(p.value), VersionOf(g), VersionOf(g));
      if CompareVersions(VersionOf(p.value), VersionOf(g)) == 0 {
        SameVersion(p.value, g);
      }
    }
  }

  lemma StaysSettled(key: Bytes, pool: set<Bytes>, g: Bytes, r: Race, e: Event, later: seq<Event>)
    requires Settled(key, g, r, [e] + later) && g in pool && Possible(r, e)
    requires e.Read? ==> Pool(key, pool, e.p.env) && e.p.value in pool
    requires e.Read? ==> CompareVersions(VersionOf(e.p.value), VersionOf(g)) <= 0
    ensures e.Read? ==> TableOk(e.p.env.services)
    ensures Settled(key, g, Next(key, r, e), later)
  {
    if e.Read? {
      ReadOfTop(key, pool, g, e.p);
    }
    hide PutOutcome, CompareVersions, VersionOf;
    assert forall d :: d in [e] + later <==> d == e || d in later;
  }

  /** From a point on where the entry is g and no other record is yet to be written, it stays g. */
  lemma {:induction false} SettledToTheEnd(key: Bytes, pool: set<Bytes>, s: Option<Stored>, es: seq<Event>, g: Bytes,
                                           k: nat)
    requires Happens(key, s, es) && BegunInForce(key, pool, es) && g in pool && Top(g, es) && k <= |es|
    requires Happens(key, s, es[..k]) && Settled(key, g, State(key, s, es[..k]).value, es[k..])
    ensures State(key, s, es).value.entry == Some(Wrapped(key, g))
    decreases |es| - k
  {
    hide Next, Pool, Possible, TableOk, CompareVersions, VersionOf;
    if k == |es| {
      assert es[..k] == es;
    } else {
      var r, e, later := State(key, s, es[..k]).value, es[k], es[k + 1..];
      assert e in es && es[k..] == [e] + later;
      PrefixHappens(key, s, es, k + 1);
      assert es[..k + 1][..k] == es[..k];
      StaysSettled(key, pool, g, r, e, later);
      SettledToTheEnd(key, pool, s, es, g, k + 1);
    }
  }

  /** The i-th event writes g, and of the puts then in flight none goes on to write another record. */
  ghost predicate WritesForGood(key: Bytes, s: Option<Stored>, es: seq<Event>, g: Bytes, i: nat)
    requires Happens(key, s, es) && i < |es|
  {
    PrefixHappens(key, s, es, i + 1);
    es[i].Write? && Settled(key, g, State(key, s, es[..i + 1]).value, es[i + 1..])
  }

  /** The last write of a run settles what it leaves. */
  lemma {:induction false} LastWrite(key: Bytes, s: Option<Stored>, es: seq<Event>, g: Bytes) returns (i: nat)
    requires Happens(key, s, es)
    requires State(key, s, es).value.entry == Some(Wrapped(key, g)) && s != Some(Wrapped(key, g))
    ensures i < |es| && WritesForGood(key, s, es, g, i) && (forall j | i < j < |es| :: !es[j].Write?)
    decreases |es|
  {
    hide PutOutcome, TableOk;
    var n := |es| - 1;
    var front := es[..n];
    assert es[..n + 1] == es;
    if es[n].Write? {
      i := n;
      StateDecided(key, s, es);
    } else {
      i := LastWrite(key, s, front, g);
      assert front[..i + 1] == es[..i + 1];
      assert es[i + 1..] == front[i + 1..] + [es[n]];
    }
  }

  /** The exact condition on the schedule: for g no smaller than any record put, the run ends with g in the store if
      and only if it started so, or some write stores g while no other put in flight goes on to write a smaller. */
  lemma GreatestIff(key: Bytes, pool: set<Bytes>, s: Option<Stored>, es: seq<Event>, g: Bytes)
    requires Happens(key, s, es) && BegunInForce(key, pool, es) && g in pool && Top(g, es)
    ensures State(key, s, es).value.entry == Some(Wrapped(key, g)) <==>
              s == Some(Wrapped(key, g)) || exists i :: 0 <= i < |es| && WritesForGood(key, s, es, g, i)
  {
    hide CompareVersions, VersionOf, Pool, Next, TableOk, State, Settled, BegunInForce, Top;
    if State(key, s, es).value.entry == Some(Wrapped(key, g)) && s != Some(Wrapped(key, g)) {
      var i := LastWrite(key, s, es, g);
    }
    if i :| 0 <= i < |es| && WritesForGood(key, s, es, g, i) {
      PrefixHappens(key, s, es, i + 1);
      SettledToTheEnd(key, pool, s, es, g, i + 1);
    }
    if s == Some(Wrapped(key, g)) {
      StartSettled(key, s, es, g);
      SettledToTheEnd(key, pool, s, es, g, 0);
    }
  }

  lemma StartSettled(key: Bytes, s: Option<Stored>, es: seq<Event>, g: Bytes)
    requires s == Some(Wrapped(key, g))
    ensures Happens(key, s, es[..0]) && Settled(key, g, State(key, s, es[..0]).value, es[0..])
  {
    assert es[..0] == [];
  }

  lemma {:induction false} BegunReads(es: seq<Event>)
    ensures forall p :: p in Begun(es) <==> Read(p) in es
  {
    if es != [] {
      var front := es[..|es| - 1];
      BegunReads(front);
      assert es == front + [es[|es| - 1]];
    }
  }

  /** An entry that reads as absent does not hold a record in force. */
  lemma StartIsNot(key: Bytes, pool: set<Bytes>, s: Option<Stored>, p: Put)
    requires Pool(key, pool, p.env) && p.value in pool && Current(p.env, s, key).None?
    ensures s != Some(Wrapped(key, p.value))
  {
    hide Validate;
  }

  ghost predicate NoneFails(es: seq<Event>) {
    forall e | e in es :: !e.Fail?
  }

  /** When every put in flight comes to write, that is: the greatest record is written at a moment when every put in
      flight carries it too. */
  lemma GreatestIffAllWrite(key: Bytes, pool: set<Bytes>, s: Option<Stored>, es: seq<Event>, g: Bytes)
    requires Happens(key, s, es) && BegunInForce(key, pool, es) && g in pool && Top(g, es)
    requires NoneFails(es) && State(key, s, es).value.flights == map[]
    ensures State(key, s, es).value.entry == Some(Wrapped(key, g)) <==>
              s == Some(Wrapped(key, g)) || exists i :: 0 <= i < |es| && AllCarry(key, s, es, g, i)
  {
    GreatestIff(key, pool, s, es, g);
    hide *;
    forall i | 0 <= i < |es|
      ensures AllCarry(key, s, es, g, i) <==> WritesForGood(key, s, es, g, i)
    {
      CarryForGood(key, s, es, g, i);
    }
  }

  lemma CarryForGood(key: Bytes, s: Option<Stored>, es: seq<Event>, g: Bytes, i: nat)
    requires Happens(key, s, es) && NoneFails(es) && State(key, s, es).value.flights == map[] && i < |es|
    ensures AllCarry(key, s, es, g, i) <==> WritesForGood(key, s, es, g, i)
  {
    hide State, NoneFails, PutOutcome, TableOk;
    PrefixHappens(key, s, es, i + 1);
    StateDecided(key, s, es[..i + 1]);
    forall id | id in State(key, s, es[..i + 1]).value.flights
      ensures Write(id) in es[i + 1..]
    {
      ComesToWrite(key, s, es, i + 1, id);
    }
  }

  ghost predicate AllCarry(key: Bytes, s: Option<Stored>, es: seq<Event>, g: Bytes, i: nat)
    requires Happens(key, s, es) && i < |es|
  {
    PrefixHappens(key, s, es, i + 1);
    var r := State(key, s, es[..i + 1]).value;
    es[i].Write? && r.entry == Some(Wrapped(key, g)) && (forall id | id in r.flights :: r.flights[id].p.value == g)
  }

  lemma {:induction false} ComesToWrite(key: Bytes, s: Option<Stored>, es: seq<Event>, k: nat, id: nat)
    requires Happens(key, s, es) && k <= |es| && Happens(key, s, es[..k]) && NoneFails(es)
    requires id in State(key, s, es[..k]).value.flights && State(key, s, es).value.flights == map[]
    ensures Write(id) in es[k..]
    decreases |es| - k
  {
    hide PutOutcome, TableOk;
    assert es[..|es|] == es;
    if k < |es| {
      PrefixHappens(key, s, es, k + 1);
      StateDecided(key, s, es[..k]);
      assert es[..k + 1][..k] == es[..k] && es[k] in es && es[k..] == [es[k]] + es[k + 1..];
      if es[k] != Write(id) {
        ComesToWrite(key, s, es, k + 1, id);
      }
    }
  }

  // ----- undisturbed runs

  ghost predicate InFlight(p: Put, r: Race) {
    exists id :: id in r.flights && r.flights[id].p == p
  }

  /** The entry is that of q, and no put is greater but those still in flight. */
  ghost predicate CoveredBy(key: Bytes, r: Race, ps: seq<Put>, q: Put) {
    && q in ps && r.entry == Some(Wrapped(key, q.value))
    && (forall p | p in ps :: InFlight(p, r) || CompareVersions(VersionOf(p.value), VersionOf(q.value)) <= 0)
  }

  ghost predicate Covers(key: Bytes, s: Option<Stored>, r: Race, ps: seq<Put>) {
    && (forall id | id in r.flights :: id < r.next && r.flights[id].p in ps)
    && ((r.entry == s && forall p | p in ps :: InFlight(p, r) && Absent(key, s, p)) ||
        (exists q :: CoveredBy(key, r, ps, q)))
  }

  /** To this put the entry s reads as absent. */
  ghost predicate Absent(key: Bytes, s: Option<Stored>, p: Put) {
    TableOk(p.env.services) && Current(p.env, s, key).None?
  }

  /** If the entry s read as absent to the puts so far, it does to p. */
  ghost predicate StartFor(key: Bytes, s: Option<Stored>, ps: seq<Put>, p: Put) {
    (forall o | o in ps :: Absent(key, s, o)) ==> Absent(key, s, p)
  }

  lemma ReadCovers(key: Bytes, pool: set<Bytes>, s: Option<Stored>, r: Race, ps: seq<Put>, p: Put)
    requires AllInForce(key, pool, ps + [p]) && Covers(key, s, r, ps) && StartFor(key, s, ps, p)
    ensures Pool(key, pool, p.env)
    ensures Covers(key, s, Next(key, r, Read(p)), ps + [p])
  {
    assert p in ps + [p];
    assert TableOk(p.env.services);
    NextRead(key, r, p);
    hide *;
    if PutOutcome(p.env, r.entry, key, p.value).None? {
      AcceptedCovers(key, s, r, ps, p);
    } else {
      RefusedCovers(key, pool, s, r, ps, p);
    }
  }

  lemma NextRead(key: Bytes, r: Race, p: Put)
    requires TableOk(p.env.services)
    ensures Next(key, r, Read(p)) ==
            if PutOutcome(p.env, r.entry, key, p.value).None?
            then Race(r.entry, r.next + 1, r.flights[r.next := Flight(p, r.entry)])
            else r.(next := r.next + 1)
  {
    hide PutOutcome;
  }

  lemma AcceptedCovers(key: Bytes, s: Option<Stored>, r: Race, ps: seq<Put>, p: Put)
    requires Covers(key, s, r, ps) && StartFor(key, s, ps, p)
    ensures Covers(key, s, Race(r.entry, r.next + 1, r.flights[r.next := Flight(p, r.entry)]), ps + [p])
  {
    hide CompareVersions, VersionOf;
    var r', ps' := Race(r.entry, r.next + 1, r.flights[r.next := Flight(p, r.entry)]), ps + [p];
    assert r'.flights[r.next].p == p && InFlight(p, r');
    forall o | o in ps && InFlight(o, r)
      ensures InFlight(o, r')
    {
      var id :| id in r.flights && r.flights[id].p == o;
      assert r'.flights[id].p == o;
    }
    if q :| CoveredBy(key, r, ps, q) {
      assert CoveredBy(key, r', ps', q);
    }
  }

  lemma RefusedCovers(key: Bytes, pool: set<Bytes>, s: Option<Stored>, r: Race, ps: seq<Put>, p: Put)
    requires AllInForce(key, pool, ps + [p]) && Covers(key, s, r, ps) && StartFor(key, s, ps, p)
    requires TableOk(p.env.services) && PutOutcome(p.env, r.entry, key, p.value).Some?
    ensures Covers(key, s, r.(next := r.next + 1), ps + [p])
  {
    hide PutOutcome, Pool, TableOk, CompareVersions, VersionOf, Current;
    var r', ps' := r.(next := r.next + 1), ps + [p];
    assert p in ps';
    if r.entry == s && Absent(key, s, p) {
      FirstPut(key, pool, s, p);
      StartIsNot(key, pool, s, p);
    }
    var q :| CoveredBy(key, r, ps, q);
    assert q in ps';
    SameOwnerPut(key, pool, q.value, p);
    assert forall o :: InFlight(o, r') == InFlight(o, r);
    RefusedDiffers(key, pool, q.value, p);
    assert CoveredBy(key, r', ps', q);
  }

  lemma RefusedDiffers(key: Bytes, pool: set<Bytes>, stored: Bytes, p: Put)
    requires Pool(key, pool, p.env) && p.value in pool
    requires PutOutcome(p.env, Some(Wrapped(key, stored)), key, p.value).Some?
    ensures p.value != stored
  {
    hide Validate, Select;
  }

  lemma WriteCovers(key: Bytes, pool: set<Bytes>, s: Option<Stored>, r: Race, ps: seq<Put>, id: nat)
    requires AllInForce(key, pool, ps) && Covers(key, s, r, ps) && Decided(key, r)
    requires id in r.flights && r.flights[id].seen == r.entry
    ensures Covers(key, s, Next(key, r, Write(id)), ps)
  {
    hide PutOutcome, Pool, TableOk, CompareVersions, VersionOf, Current;
    var r', w := Next(key, r, Write(id)), r.flights[id].p;
    assert w in ps;
    InPool(key, pool, w);
    forall p | p in ps
      ensures InFlight(p, r') || CompareVersions(VersionOf(p.value), VersionOf(w.value)) <= 0
    {
      InPool(key, pool, p);
      VersionOrderTotal(VersionOf(w.value), VersionOf(w.value), VersionOf(w.value));
      if InFlight(p, r) {
        var d :| d in r.flights && r.flights[d].p == p;
        if d != id {
          assert d in r'.flights && r'.flights[d].p == p;
        }
      } else {
        var q :| CoveredBy(key, r, ps, q);
        InPool(key, pool, q);
        SameOwnerPut(key, pool, q.value, w);
        VersionOrderTotal(VersionOf(w.value), VersionOf(q.value), VersionOf(q.value));
        VersionOrderTotal(VersionOf(p.value), VersionOf(q.value), VersionOf(w.value));
      }
    }
    assert CoveredBy(key, r', ps, w);
  }

  /** What a run starts from: nothing, for all its puts, or the record of a put that went before. */
  ghost predicate StartsFrom(key: Bytes, pool: set<Bytes>, s: Option<Stored>, before: seq<Put>, es: seq<Event>) {
    if before == [] then forall e | e in es :: e.Read? ==> Absent(key, s, e.p)
    else |before| == 1 && AllInForce(key, pool, before) && s == Some(Wrapped(key, before[0].value))
  }

  lemma {:induction false} RunCovers(key: Bytes, pool: set<Bytes>, s: Option<Stored>, before: seq<Put>, es: seq<Event>)
    requires Happens(key, s, es) && BegunInForce(key, pool, es) && NoneFails(es) && Undisturbed(key, s, es)
    requires StartsFrom(key, pool, s, before, es)
    ensures AllInForce(key, pool, before + Begun(es)) && Covers(key, s, State(key, s, es).value, before + Begun(es))
    decreases |es|
  {
    hide PutOutcome, Pool, TableOk, CompareVersions, VersionOf, Absent, Next, Covers, StartFor;
    BegunReads(es);
    if es == [] {
      CoversStart(key, pool, s, before);
      assert before + [] == before;
    } else {
      var front, e := es[..|es| - 1], es[|es| - 1];
      assert e in es;
      RunCovers(key, pool, s, before, front);
      var r, ps := State(key, s, front).value, before + Begun(front);
      if e.Read? {
        assert before + Begun(es) == ps + [e.p];
        StartsForPut(key, pool, s, before, es, ps, e.p);
        ReadCovers(key, pool, s, r, ps, e.p);
      } else {
        StateDecided(key, s, front);
        WriteCovers(key, pool, s, r, ps, e.id);
        assert Begun(es) == Begun(front);
      }
    }
  }

  lemma StartsForPut(key: Bytes, pool: set<Bytes>, s: Option<Stored>, before: seq<Put>, es: seq<Event>, ps: seq<Put>,
                     p: Put)
    requires StartsFrom(key, pool, s, before, es) && Read(p) in es && before <= ps
    ensures StartFor(key, s, ps, p)
  {
    hide Validate;
    if before != [] {
      assert before[0] in before && before[0] == ps[0] && ps[0] in ps;
      assert !Absent(key, s, before[0]);
    }
  }

  lemma CoversStart(key: Bytes, pool: set<Bytes>, s: Option<Stored>, before: seq<Put>)
    requires StartsFrom(key, pool, s, before, [])
    ensures Covers(key, s, Race(s, 0, map[]), before)
  {
    hide Pool, CompareBytes;
    if before != [] {
      var p := before[0];
      assert p in before;
      InPool(key, pool, p);
      VersionOrderTotal(VersionOf(p.value), VersionOf(p.value), VersionOf(p.value));
      assert CoveredBy(key, Race(s, 0, map[]), before, p);
    }
  }

  /** Undisturbed, a run in which no write fails ends with the greatest record put, or the one it started from. */
  lemma UndisturbedKeepsGreatest(key: Bytes, pool: set<Bytes>, s: Option<Stored>, before: seq<Put>, es: seq<Event>,
                                 g: Bytes)
    requires Happens(key, s, es) && BegunInForce(key, pool, es) && StartsFrom(key, pool, s, before, es)
    requires NoneFails(es) && State(key, s, es).value.flights == map[] && Undisturbed(key, s, es)
    requires IsGreatest(g, before + Begun(es))
    ensures State(key, s, es).value.entry == Some(Wrapped(key, g))
  {
    hide Pool, CompareVersions, VersionOf, Absent, State;
    RunCovers(key, pool, s, before, es);
    var r, ps := State(key, s, es).value, before + Begun(es);
    var p :| p in ps && p.value == g;
    assert !InFlight(p, r);
    var q :| CoveredBy(key, r, ps, q);
    InPool(key, pool, p);
    InPool(key, pool, q);
    VersionOrderTotal(VersionOf(p.value), VersionOf(q.value), VersionOf(q.value));
    SameVersion(p.value, q.value);
  }

  // ----- a lost put

  lemma Then(key: Bytes, s: Option<Stored>, es: seq<Event>, e: Event)
    requires Happens(key, s, es) && Possible(State(key, s, es).value, e)
    requires e.Read? ==> TableOk(e.p.env.services)
    ensures Happens(key, s, es + [e])
    ensures State(key, s, es + [e]) == Some(Next(key, State(key, s, es).value, e))
    ensures Begun(es + [e]) == Begun(es) + if e.Read? then [e.p] else []
  {
    hide Next, TableOk;
    assert (es + [e])[..|es|] == es && e in es + [e];
  }

  /** Two puts of one owner that both read before either writes: the smaller record, written last, stays. */
  lemma LostPut(key: Bytes, pool: set<Bytes>, s: Option<Stored>, less: Put, more: Put)
    requires Pool(key, pool, less.env) && Pool(key, pool, more.env) && less.value in pool && more.value in pool
    requires Current(less.env, s, key).None? && Current(more.env, s, key).None?
    requires CompareVersions(VersionOf(less.value), VersionOf(more.value)) < 0
    ensures var es := [Read(more)] + [Read(less)] + [Write(0)] + [Write(1)];
            && Happens(key, s, es) && State(key, s, es).value.entry == Some(Wrapped(key, less.value))
            && State(key, s, es).value.flights == map[] && IsGreatest(more.value, Begun(es))
            && less.value != more.value
  {
    BothInFlight(key, pool, s, less, more);
    MoreIsGreatest(key, pool, less, more);
    var es := [Read(more)] + [Read(less)];
    var r := Race(s, 2, map[0 := Flight(more, s), 1 := Flight(less, s)]);
    hide Pool, VersionOf, CompareVersions, State, Begun, Current, Next, IsGreatest;
    Writing(key, r, 0);
    Then(key, s, es, Write(0));
    Writing(key, Next(key, r, Write(0)), 1);
    Then(key, s, es + [Write(0)], Write(1));
  }

  lemma Writing(key: Bytes, r: Race, id: nat)
    requires id in r.flights
    ensures Next(key, r, Write(id)) == Race(Some(Wrapped(key, r.flights[id].p.value)), r.next, r.flights - {id})
  {
  }

  lemma BothInFlight(key: Bytes, pool: set<Bytes>, s: Option<Stored>, less: Put, more: Put)
    requires Pool(key, pool, less.env) && Pool(key, pool, more.env) && less.value in pool && more.value in pool
    requires Current(less.env, s, key).None? && Current(more.env, s, key).None?
    ensures var es := [Read(more)] + [Read(less)];
            && Happens(key, s, es) && Begun(es) == [more, less]
            && State(key, s, es) == Some(Race(s, 2, map[0 := Flight(more, s), 1 := Flight(less, s)]))
  {
    OneInFlight(key, pool, s, more);
    assert TableOk(less.env.services);
    var r := Race(s, 1, map[0 := Flight(more, s)]);
    hide Pool, State, TableOk, Next, Begun, Current;
    Reading(key, pool, r, less);
    Then(key, s, [Read(more)], Read(less));
  }

  lemma OneInFlight(key: Bytes, pool: set<Bytes>, s: Option<Stored>, p: Put)
    requires Pool(key, pool, p.env) && p.value in pool && Current(p.env, s, key).None?
    ensures Happens(key, s, [Read(p)]) && Begun([Read(p)]) == [p]
    ensures State(key, s, [Read(p)]) == Some(Race(s, 1, map[0 := Flight(p, s)]))
  {
    Start(key, s);
    assert TableOk(p.env.services);
    var none: seq<Event> := [];
    hide Pool, State, TableOk, Next, Begun, Current, Happens;
    Reading(key, pool, Race(s, 0, map[]), p);
    Then(key, s, none, Read(p));
    assert none + [Read(p)] == [Read(p)];
  }

  lemma Start(key: Bytes, s: Option<Stored>)
    ensures Happens(key, s, []) && State(key, s, []) == Some(Race(s, 0, map[])) && Begun([]) == []
  {
  }

  lemma Reading(key: Bytes, pool: set<Bytes>, r: Race, p: Put)
    requires Pool(key, pool, p.env) && p.value in pool && Current(p.env, r.entry, key).None?
    ensures Next(key, r, Read(p)) == Race(r.entry, r.next + 1, r.flights[r.next := Flight(p, r.entry)])
  {
    hide Validate, Select;
  }

  lemma MoreIsGreatest(key: Bytes, pool: set<Bytes>, less: Put, more: Put)
    requires Pool(key, pool, less.env) && Pool(key, pool, more.env) && less.value in pool && more.value in pool
    requires CompareVersions(VersionOf(less.value), VersionOf(more.value)) < 0
    ensures IsGreatest(more.value, [more, less]) && less.value != more.value
  {
    hide CompareVersions, VersionOf, Pool;
    InPool(key, pool, less);
    InPool(key, pool, more);
    VersionOrderTotal(VersionOf(more.value), VersionOf(more.value), VersionOf(more.value));
    assert more in [more, less];
  }
}
