/** What the Redis bus does when nothing stands in its way: deliveries and sweeps run
    to their end, whatever state they are met in. */
module RedisDeliveries {
  import opened Options
  import opened HandlerCalls
  import opened EventMessages
  import opened RedisStream
  import opened RedisRuns

  // ----- deliveries

  function Ids(queue: seq<Message>): set<Id> {
    set m | m in queue :: m.id
  }

  /** A delivery that has come to its end is acknowledged next, unless one of its
      handlers met the shutdown with its third fault that may pass. */
  lemma EndedIsAcknowledgedNext(s: State, p: Name)
    requires Reachable(s) && Enabled(s, ActEnd(p))
    ensures var phase, after := s.procs[p].phase, Step(s, ActEnd(p)).procs[p].phase;
            && (after.Acking? && after.queue == phase.queue <==>
                  forall i :: 0 <= i < |phase.ends| ==>
                    !(|phase.ends[i].outcomes| == 3 && phase.ends[i].outcomes[2].MayPass? && phase.ends[i].stopping))
            && (!after.Acking? ==> after == Deliver(phase.queue[1..]))
  {
    ReachableHolds(s);
    assert ProcOk(s.broker, p, s.procs[p]);
    var ends := s.procs[p].phase.ends;
    forall i | 0 <= i < |ends|
      ensures Holds(ends[i]) <==> |ends[i].outcomes| == 3 && ends[i].outcomes[2].MayPass? && ends[i].stopping
    {
      ThreeCallsAtMost(ends[i].outcomes);
    }
  }

  lemma ReachableHolds(s: State)
    requires Reachable(s)
    ensures Inv(s)
  {
    var states, actions :| IsRun(states, actions) && states[|actions|] == s;
    RunKeeps(states, actions, |actions|);
  }

  /** Only that process, the pending list and the notes have moved on. */
  ghost predicate OnlyHere(s: State, t: State, p: Name) {
    && p in s.procs && t.procs.Keys == s.procs.Keys
    && (forall q :: q in s.procs && q != p ==> t.procs[q] == s.procs[q])
    && p in t.procs && t.procs[p].handlers == s.procs[p].handlers
    && t.broker.published == s.broker.published && t.broker.stream == s.broker.stream
    && t.broker.texts == s.broker.texts && t.broker.eventName == s.broker.eventName
    && (forall d :: d in s.broker.handled ==> d in t.broker.handled)
  }

  lemma ServeOne(s: State, p: Name) returns (t: State)
    requires Reachable(s) && p in s.procs && s.procs[p].phase.Serving? && s.procs[p].phase.ack
    requires |s.procs[p].phase.ends| < s.procs[p].phase.subscribed
    ensures Reachable(t) && OnlyHere(s, t, p) && t.broker == s.broker
    ensures t.procs[p].phase.Serving? && t.procs[p].phase.ack && t.procs[p].phase.queue == s.procs[p].phase.queue
    ensures t.procs[p].phase.subscribed == s.procs[p].phase.subscribed
    ensures |t.procs[p].phase.ends| == |s.procs[p].phase.ends| + 1
  {
    t := Next(s, ActServe(p, [Fine]));
  }

  /** The handlers still to be called answer one after another. */
  lemma {:induction false} ServeOut(s: State, p: Name) returns (t: State)
    requires Reachable(s) && p in s.procs && s.procs[p].phase.Serving? && s.procs[p].phase.ack
    requires |s.procs[p].phase.ends| <= s.procs[p].phase.subscribed
    ensures Reachable(t) && OnlyHere(s, t, p) && t.broker == s.broker
    ensures t.procs[p].phase.Serving? && t.procs[p].phase.ack && t.procs[p].phase.queue == s.procs[p].phase.queue
    ensures t.procs[p].phase.subscribed == s.procs[p].phase.subscribed == |t.procs[p].phase.ends|
    decreases s.procs[p].phase.subscribed - |s.procs[p].phase.ends|
  {
    if |s.procs[p].phase.ends| == s.procs[p].phase.subscribed {
      t := s;
    } else {
      var u := ServeOne(s, p);
      t := ServeOut(u, p);
      AndThen(s, u, t, p);
    }
  }

  lemma TakeUp(s: State, p: Name) returns (t: State)
    requires Reachable(s) && p in s.procs && s.procs[p].phase.Delivering? && s.procs[p].phase.queue != []
    ensures var queue := s.procs[p].phase.queue;
            && Reachable(t) && OnlyHere(s, t, p) && t.broker == s.broker
            && t.procs[p].phase ==
                 if Readable(s.broker, queue[0]) then Serving(queue, s.procs[p].handlers, [], true) else Acking(queue)
  {
    t := Next(s, ActBegin(p));
  }

  lemma EndServing(s: State, p: Name) returns (t: State)
    requires Reachable(s) && p in s.procs && s.procs[p].phase.Serving? && s.procs[p].phase.ack
    requires |s.procs[p].phase.ends| == s.procs[p].phase.subscribed && s.procs[p].phase.queue != []
    ensures var phase := s.procs[p].phase;
            && Reachable(t) && OnlyHere(s, t, p) && t.procs[p].phase == Acking(phase.queue)
            && t.broker.pending == s.broker.pending && Dispatch(phase.queue[0].id, phase.ends) in t.broker.handled
  {
    t := Next(s, ActEnd(p));
  }

  lemma AckFirst(s: State, p: Name) returns (t: State)
    requires Reachable(s) && p in s.procs && s.procs[p].phase.Acking? && s.procs[p].phase.queue != []
    ensures var queue := s.procs[p].phase.queue;
            && Reachable(t) && OnlyHere(s, t, p) && t.procs[p].phase == Deliver(queue[1..])
            && t.broker == s.broker.(pending := s.broker.pending - {queue[0].id})
  {
    t := Next(s, ActAck(p, true));
  }

  lemma AndThen(s: State, t: State, u: State, p: Name)
    requires OnlyHere(s, t, p) && OnlyHere(t, u, p)
    ensures OnlyHere(s, u, p)
  {
  }

  /** The message in hand is acknowledged, after every handler was called if it can be
      read. */
  lemma FirstIsSettled(s: State, p: Name) returns (t: State)
    requires Inv(s) && Reachable(s) && p in s.procs && s.procs[p].phase.Delivering? && s.procs[p].phase.queue != []
    ensures var queue := s.procs[p].phase.queue;
            && Reachable(t) && OnlyHere(s, t, p) && t.procs[p].phase == Deliver(queue[1..])
            && t.broker.pending == s.broker.pending - {queue[0].id}
            && (Readable(s.broker, queue[0]) ==> ReachedAll(t, queue[0].id, s.procs[p].handlers))
  {
    var queue := s.procs[p].phase.queue;
    var u := TakeUp(s, p);
    if Readable(s.broker, queue[0]) {
      var v := ServeOut(u, p);
      var d := Dispatch(queue[0].id, v.procs[p].phase.ends);
      AndThen(s, u, v, p);
      var w := EndServing(v, p);
      AndThen(s, v, w, p);
      t := AckFirst(w, p);
      AndThen(s, w, t, p);
      assert d in t.broker.handled;
    } else {
      t := AckFirst(u, p);
      AndThen(s, u, t, p);
    }
  }

  ghost predicate ReachedAll(t: State, id: Id, handlers: nat) {
    exists d :: d in t.broker.handled && d.id == id && |d.ends| == handlers
  }

  ghost predicate AllReached(t: State, b: Broker, queue: seq<Message>, handlers: nat) {
    forall m :: m in queue && Readable(b, m) ==> ReachedAll(t, m.id, handlers)
  }

  /** Wherever a delivery is met, its process can finish it alone: every message that can
      be read reaches every handler, and none of them stays pending. */
  lemma {:induction false} DeliveryFinishes(s: State, p: Name) returns (t: State)
    requires Reachable(s) && p in s.procs && s.procs[p].phase.Delivering?
    ensures var queue := s.procs[p].phase.queue;
            && Reachable(t) && OnlyHere(s, t, p) && t.procs[p].phase == Looping
            && t.broker.pending == s.broker.pending - Ids(queue)
            && AllReached(t, s.broker, queue, s.procs[p].handlers)
    decreases |s.procs[p].phase.queue|
  {
    QueueIsThere(s, p);
    var queue := s.procs[p].phase.queue;
    var u := FirstIsSettled(s, p);
    if queue[1..] == [] {
      t := u;
    } else {
      t := DeliveryFinishes(u, p);
      AndThen(s, u, t, p);
    }
    OneByOne(s.broker.pending, queue);
    RestReached(s, u, t, p, queue);
  }

  lemma QueueIsThere(s: State, p: Name)
    requires Reachable(s) && p in s.procs && s.procs[p].phase.Delivering?
    ensures Inv(s) && s.procs[p].phase.queue != []
  {
    ReachableHolds(s);
    assert ProcOk(s.broker, p, s.procs[p]);
  }

  lemma OneByOne(pending: map<Id, Owned>, queue: seq<Message>)
    requires queue != []
    ensures pending - {queue[0].id} - Ids(queue[1..]) == pending - Ids(queue)
    ensures queue[1..] == [] ==> pending - {queue[0].id} == pending - Ids(queue)
  {
    assert queue == [queue[0]] + queue[1..];
    assert Ids(queue) == {queue[0].id} + Ids(queue[1..]);
  }

  lemma RestReached(s: State, u: State, t: State, p: Name, queue: seq<Message>)
    requires queue != [] && OnlyHere(s, u, p) && OnlyHere(u, t, p)
    requires Readable(s.broker, queue[0]) ==> ReachedAll(u, queue[0].id, s.procs[p].handlers)
    requires queue[1..] != [] ==> AllReached(t, u.broker, queue[1..], s.procs[p].handlers)
    ensures AllReached(t, s.broker, queue, s.procs[p].handlers)
  {
    forall m | m in queue && Readable(s.broker, m) ensures ReachedAll(t, m.id, s.procs[p].handlers) {
      if m == queue[0] {
        var d :| d in u.broker.handled && d.id == m.id && |d.ends| == s.procs[p].handlers;
        assert d in t.broker.handled;
      } else {
        assert m in queue[1..] && Readable(u.broker, m);
      }
    }
  }

  // ----- reading

  /** An answer that arrives is taken up whole: every entry in its order, with the fields
      it was published with unless the stream has lost it. */
  lemma ReadIsTakenUp(s: State, p: Name, batch: seq<Id>)
    requires Reachable(s) && Enabled(s, ActReadNew(p, batch, true)) && batch != []
    ensures var t := Step(s, ActReadNew(p, batch, true));
            && t.procs[p].phase.Delivering? && |t.procs[p].phase.queue| == |batch|
            && forall i :: 0 <= i < |batch| ==>
                 var m := t.procs[p].phase.queue[i];
                 && m.id == batch[i] && t.broker.pending[batch[i]] == Owned(p, 1, s.broker.clock)
                 && MessageOk(s.broker, m) && (m.fields.Some? <==> batch[i] in s.broker.stream)
  {
    ReachableHolds(s);
  }

  // ----- sweeps

  /** The ids a sweep over these lines asks for: others' entries, delivered less than
      three times. */
  function Asked(p: Name, rest: seq<Candidate>): seq<Id> {
    if rest == [] then []
    else (if rest[0].owner != p && rest[0].deliveries < 3 then [rest[0].id] else []) + Asked(p, rest[1..])
  }

  predicate GivenUp(p: Name, c: Candidate) {
    c.owner != p && c.deliveries >= 3
  }

  /** The lines are as the server would give them now, each entry once and none asked for
      already. */
  ghost predicate Fresh(b: Broker, rest: seq<Candidate>, ids: seq<Id>) {
    && (forall c :: c in rest ==> Answers(b, c) && c.id in b.published)
    && (forall i, j :: 0 <= i < j < |rest| ==> rest[i].id != rest[j].id)
    && (forall c :: c in rest ==> c.id !in ids)
    && (forall id :: id in ids ==> Idle(b, id))
  }

  /** A sweep has kept the entry: a letter made of it is written and it is acknowledged. */
  ghost predicate IsKept(b: Broker, id: Id) {
    id in b.published && id !in b.pending && (id in b.stream ==> HasLetter(b, id))
  }

  /** Nothing a sweep goes by has changed, but that one entry has left the list. */
  ghost predicate Shorter(b: Broker, t: Broker, gone: set<Id>) {
    && t == b.(pending := t.pending, letters := t.letters) && b.letters <= t.letters
    && t.pending == b.pending - gone
  }

  /** Of the processes only this one has moved, to that phase. */
  ghost predicate MovedTo(s: State, t: State, p: Name, phase: Phase) {
    p in s.procs && t.procs == s.procs[p := s.procs[p].(phase := phase)]
  }

  lemma MovedOn(s: State, t: State, u: State, p: Name, x: Phase, y: Phase)
    requires MovedTo(s, t, p, x) && MovedTo(t, u, p, y)
    ensures MovedTo(s, u, p, y)
  {
  }

  lemma Look(s: State, p: Name) returns (t: State)
    requires Inv(s) && Reachable(s) && p in s.procs && Looks(s.procs[p]) && GivenUp(p, s.procs[p].phase.rest[0])
    ensures var phase, c := s.procs[p].phase, s.procs[p].phase.rest[0];
            && c.id in s.broker.published && Reachable(t) && t.broker == s.broker
            && MovedTo(s, t, p,
                 if c.id in s.broker.stream then Copying(phase.at, phase.rest, phase.ids, s.broker.published[c.id])
                 else Settling(phase.at, phase.rest, phase.ids))
  {
    assert ProcOk(s.broker, p, s.procs[p]) && s.procs[p].phase.rest[0] in s.procs[p].phase.rest;
    t := Next(s, ActRange(p, true));
  }

  lemma Copy(s: State, p: Name) returns (t: State)
    requires Reachable(s) && p in s.procs && s.procs[p].phase.Copying? && s.procs[p].phase.rest != []
    ensures var phase := s.procs[p].phase;
            && Reachable(t) && t.broker == Keep(s.broker, Written(s.broker, phase, ""))
            && MovedTo(s, t, p, Settling(phase.at, phase.rest, phase.ids))
  {
    t := Next(s, ActCopy(p, "", true, true));
  }

  lemma Settle(s: State, p: Name) returns (t: State)
    requires Reachable(s) && p in s.procs && s.procs[p].phase.Settling? && s.procs[p].phase.rest != []
    ensures var phase := s.procs[p].phase;
            && Reachable(t) && t.broker == Acknowledge(s.broker, phase.rest[0].id)
            && MovedTo(s, t, p, Sweeping(phase.at, phase.rest[1..], phase.ids))
  {
    t := Next(s, ActAck(p, true));
  }

  lemma KeepOld(s: State, p: Name) returns (t: State)
    requires Inv(s) && Reachable(s) && p in s.procs && Looks(s.procs[p]) && GivenUp(p, s.procs[p].phase.rest[0])
    ensures var phase, c := s.procs[p].phase, s.procs[p].phase.rest[0];
            && Reachable(t) && MovedTo(s, t, p, Sweeping(phase.at, phase.rest[1..], phase.ids))
            && Shorter(s.broker, t.broker, {c.id}) && IsKept(t.broker, c.id)
  {
    var phase, c := s.procs[p].phase, s.procs[p].phase.rest[0];
    var u := Look(s, p);
    if c.id in s.broker.stream {
      t := CopyThenSettle(u, p, c);
      MovedOn(s, u, t, p, Copying(phase.at, phase.rest, phase.ids, s.broker.published[c.id]),
              Sweeping(phase.at, phase.rest[1..], phase.ids));
    } else {
      t := Settle(u, p);
      MovedOn(s, u, t, p, Settling(phase.at, phase.rest, phase.ids), Sweeping(phase.at, phase.rest[1..], phase.ids));
    }
  }

  lemma CopyThenSettle(s: State, p: Name, c: Candidate) returns (t: State)
    requires Reachable(s) && p in s.procs && s.procs[p].phase.Copying? && s.procs[p].phase.rest != []
    requires c == s.procs[p].phase.rest[0] && c.deliveries >= 3 && c.id in s.broker.published
    requires s.procs[p].phase.fields == s.broker.published[c.id]
    ensures var phase := s.procs[p].phase;
            && Reachable(t) && MovedTo(s, t, p, Sweeping(phase.at, phase.rest[1..], phase.ids))
            && Shorter(s.broker, t.broker, {c.id}) && IsKept(t.broker, c.id)
  {
    var phase := s.procs[p].phase;
    var u := Copy(s, p);
    t := Settle(u, p);
    MovedOn(s, u, t, p, Settling(phase.at, phase.rest, phase.ids), Sweeping(phase.at, phase.rest[1..], phase.ids));
    LetterKeeps(s.broker, t.broker, c, Written(s.broker, phase, ""));
  }

  lemma LetterKeeps(b: Broker, t: Broker, c: Candidate, l: Letter)
    requires c.id in b.published && c.deliveries >= 3 && l == LetterOf(b.name, c.id, c.owner, c.deliveries, "", b.published[c.id])
    requires t == Acknowledge(Keep(b, l), c.id)
    ensures Shorter(b, t, {c.id}) && IsKept(t, c.id)
  {
    assert l in t.letters && MadeFrom(l, t.name, c.id, t.published[c.id]);
  }

  lemma PassOn(s: State, p: Name) returns (t: State)
    requires Reachable(s) && p in s.procs && Looks(s.procs[p]) && !GivenUp(p, s.procs[p].phase.rest[0])
    ensures var phase, c := s.procs[p].phase, s.procs[p].phase.rest[0];
            && Reachable(t) && t.broker == s.broker
            && MovedTo(s, t, p, Sweeping(phase.at, phase.rest[1..], phase.ids + (if c.owner != p then [c.id] else [])))
  {
    if s.procs[p].phase.rest[0].owner == p {
      t := Next(s, ActSkip(p));
      assert s.procs[p].phase.ids + [] == s.procs[p].phase.ids;
    } else {
      t := Next(s, ActChoose(p));
    }
  }

  lemma FreshRest(b: Broker, t: Broker, all: seq<Candidate>, ids: seq<Id>, gone: set<Id>, more: seq<Id>)
    requires all != [] && Fresh(b, all, ids) && Shorter(b, t, gone) && gone <= {all[0].id}
    requires more == ids || (more == ids + [all[0].id] && gone == {})
    ensures Fresh(t, all[1..], more)
  {
    var rest := all[1..];
    forall x | x in rest ensures x.id != all[0].id && x in all {
      var i :| 0 <= i < |rest| && rest[i] == x;
      assert all[i + 1] == x;
    }
    forall i, j | 0 <= i < j < |rest| ensures rest[i].id != rest[j].id {
      assert rest[i] == all[i + 1] && rest[j] == all[j + 1];
    }
    forall x | x in rest ensures Answers(t, x) && x.id in t.published && x.id !in more {
      assert Answers(b, x);
    }
    forall id | id in more ensures Idle(t, id) {
      assert id in ids || id == all[0].id;
      assert all[0] in all && Answers(b, all[0]);
      assert id in ids ==> Idle(b, id);
    }
  }

  /** What a finished sweep has done about one line. */
  ghost predicate DealtWith(b: Broker, t: Broker, p: Name, c: Candidate) {
    if c.owner == p then Stayed(b, t, c.id)
    else if c.deliveries >= 3 then IsKept(t, c.id)
    else TakenOver(b, t, p, c.id)
  }

  ghost predicate Stayed(b: Broker, t: Broker, id: Id) {
    id in b.pending && id in t.pending && t.pending[id] == b.pending[id]
  }

  ghost predicate TakenOver(b: Broker, t: Broker, p: Name, id: Id) {
    id in b.pending && id in t.pending && t.pending[id] == Owned(p, b.pending[id].deliveries + 1, b.clock)
  }

  predicate Listed(rest: seq<Candidate>, id: Id) {
    exists c :: c in rest && c.id == id
  }

  ghost predicate StayedElsewhere(b: Broker, t: Broker, rest: seq<Candidate>, ids: seq<Id>) {
    forall id :: id in b.pending && id !in ids && !Listed(rest, id) ==> Stayed(b, t, id)
  }

  /** The end of a sweep that met these lines and had asked for those ids. */
  ghost predicate Done(b: Broker, t: State, p: Name, rest: seq<Candidate>, ids: seq<Id>) {
    && p in t.procs && t.procs[p].phase == Deliver(Messages(b, ids + Asked(p, rest)))
    && DealtWithAll(b, t.broker, p, rest, ids)
  }

  ghost predicate DealtWithAll(b: Broker, t: Broker, p: Name, rest: seq<Candidate>, ids: seq<Id>) {
    && (forall c :: c in rest ==> DealtWith(b, t, p, c))
    && (forall id :: id in ids ==> TakenOver(b, t, p, id))
    && StayedElsewhere(b, t, rest, ids)
    && (forall id :: IsKept(b, id) ==> IsKept(t, id))
    && t.stream == b.stream && t.published == b.published
  }

  /** A sweep, run to its end within its budget: every line of another's entry is either
      kept as a dead letter and acknowledged, or asked for, and all that is asked for is
      taken over and delivered; all other entries stay as they were. */
  lemma {:induction false} SweepFinishes(s: State, p: Name) returns (t: State)
    requires Reachable(s) && p in s.procs && s.procs[p].phase.Sweeping?
    requires Fresh(s.broker, s.procs[p].phase.rest, s.procs[p].phase.ids)
    requires s.broker.clock <= s.procs[p].phase.at + CONTROL_TIMEOUT
    ensures Reachable(t) && Done(s.broker, t, p, s.procs[p].phase.rest, s.procs[p].phase.ids)
    decreases |s.procs[p].phase.rest|
  {
    var phase := s.procs[p].phase;
    if phase.rest == [] {
      t := ClaimAll(s, p);
      ClaimIsDone(s.broker, t, p, phase.ids);
    } else if GivenUp(p, phase.rest[0]) {
      ReachableHolds(s);
      var u := KeepOld(s, p);
      FreshRest(s.broker, u.broker, phase.rest, phase.ids, {phase.rest[0].id}, phase.ids);
      t := SweepFinishes(u, p);
      KeptThenDone(s.broker, u.broker, t, p, phase.rest, phase.ids);
    } else {
      var u := PassOn(s, p);
      FreshRest(s.broker, u.broker, phase.rest, phase.ids, {}, u.procs[p].phase.ids);
      t := SweepFinishes(u, p);
      PassedThenDone(s.broker, t, p, phase.rest, phase.ids, u.procs[p].phase.ids);
    }
  }

  lemma ClaimIsDone(b: Broker, t: State, p: Name, ids: seq<Id>)
    requires Claimed(b, t, p, ids)
    ensures Done(b, t, p, [], ids)
  {
    assert ids + [] == ids;
  }

  lemma Others(all: seq<Candidate>)
    requires all != [] && forall i, j :: 0 <= i < j < |all| ==> all[i].id != all[j].id
    ensures forall c :: c in all <==> c == all[0] || c in all[1..]
    ensures forall c :: c in all[1..] ==> c.id != all[0].id
  {
    assert all == [all[0]] + all[1..];
  }

  lemma KeptThenDone(b: Broker, u: Broker, t: State, p: Name, all: seq<Candidate>, ids: seq<Id>)
    requires all != [] && Fresh(b, all, ids) && GivenUp(p, all[0])
    requires Shorter(b, u, {all[0].id}) && IsKept(u, all[0].id) && Done(u, t, p, all[1..], ids)
    ensures Done(b, t, p, all, ids)
  {
    assert Asked(p, all) == Asked(p, all[1..]);
    assert Messages(u, ids + Asked(p, all)) == Messages(b, ids + Asked(p, all));
    KeptDealt(b, u, t.broker, p, all, ids);
  }

  lemma KeptDealt(b: Broker, u: Broker, t: Broker, p: Name, all: seq<Candidate>, ids: seq<Id>)
    requires all != [] && Fresh(b, all, ids) && GivenUp(p, all[0])
    requires Shorter(b, u, {all[0].id}) && IsKept(u, all[0].id) && DealtWithAll(u, t, p, all[1..], ids)
    ensures DealtWithAll(b, t, p, all, ids)
  {
    Others(all);
    forall c | c in all ensures DealtWith(b, t, p, c) {
      if c != all[0] {
        assert DealtWith(u, t, p, c);
      }
    }
    forall id | IsKept(b, id) ensures IsKept(t, id) {
      KeptStays(b, u, id);
    }
    forall id | id in b.pending && id !in ids && !Listed(all, id) ensures Stayed(b, t, id) {
      assert all[0] in all && id in u.pending && !Listed(all[1..], id);
      assert Stayed(u, t, id);
    }
    forall id | id in ids ensures TakenOver(b, t, p, id) {
      assert TakenOver(u, t, p, id);
    }
  }

  lemma KeptStays(b: Broker, u: Broker, id: Id)
    requires IsKept(b, id) && b.letters <= u.letters && u.pending.Keys <= b.pending.Keys
    requires u.published == b.published && u.stream == b.stream && u.name == b.name
    ensures IsKept(u, id)
  {
    if id in b.stream {
      var l :| l in b.letters && MadeFrom(l, b.name, id, b.published[id]);
      assert l in u.letters;
    }
  }

  lemma PassedThenDone(b: Broker, t: State, p: Name, all: seq<Candidate>, ids: seq<Id>, more: seq<Id>)
    requires all != [] && Fresh(b, all, ids) && !GivenUp(p, all[0])
    requires more == ids + (if all[0].owner != p then [all[0].id] else []) && Done(b, t, p, all[1..], more)
    ensures Done(b, t, p, all, ids)
  {
    AskedNext(p, all, ids, more);
    PassedAll(b, t.broker, p, all, ids, more);
  }

  lemma AskedNext(p: Name, all: seq<Candidate>, ids: seq<Id>, more: seq<Id>)
    requires all != [] && !GivenUp(p, all[0]) && more == ids + (if all[0].owner != p then [all[0].id] else [])
    ensures more + Asked(p, all[1..]) == ids + Asked(p, all)
  {
  }

  lemma PassedAll(b: Broker, t: Broker, p: Name, all: seq<Candidate>, ids: seq<Id>, more: seq<Id>)
    requires all != [] && Fresh(b, all, ids) && !GivenUp(p, all[0])
    requires more == ids + (if all[0].owner != p then [all[0].id] else []) && DealtWithAll(b, t, p, all[1..], more)
    ensures DealtWithAll(b, t, p, all, ids)
  {
    assert forall id :: id in ids ==> id in more;
    PassedDealt(b, t, p, all, ids, more);
    PassedStay(b, t, all, ids, more);
  }

  lemma PassedDealt(b: Broker, t: Broker, p: Name, all: seq<Candidate>, ids: seq<Id>, more: seq<Id>)
    requires all != [] && Fresh(b, all, ids) && !GivenUp(p, all[0])
    requires more == ids + (if all[0].owner != p then [all[0].id] else [])
    requires forall c :: c in all[1..] ==> DealtWith(b, t, p, c)
    requires forall id :: id in more ==> TakenOver(b, t, p, id)
    requires StayedElsewhere(b, t, all[1..], more)
    ensures forall c :: c in all ==> DealtWith(b, t, p, c)
  {
    Others(all);
    assert all[0] in all && Answers(b, all[0]);
    if all[0].owner != p {
      assert all[0].id in more;
    }
  }

  lemma PassedStay(b: Broker, t: Broker, all: seq<Candidate>, ids: seq<Id>, more: seq<Id>)
    requires all != [] && (more == ids || more == ids + [all[0].id])
    requires StayedElsewhere(b, t, all[1..], more)
    ensures StayedElsewhere(b, t, all, ids)
  {
    forall id | id in b.pending && id !in ids && !Listed(all, id) ensures Stayed(b, t, id) {
      assert all[0] in all && id !in more;
      assert !Listed(all[1..], id);
    }
  }

  ghost predicate Claimed(b: Broker, t: State, p: Name, ids: seq<Id>) {
    && p in t.procs && t.procs[p].phase == Deliver(Messages(b, ids))
    && (forall id :: id in ids ==> TakenOver(b, t.broker, p, id))
    && (forall id :: id in b.pending && id !in ids ==> Stayed(b, t.broker, id))
    && t.broker.pending.Keys == b.pending.Keys
    && t.broker == b.(pending := t.broker.pending, taken := t.broker.taken)
  }

  lemma ClaimAll(s: State, p: Name) returns (t: State)
    requires Reachable(s) && p in s.procs && s.procs[p].phase.Sweeping? && s.procs[p].phase.rest == []
    requires forall id :: id in s.procs[p].phase.ids ==> Idle(s.broker, id)
    requires s.broker.clock <= s.procs[p].phase.at + CONTROL_TIMEOUT
    ensures Reachable(t) && Claimed(s.broker, t, p, s.procs[p].phase.ids)
  {
    var ids := s.procs[p].phase.ids;
    assert forall id :: id in ids <==> Wins(s.broker, ids, true, id);
    t := Next(s, ActClaim(p, true, true, ids, true));
  }
}
