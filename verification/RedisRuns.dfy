/** Whole runs of the Redis bus on one stream: processes that read, sweep, deliver,
    crash, restart and shut down, one Redis command per step. */
module RedisRuns {
  import opened Options
  import opened HandlerCalls
  import opened EventMessages
  import opened RedisStream

  /** A delivered message; None where the stream no longer had its fields. */
  datatype Message = Message(id: Id, fields: Option<Fields>)

  /** One line of the XPENDING answer. */
  datatype Candidate = Candidate(id: Id, owner: Name, deliveries: nat)

  /** Where a consumer loop stands. A sweep looks at `rest[0]` next and will ask for
      `ids`; a delivery has `queue[0]` in hand. */
  datatype Phase =
    | Looping
    | Sweeping(at: nat, rest: seq<Candidate>, ids: seq<Id>)
    | Copying(at: nat, rest: seq<Candidate>, ids: seq<Id>, fields: Fields)
    | Settling(at: nat, rest: seq<Candidate>, ids: seq<Id>)
    | Delivering(queue: seq<Message>)
    | Serving(queue: seq<Message>, subscribed: nat, ends: seq<Served>, ack: bool)
    | Acking(queue: seq<Message>)

  /** `cursor` is the pending list's paging position, None once only new messages are read. */
  datatype Proc = Proc(handlers: nat, stopping: bool, cursor: Option<Id>, phase: Phase)

  datatype State = State(broker: Broker, procs: map<Name, Proc>)

  /** `done` says whether the server executed the command, `seen` whether its answer
      arrived: a failed command may be either. */
  datatype Action =
    | ActPublish(fields: Fields, floor: nat)
    | ActTick(d: nat)
    | ActStart(p: Name)
    | ActSubscribe(p: Name)
    | ActStop(p: Name)
    | ActCrash(p: Name)
    | ActReadNew(p: Name, batch: seq<Id>, seen: bool)
    | ActReadOwn(p: Name, batch: seq<Id>, seen: bool)
    | ActSweep(p: Name, answer: seq<Candidate>)
    | ActSkip(p: Name)
    | ActChoose(p: Name)
    | ActRange(p: Name, seen: bool)
    | ActCopy(p: Name, droppedAt: string, done: bool, seen: bool)
    | ActClaim(p: Name, done: bool, tombstones: bool, won: seq<Id>, seen: bool)
    | ActBegin(p: Name)
    | ActServe(p: Name, outcomes: seq<Outcome>)
    | ActEnd(p: Name)
    | ActAck(p: Name, done: bool)

  function Start(texts: Texts, prefix: string, eventName: string, minIdle: nat): State {
    State(Empty(texts, prefix, eventName, minIdle), map[])
  }

  predicate Answers(b: Broker, c: Candidate) {
    Idle(b, c.id) && c.owner == b.pending[c.id].owner && c.deliveries == b.pending[c.id].deliveries
  }

  ghost predicate OwnBatch(b: Broker, p: Name, cursor: Id, batch: seq<Id>) {
    && (forall i, j :: 0 <= i < j < |batch| ==> batch[i] < batch[j])
    && (forall id :: id in batch ==> id in b.pending && b.pending[id].owner == p && id > cursor)
    && (forall id :: id in b.pending && b.pending[id].owner == p && id > cursor ==>
          id in batch || (batch != [] && id > Ends(batch, cursor)))
  }

  ghost predicate Enabled(s: State, a: Action) {
    match a
    case ActPublish(fields, floor) => fields != map[] && floor <= s.broker.top + 1
    case ActTick(_) => true
    case ActStart(p) => p !in s.procs
    case _ => a.p in s.procs && MayAct(s.broker, s.procs[a.p], a)
  }

  ghost predicate MayAct(b: Broker, c: Proc, a: Action)
    requires !a.ActPublish? && !a.ActTick? && !a.ActStart?
  {
    match a
    case ActSubscribe(_) => !c.stopping
    case ActStop(_) => true
    case ActCrash(_) => true
    case ActReadNew(_, batch, _) => c.phase.Looping? && c.cursor.None? && NextBatch(b, batch)
    case ActReadOwn(p, batch, _) => c.phase.Looping? && c.cursor.Some? && OwnBatch(b, p, c.cursor.value, batch)
    case ActSweep(_, answer) => c.phase.Looping? && forall x :: x in answer ==> Answers(b, x)
    case ActSkip(p) => Looks(c) && c.phase.rest[0].owner == p
    case ActChoose(p) => Looks(c) && c.phase.rest[0].owner != p && c.phase.rest[0].deliveries < MAX_DELIVERIES
    case ActRange(p, _) => Looks(c) && c.phase.rest[0].owner != p && c.phase.rest[0].deliveries >= MAX_DELIVERIES
    case ActCopy(_, _, done, seen) => c.phase.Copying? && c.phase.rest != [] && (seen ==> done)
    // The sweep's context has ended once its budget is spent.
    case ActClaim(_, done, tombstones, won, seen) =>
      && c.phase.Sweeping? && c.phase.rest == [] && (seen ==> done)
      && (done ==> b.clock <= c.phase.at + CONTROL_TIMEOUT)
      && (forall id :: id in won <==> Wins(b, c.phase.ids, tombstones, id))
    case ActBegin(_) => c.phase.Delivering? && c.phase.queue != []
    case ActServe(_, outcomes) => c.phase.Serving? && |c.phase.ends| < c.phase.subscribed && Complete(outcomes)
    case ActEnd(_) => c.phase.Serving? && |c.phase.ends| == c.phase.subscribed && c.phase.queue != []
    case ActAck(_, _) =>
      (c.phase.Acking? && c.phase.queue != []) || (c.phase.Settling? && c.phase.rest != [])
  }

  predicate Looks(c: Proc) {
    c.phase.Sweeping? && c.phase.rest != []
  }

  function Deliver(queue: seq<Message>): Phase {
    if queue == [] then Looping else Delivering(queue)
  }

  /** The messages an answer carries: entries the stream lost come without fields. */
  function Messages(b: Broker, ids: seq<Id>): seq<Message> {
    seq(|ids|, i requires 0 <= i < |ids| => Message(ids[i],
      if ids[i] in b.stream && ids[i] in b.published then Some(b.published[ids[i]]) else None))
  }

  ghost function Step(s: State, a: Action): State
    requires Enabled(s, a)
  {
    match a
    case ActPublish(fields, floor) => s.(broker := Add(s.broker, fields, floor))
    case ActTick(d) => s.(broker := Tick(s.broker, d))
    case ActStart(p) => s.(procs := s.procs[p := Proc(1, false, Some(0), Looping)])
    case ActCrash(p) => s.(procs := s.procs - {p})
    case _ => State(Command(s.broker, s.procs[a.p], a), s.procs[a.p := Moved(s.broker, s.procs[a.p], a)])
  }

  predicate Steps(a: Action) {
    !a.ActPublish? && !a.ActTick? && !a.ActStart? && !a.ActCrash?
  }

  /** What the server does. */
  function Command(b: Broker, c: Proc, a: Action): Broker
    requires Steps(a) && MayAct(b, c, a)
  {
    match a
    case ActReadNew(p, batch, _) => ReadNew(b, p, batch)
    case ActReadOwn(_, batch, _) => ReadOwn(b, batch)
    case ActCopy(_, droppedAt, done, _) =>
      if done then Keep(b, Written(b, c.phase, droppedAt)) else b
    case ActClaim(p, done, tombstones, _, _) => if done then Claim(b, p, c.phase.ids, tombstones) else b
    case ActEnd(_) =>
      if c.phase.ack then Note(b, Dispatch(c.phase.queue[0].id, c.phase.ends)) else b
    case ActAck(_, done) => if done then Acknowledge(b, Current(c.phase)) else b
    case _ => b
  }

  function Written(b: Broker, phase: Phase, droppedAt: string): Letter
    requires phase.Copying? && phase.rest != []
  {
    var head := phase.rest[0];
    LetterOf(b.name, head.id, head.owner, head.deliveries, droppedAt, phase.fields)
  }

  /** The entry an acknowledgement is about. */
  function Current(phase: Phase): Id
    requires (phase.Acking? && phase.queue != []) || (phase.Settling? && phase.rest != [])
  {
    if phase.Acking? then phase.queue[0].id else phase.rest[0].id
  }

  /** Where the process stands afterwards. */
  function Moved(b: Broker, c: Proc, a: Action): Proc
    requires Steps(a) && MayAct(b, c, a)
  {
    match a
    case ActSubscribe(_) => c.(handlers := c.handlers + 1)
    case ActStop(_) => c.(stopping := true)
    case ActReadNew(_, batch, seen) => if seen then c.(phase := Deliver(Messages(b, batch))) else c
    case ActReadOwn(_, batch, seen) =>
      if !seen then c
      else if batch == [] then c.(cursor := None)
      else c.(cursor := Some(batch[|batch| - 1]), phase := Deliver(Messages(b, batch)))
    case ActSweep(_, answer) => c.(phase := Sweeping(b.clock, answer, []))
    case ActSkip(_) => c.(phase := Sweeping(c.phase.at, c.phase.rest[1..], c.phase.ids))
    case ActChoose(_) => c.(phase := Sweeping(c.phase.at, c.phase.rest[1..], c.phase.ids + [c.phase.rest[0].id]))
    case ActRange(_, seen) => c.(phase := Ranged(b, c.phase, seen))
    case ActCopy(_, _, _, seen) =>
      c.(phase := if seen then Settling(c.phase.at, c.phase.rest, c.phase.ids)
                  else Sweeping(c.phase.at, c.phase.rest[1..], c.phase.ids))
    case ActClaim(_, _, _, won, seen) => c.(phase := if seen then Deliver(Messages(b, won)) else Looping)
    case ActBegin(_) => c.(phase := Begun(b, c))
    case ActServe(_, outcomes) =>
      var e := Served(outcomes, c.stopping);
      c.(phase := c.phase.(ends := c.phase.ends + [e], ack := c.phase.ack && !Holds(e)))
    case ActEnd(_) => c.(phase := if c.phase.ack then Acking(c.phase.queue) else Deliver(c.phase.queue[1..]))
    case ActAck(_, _) =>
      c.(phase := if c.phase.Acking? then Deliver(c.phase.queue[1..])
                  else Sweeping(c.phase.at, c.phase.rest[1..], c.phase.ids))
  }

  /** XRANGE: an entry the stream lost has nothing to keep and may be acknowledged. */
  function Ranged(b: Broker, phase: Phase, seen: bool): Phase
    requires phase.Sweeping? && phase.rest != []
  {
    var id := phase.rest[0].id;
    if !seen then Sweeping(phase.at, phase.rest[1..], phase.ids)
    else if id in b.stream && id in b.published then Copying(phase.at, phase.rest, phase.ids, b.published[id])
    else Settling(phase.at, phase.rest, phase.ids)
  }

  /** A message that does not decode is acknowledged; the others go to the handlers
      subscribed at this moment. */
  function Begun(b: Broker, c: Proc): Phase
    requires c.phase.Delivering? && c.phase.queue != []
  {
    var m := c.phase.queue[0];
    if m.fields.None? || !Decodes(b, m.fields.value) then Acking(c.phase.queue)
    else Serving(c.phase.queue, c.handlers, [], true)
  }

  ghost predicate IsRun(states: seq<State>, actions: seq<Action>) {
    && |states| == |actions| + 1
    && (exists texts, prefix, eventName, minIdle :: states[0] == Start(texts, prefix, eventName, minIdle))
    && forall i :: 0 <= i < |actions| ==>
         Enabled(states[i], actions[i]) && states[i + 1] == Step(states[i], actions[i])
  }

  // ----- what a process may rely on between two of its commands

  /** The entry has not been handed to anyone since `at`, or is as the sweep saw it. */
  ghost predicate AsSeen(b: Broker, p: Name, at: nat, c: Candidate) {
    c.id in b.pending ==>
      && (b.pending[c.id].since >= at || b.pending[c.id].deliveries == c.deliveries)
      && (c.owner != p ==> b.pending[c.id].owner != p)
  }

  ghost predicate Askable(b: Broker, p: Name, at: nat, id: Id) {
    id in b.pending ==>
      && (b.pending[id].since >= at || b.pending[id].deliveries < MAX_DELIVERIES)
      && b.pending[id].owner != p
  }

  ghost predicate SweepOk(b: Broker, p: Name, at: nat, rest: seq<Candidate>, ids: seq<Id>) {
    && at <= b.clock
    && (forall c :: c in rest ==> c.id in b.published && AsSeen(b, p, at, c))
    && (forall id :: id in ids ==> Askable(b, p, at, id))
  }

  ghost predicate MessageOk(b: Broker, m: Message) {
    && m.id in b.published
    && (m.fields.Some? ==> m.fields.value == b.published[m.id])
    && (m.fields.None? ==> m.id !in b.stream)
  }

  ghost predicate QueueOk(b: Broker, queue: seq<Message>) {
    queue != [] && forall m :: m in queue ==> MessageOk(b, m)
  }

  ghost predicate PhaseOk(b: Broker, p: Name, phase: Phase) {
    match phase
    case Looping => true
    case Sweeping(at, rest, ids) => SweepOk(b, p, at, rest, ids)
    case Copying(at, rest, ids, fields) =>
      SweepOk(b, p, at, rest, ids) && rest != [] && fields == b.published[rest[0].id]
      && rest[0].deliveries >= MAX_DELIVERIES
    case Settling(at, rest, ids) => SweepOk(b, p, at, rest, ids) && rest != [] && Explained(b, rest[0].id)
    case Delivering(queue) => QueueOk(b, queue)
    case Serving(queue, subscribed, ends, ack) =>
      && QueueOk(b, queue) && 1 <= subscribed && |ends| <= subscribed && ack == Settles(ends)
      && forall i :: 0 <= i < |ends| ==> Complete(ends[i].outcomes)
    case Acking(queue) => QueueOk(b, queue) && Explained(b, queue[0].id)
  }

  ghost predicate ProcOk(b: Broker, p: Name, c: Proc) {
    c.handlers >= 1 && PhaseOk(b, p, c.phase)
  }

  ghost predicate Inv(s: State) {
    && Shape(s.broker) && Accounted(s.broker) && Chains(s.broker)
    && forall p :: p in s.procs ==> ProcOk(s.broker, p, s.procs[p])
  }

  lemma SweepStays(b: Broker, t: Broker, q: Name, p: Name, at: nat, rest: seq<Candidate>, ids: seq<Id>)
    requires SweepOk(b, p, at, rest, ids) && Evolves(b, t, q) && p != q
    ensures SweepOk(t, p, at, rest, ids)
  {
    forall c | c in rest ensures c.id in t.published && AsSeen(t, p, at, c) {
      assert AsSeen(b, p, at, c);
    }
    forall id | id in ids ensures Askable(t, p, at, id) {
      assert Askable(b, p, at, id);
    }
  }

  /** Whatever `q` does, another process still stands on solid ground. */
  lemma OthersStay(b: Broker, t: Broker, q: Name, p: Name, c: Proc)
    requires ProcOk(b, p, c) && Evolves(b, t, q) && p != q
    ensures ProcOk(t, p, c)
  {
    match c.phase
    case Looping =>
    case Sweeping(at, rest, ids) => SweepStays(b, t, q, p, at, rest, ids);
    case Copying(at, rest, ids, _) => SweepStays(b, t, q, p, at, rest, ids);
    case Settling(at, rest, ids) =>
      SweepStays(b, t, q, p, at, rest, ids);
      ExplainedStays(b, t, q, rest[0].id);
    case Delivering(queue) => QueueStays(b, t, q, queue);
    case Serving(queue, _, _, _) => QueueStays(b, t, q, queue);
    case Acking(queue) =>
      QueueStays(b, t, q, queue);
      ExplainedStays(b, t, q, queue[0].id);
  }

  lemma QueueStays(b: Broker, t: Broker, q: Name, queue: seq<Message>)
    requires QueueOk(b, queue) && Evolves(b, t, q)
    ensures QueueOk(t, queue)
  {
    forall m | m in queue ensures MessageOk(t, m) {
      assert MessageOk(b, m);
    }
  }

  lemma MessagesOk(b: Broker, t: Broker, q: Name, ids: seq<Id>)
    requires Evolves(b, t, q) && forall id :: id in ids ==> id in b.published
    ensures Messages(b, ids) != [] ==> QueueOk(t, Messages(b, ids))
  {
    forall m | m in Messages(b, ids) ensures MessageOk(t, m) {
    }
  }

  lemma CommandKeeps(b: Broker, p: Name, c: Proc, a: Action)
    requires Shape(b) && Accounted(b) && Chains(b) && ProcOk(b, p, c)
    requires Steps(a) && a.p == p && MayAct(b, c, a)
    ensures var t := Command(b, c, a); Shape(t) && Accounted(t) && Chains(t) && Evolves(b, t, p)
  {
    match a
    case ActReadNew(_, batch, _) => ReadNewKeeps(b, p, batch);
    case ActReadOwn(_, batch, _) => ReadOwnKeeps(b, p, batch);
    case ActCopy(_, droppedAt, done, _) =>
      if done { KeepKeeps(b, Written(b, c.phase, droppedAt), p); }
    case ActClaim(_, done, tombstones, _, _) =>
      assert forall id :: id in c.phase.ids ==> Askable(b, p, c.phase.at, id);
      if done { ClaimKeeps(b, p, c.phase.ids, tombstones); }
    case ActEnd(_) =>
      if c.phase.ack { NoteKeeps(b, Dispatch(c.phase.queue[0].id, c.phase.ends), p); }
    case ActAck(_, done) => if done { AcknowledgeKeeps(b, Current(c.phase), p); }
    case _ =>
  }

  /** A sweep, one entry further. */
  lemma SweepShrinks(b: Broker, p: Name, at: nat, rest: seq<Candidate>, ids: seq<Id>)
    requires SweepOk(b, p, at, rest, ids) && rest != []
    ensures SweepOk(b, p, at, rest[1..], ids)
    ensures rest[0].owner != p && rest[0].deliveries < MAX_DELIVERIES ==>
              SweepOk(b, p, at, rest[1..], ids + [rest[0].id])
  {
    assert rest[0] in rest && AsSeen(b, p, at, rest[0]);
    assert forall c :: c in rest[1..] ==> c in rest;
  }

  /** The reads and the sweep. */
  lemma ReaderOk(b: Broker, p: Name, c: Proc, a: Action)
    requires Shape(b) && ProcOk(b, p, c)
    requires Steps(a) && a.p == p && MayAct(b, c, a) && (c.phase.Looping? || c.phase.Sweeping?)
    requires Evolves(b, Command(b, c, a), p)
    ensures ProcOk(Command(b, c, a), p, Moved(b, c, a))
  {
    match a
    case ActReadNew(_, batch, _) => MessagesOk(b, Command(b, c, a), p, batch);
    case ActReadOwn(_, batch, _) => MessagesOk(b, Command(b, c, a), p, batch);
    case ActClaim(_, _, _, won, _) => MessagesOk(b, Command(b, c, a), p, won);
    case ActSkip(_) => SweepShrinks(b, p, c.phase.at, c.phase.rest, c.phase.ids);
    case ActChoose(_) => SweepShrinks(b, p, c.phase.at, c.phase.rest, c.phase.ids);
    case ActRange(_, _) => SweepShrinks(b, p, c.phase.at, c.phase.rest, c.phase.ids);
    case ActSweep(_, answer) => assert forall x :: x in answer ==> AsSeen(b, p, b.clock, x);
    case _ =>
  }

  /** The dead-letter copy. */
  lemma CopierOk(b: Broker, p: Name, c: Proc, a: Action)
    requires ProcOk(b, p, c) && a.ActCopy? && a.p == p && MayAct(b, c, a)
    requires Evolves(b, Command(b, c, a), p)
    ensures ProcOk(Command(b, c, a), p, Moved(b, c, a))
  {
    var t, head := Command(b, c, a), c.phase.rest[0];
    SweepShrinks(b, p, c.phase.at, c.phase.rest, c.phase.ids);
    assert head in c.phase.rest;
    if a.seen {
      assert t.letters[|b.letters|] in t.letters;
      assert MadeFrom(Written(b, c.phase, a.droppedAt), t.name, head.id, t.published[head.id]);
      assert HasLetter(t, head.id);
    }
    assert SweepOk(t, p, c.phase.at, c.phase.rest, c.phase.ids) by { SweepFrame(b, t, p, c.phase.at, c.phase.rest, c.phase.ids); }
    assert SweepOk(t, p, c.phase.at, c.phase.rest[1..], c.phase.ids) by { SweepFrame(b, t, p, c.phase.at, c.phase.rest[1..], c.phase.ids); }
  }

  /** Only the pending list matters to a sweep, and losing entries does not hurt it. */
  lemma SweepFrame(b: Broker, t: Broker, p: Name, at: nat, rest: seq<Candidate>, ids: seq<Id>)
    requires SweepOk(b, p, at, rest, ids) && t.clock == b.clock && t.published == b.published
    requires forall id :: id in t.pending ==> id in b.pending && t.pending[id] == b.pending[id]
    ensures SweepOk(t, p, at, rest, ids)
  {
    assert forall c :: c in rest ==> AsSeen(b, p, at, c);
    assert forall id :: id in ids ==> Askable(b, p, at, id);
  }

  lemma SettlesGrows(ends: seq<Served>, e: Served)
    ensures Settles(ends + [e]) <==> Settles(ends) && !Holds(e)
  {
    var all := ends + [e];
    assert all[|ends|] == e;
    assert forall i :: 0 <= i < |ends| ==> all[i] == ends[i];
  }

  /** The delivery: decoding, the handlers one after another, the end. */
  lemma ServerOk(b: Broker, p: Name, c: Proc, a: Action)
    requires ProcOk(b, p, c) && (a.ActBegin? || a.ActServe? || a.ActEnd?) && a.p == p && MayAct(b, c, a)
    requires Evolves(b, Command(b, c, a), p)
    ensures ProcOk(Command(b, c, a), p, Moved(b, c, a))
  {
    var t, queue := Command(b, c, a), c.phase.queue;
    QueueStays(b, t, p, queue);
    assert queue[0] in queue && MessageOk(b, queue[0]);
    if a.ActServe? {
      SettlesGrows(c.phase.ends, Served(a.outcomes, c.stopping));
    }
    if a.ActEnd? {
      if c.phase.ack {
        assert t.handled[|b.handled|] in t.handled;
        assert Handled(t, queue[0].id);
      }
      assert forall m :: m in queue[1..] ==> m in queue;
    }
  }

  lemma AckerOk(b: Broker, p: Name, c: Proc, a: Action)
    requires ProcOk(b, p, c) && a.ActAck? && a.p == p && MayAct(b, c, a)
    requires Evolves(b, Command(b, c, a), p)
    ensures ProcOk(Command(b, c, a), p, Moved(b, c, a))
  {
    var t := Command(b, c, a);
    if c.phase.Acking? {
      var queue := c.phase.queue;
      QueueStays(b, t, p, queue);
      assert forall m :: m in queue[1..] ==> m in queue;
    } else {
      SweepShrinks(b, p, c.phase.at, c.phase.rest, c.phase.ids);
      SweepFrame(b, t, p, c.phase.at, c.phase.rest[1..], c.phase.ids);
    }
  }

  lemma ActorOk(b: Broker, p: Name, c: Proc, a: Action)
    requires Shape(b) && ProcOk(b, p, c) && Steps(a) && a.p == p && MayAct(b, c, a)
    requires Evolves(b, Command(b, c, a), p)
    ensures ProcOk(Command(b, c, a), p, Moved(b, c, a))
  {
    match a
    case ActCopy(_, _, _, _) => CopierOk(b, p, c, a);
    case ActAck(_, _) => AckerOk(b, p, c, a);
    case ActBegin(_) => ServerOk(b, p, c, a);
    case ActServe(_, _) => ServerOk(b, p, c, a);
    case ActEnd(_) => ServerOk(b, p, c, a);
    case ActSubscribe(_) =>
    case ActStop(_) =>
    case _ => ReaderOk(b, p, c, a);
  }

  lemma PublishStep(s: State, a: Action)
    requires Inv(s) && Enabled(s, a) && a.ActPublish?
    ensures Inv(Step(s, a))
  {
    AddKeeps(s.broker, a.fields, a.floor, "");
    forall p | p in s.procs ensures ProcOk(Add(s.broker, a.fields, a.floor), p, s.procs[p]) {
      AddEvolves(s.broker, a.fields, a.floor, p + "x");
      OthersStay(s.broker, Add(s.broker, a.fields, a.floor), p + "x", p, s.procs[p]);
    }
  }

  lemma TickStep(s: State, a: Action)
    requires Inv(s) && Enabled(s, a) && a.ActTick?
    ensures Inv(Step(s, a))
  {
    TickKeeps(s.broker, a.d, "");
    forall p | p in s.procs ensures ProcOk(Tick(s.broker, a.d), p, s.procs[p]) {
      OthersStay(s.broker, Tick(s.broker, a.d), p + "x", p, s.procs[p]);
    }
  }

  lemma ProcessStep(s: State, a: Action)
    requires Inv(s) && Enabled(s, a) && Steps(a)
    ensures Inv(Step(s, a))
  {
    var b, c := s.broker, s.procs[a.p];
    var t := Command(b, c, a);
    CommandKeeps(b, a.p, c, a);
    ActorOk(b, a.p, c, a);
    assert Step(s, a) == State(t, s.procs[a.p := Moved(b, c, a)]);
    forall p | p in s.procs && p != a.p ensures ProcOk(t, p, s.procs[p]) {
      OthersStay(b, t, a.p, p, s.procs[p]);
    }
  }

  lemma StepKeeps(s: State, a: Action)
    requires Inv(s) && Enabled(s, a)
    ensures Inv(Step(s, a))
  {
    if Steps(a) {
      ProcessStep(s, a);
    } else if a.ActPublish? {
      PublishStep(s, a);
    } else if a.ActTick? {
      TickStep(s, a);
    } else {
      assert Step(s, a).broker == s.broker;
    }
  }

  lemma {:induction false} RunKeeps(states: seq<State>, actions: seq<Action>, n: nat)
    requires IsRun(states, actions) && n < |states|
    ensures Inv(states[n])
  {
    if n > 0 {
      RunKeeps(states, actions, n - 1);
      StepKeeps(states[n - 1], actions[n - 1]);
    }
  }

  // ----- whom a delivery reached

  /** How many handlers the process has subscribed by then, going by its own steps. */
  function Subscriptions(actions: seq<Action>, n: nat, p: Name): nat
    requires n <= |actions|
  {
    if n == 0 then 0
    else
      match actions[n - 1]
      case ActStart(q) => if q == p then 1 else Subscriptions(actions, n - 1, p)
      case ActCrash(q) => if q == p then 0 else Subscriptions(actions, n - 1, p)
      case ActSubscribe(q) => Subscriptions(actions, n - 1, p) + (if q == p then 1 else 0)
      case _ => Subscriptions(actions, n - 1, p)
  }

  /** What the process's handlers answered from step m on, handler by handler. */
  function Calls(actions: seq<Action>, m: nat, n: nat, p: Name): seq<seq<Outcome>>
    requires m <= n <= |actions|
  {
    if m == n then []
    else if actions[n - 1].ActServe? && actions[n - 1].p == p then
      Calls(actions, m, n - 1, p) + [actions[n - 1].outcomes]
    else Calls(actions, m, n - 1, p)
  }

  function Outcomes(ends: seq<Served>): seq<seq<Outcome>> {
    seq(|ends|, i requires 0 <= i < |ends| => ends[i].outcomes)
  }

  /** Step m took up the entry, which decodes, and from there to step n the process's
      handlers answered just this. */
  ghost predicate ServedFrom(states: seq<State>, actions: seq<Action>, m: nat, n: nat, p: Name, id: Id, ends: seq<Served>)
    requires m < n <= |actions| && |states| == |actions| + 1
  {
    && actions[m] == ActBegin(p) && p in states[m].procs && states[m].procs[p].phase.Delivering?
    && states[m].procs[p].phase.queue != [] && states[m].procs[p].phase.queue[0].id == id
    && Readable(states[m].broker, states[m].procs[p].phase.queue[0])
    && Calls(actions, m, n, p) == Outcomes(ends)
  }

  predicate Readable(b: Broker, m: Message) {
    m.fields.Some? && Decodes(b, m.fields.value)
  }

  /** A process in the middle of a delivery took it up at some step, for as many
      handlers as it had subscribed by then. */
  ghost predicate Underway(states: seq<State>, actions: seq<Action>, n: nat, p: Name)
    requires n <= |actions| && |states| == |actions| + 1 && p in states[n].procs && states[n].procs[p].phase.Serving?
  {
    var phase := states[n].procs[p].phase;
    phase.queue != [] && exists m: nat :: m < n && ServedFrom(states, actions, m, n, p, phase.queue[0].id, phase.ends)
                                          && phase.subscribed == Subscriptions(actions, m, p)
  }

  lemma {:induction false} SubscriptionsCount(states: seq<State>, actions: seq<Action>, n: nat, p: Name)
    requires IsRun(states, actions) && n <= |actions|
    ensures p in states[n].procs ==> states[n].procs[p].handlers == Subscriptions(actions, n, p)
  {
    if n > 0 {
      SubscriptionsCount(states, actions, n - 1, p);
      assert states[n - 1 + 1] == Step(states[n - 1], actions[n - 1]);
    }
  }

  lemma {:induction false} ServingIsUnderway(states: seq<State>, actions: seq<Action>, n: nat, p: Name)
    requires IsRun(states, actions) && n <= |actions| && p in states[n].procs && states[n].procs[p].phase.Serving?
    ensures Underway(states, actions, n, p)
  {
    assert n > 0;
    StepAt(states, actions, n);
    ServingComes(states[n - 1], actions[n - 1], p);
    if actions[n - 1] == ActBegin(p) {
      TakenUp(states, actions, n, p);
    } else {
      ServingIsUnderway(states, actions, n - 1, p);
      StillUnderway(states, actions, n, p);
    }
  }

  lemma StepAt(states: seq<State>, actions: seq<Action>, n: nat)
    requires IsRun(states, actions) && 0 < n < |states|
    ensures Enabled(states[n - 1], actions[n - 1]) && states[n] == Step(states[n - 1], actions[n - 1])
  {
    assert states[n - 1 + 1] == Step(states[n - 1], actions[n - 1]);
  }

  lemma TakenUp(states: seq<State>, actions: seq<Action>, n: nat, p: Name)
    requires IsRun(states, actions) && 0 < n <= |actions| && actions[n - 1] == ActBegin(p)
    requires p in states[n].procs && states[n].procs[p].phase.Serving?
    ensures Underway(states, actions, n, p)
  {
    assert states[n - 1 + 1] == Step(states[n - 1], actions[n - 1]);
    ServingComes(states[n - 1], actions[n - 1], p);
    SubscriptionsCount(states, actions, n - 1, p);
    assert Calls(actions, n - 1, n - 1, p) == [] && Calls(actions, n - 1, n, p) == [];
    assert ServedFrom(states, actions, n - 1, n, p, states[n - 1].procs[p].phase.queue[0].id, []);
  }

  lemma ServingComes(s: State, a: Action, p: Name)
    requires Enabled(s, a) && p in Step(s, a).procs && Step(s, a).procs[p].phase.Serving?
    ensures p in s.procs
    ensures var before, after := s.procs[p].phase, Step(s, a).procs[p].phase;
            if a == ActBegin(p) then
              && before.Delivering? && before.queue != [] && Readable(s.broker, before.queue[0])
              && after == Serving(before.queue, s.procs[p].handlers, [], true)
            else before.Serving?
  {
    if Steps(a) && a.p == p {
      assert a.ActBegin? || a.ActServe? || a.ActSubscribe? || a.ActStop?;
    }
  }

  lemma StillUnderway(states: seq<State>, actions: seq<Action>, n: nat, p: Name)
    requires IsRun(states, actions) && 0 < n <= |actions| && actions[n - 1] != ActBegin(p)
    requires p in states[n - 1].procs && states[n - 1].procs[p].phase.Serving? && Underway(states, actions, n - 1, p)
    requires p in states[n].procs && states[n].procs[p].phase.Serving?
    ensures Underway(states, actions, n, p)
  {
    var before, after := states[n - 1].procs[p].phase, states[n].procs[p].phase;
    assert states[n - 1 + 1] == Step(states[n - 1], actions[n - 1]);
    ServingMoves(states[n - 1], actions[n - 1], p);
    var m: nat :| m < n - 1 && ServedFrom(states, actions, m, n - 1, p, before.queue[0].id, before.ends)
                  && before.subscribed == Subscriptions(actions, m, p);
    assert ServedFrom(states, actions, m, n, p, after.queue[0].id, after.ends);
  }

  lemma ServingMoves(s: State, a: Action, p: Name)
    requires Enabled(s, a) && a != ActBegin(p) && p in s.procs && s.procs[p].phase.Serving?
    requires p in Step(s, a).procs && Step(s, a).procs[p].phase.Serving?
    ensures var before, after := s.procs[p].phase, Step(s, a).procs[p].phase;
            && after.queue == before.queue && after.subscribed == before.subscribed
            && Outcomes(after.ends) == Outcomes(before.ends) + (if a.ActServe? && a.p == p then [a.outcomes] else [])
  {
    if Steps(a) && a.p == p {
      assert a.ActServe? || a.ActSubscribe? || a.ActStop?;
    }
  }

  /** A noted delivery, traced: some process took the entry up, each handler it had
      subscribed by then was called and answered, and then the delivery ended. */
  ghost predicate Traced(states: seq<State>, actions: seq<Action>, n: nat, d: Dispatch)
    requires n <= |actions| && |states| == |actions| + 1
  {
    exists m: nat, k: nat, p :: m < k < n && actions[k] == ActEnd(p)
      && ServedFrom(states, actions, m, k, p, d.id, d.ends) && |d.ends| == Subscriptions(actions, m, p)
  }

  lemma {:induction false} EveryDispatchIsTraced(states: seq<State>, actions: seq<Action>, n: nat, d: Dispatch)
    requires IsRun(states, actions) && n <= |actions| && d in states[n].broker.handled
    ensures Traced(states, actions, n, d)
  {
    var s, a := states[n - 1], actions[n - 1];
    assert states[n - 1 + 1] == Step(s, a);
    if d in s.broker.handled {
      EveryDispatchIsTraced(states, actions, n - 1, d);
      var m: nat, k: nat, p :| m < k < n - 1 && actions[k] == ActEnd(p)
        && ServedFrom(states, actions, m, k, p, d.id, d.ends) && |d.ends| == Subscriptions(actions, m, p);
    } else {
      NewlyHandled(s, a, d);
      ServingIsUnderway(states, actions, n - 1, a.p);
      var m: nat :| m < n - 1 && ServedFrom(states, actions, m, n - 1, a.p, d.id, d.ends)
                    && s.procs[a.p].phase.subscribed == Subscriptions(actions, m, a.p);
    }
  }

  lemma NewlyHandled(s: State, a: Action, d: Dispatch)
    requires Enabled(s, a) && d in Step(s, a).broker.handled && d !in s.broker.handled
    ensures a.ActEnd? && s.procs[a.p].phase.Serving? && s.procs[a.p].phase.queue != []
    ensures var phase := s.procs[a.p].phase;
            d == Dispatch(phase.queue[0].id, phase.ends) && |phase.ends| == phase.subscribed
  {
  }

  /** The entry was delivered to every handler its process had subscribed when it took
      the entry up, each was called until no further call was due, and none was held
      back by the shutdown. */
  ghost predicate HandledByAll(states: seq<State>, actions: seq<Action>, n: nat, id: Id)
    requires n <= |actions| && |states| == |actions| + 1
  {
    exists d :: d in states[n].broker.handled && d.id == id && InFull(d) && Traced(states, actions, n, d)
  }

  ghost predicate Accountable(states: seq<State>, actions: seq<Action>, n: nat, id: Id)
    requires n <= |actions| && |states| == |actions| + 1
  {
    var b := states[n].broker;
    id in b.published && (HandledByAll(states, actions, n, id) || !Decodes(b, b.published[id]) || HasLetter(b, id) || id !in b.stream)
  }

  lemma ExplainedIsAccountable(states: seq<State>, actions: seq<Action>, n: nat, id: Id)
    requires IsRun(states, actions) && n <= |actions| && Explained(states[n].broker, id)
    ensures Accountable(states, actions, n, id)
  {
    if Handled(states[n].broker, id) {
      var d :| d in states[n].broker.handled && d.id == id && InFull(d);
      EveryDispatchIsTraced(states, actions, n, d);
    }
  }

  // ----- what the runs never do

  /** Whenever an entry leaves the pending list, one of three things is already true:
      a delivery reached every handler its process had subscribed and was not held back
      by the shutdown, the entry does not decode, or it has its dead letter (or nothing
      left to keep). */
  lemma EveryRemovalIsExplained(states: seq<State>, actions: seq<Action>, n: nat, id: Id)
    requires IsRun(states, actions) && n < |actions|
    requires id in states[n].broker.pending && id !in states[n + 1].broker.pending
    ensures Accountable(states, actions, n, id)
  {
    RunKeeps(states, actions, n);
    assert states[n + 1] == Step(states[n], actions[n]);
    RemovalIsExplained(states[n], actions[n], id);
    ExplainedIsAccountable(states, actions, n, id);
  }

  lemma RemovalIsExplained(s: State, a: Action, id: Id)
    requires Inv(s) && Enabled(s, a)
    requires id in s.broker.pending && id !in Step(s, a).broker.pending
    ensures Explained(s.broker, id)
  {
    if Steps(a) {
      assert ProcOk(s.broker, a.p, s.procs[a.p]);
      CommandExplains(s.broker, a.p, s.procs[a.p], a, id);
    }
  }

  lemma CommandExplains(b: Broker, p: Name, c: Proc, a: Action, id: Id)
    requires Shape(b) && PhaseOk(b, p, c.phase) && Steps(a) && a.p == p && MayAct(b, c, a)
    requires id in b.pending && id !in Command(b, c, a).pending
    ensures Explained(b, id)
  {
    match a
    case ActAck(_, _) => assert id == Current(c.phase);
    case ActClaim(_, _, tombstones, _, _) => assert Drops(b, c.phase.ids, tombstones, id);
    case _ =>
  }

  /** So every entry the stream still holds, up to where the group has read, is
      pending, delivered to all handlers, undecodable, or kept as a dead letter. */
  lemma NothingDeliveredIsLost(states: seq<State>, actions: seq<Action>, n: nat, id: Id)
    requires IsRun(states, actions) && n < |states|
    requires id in states[n].broker.stream && id <= states[n].broker.last
    ensures id in states[n].broker.published
    ensures id in states[n].broker.pending || Accountable(states, actions, n, id)
  {
    RunKeeps(states, actions, n);
    if id !in states[n].broker.pending {
      ExplainedIsAccountable(states, actions, n, id);
    }
  }

  /** Takeovers of one entry never come from the process itself, follow one another
      from holder to holder, and lie at least the idle threshold apart. */
  lemma TakeoversAreApart(states: seq<State>, actions: seq<Action>, n: nat, id: Id)
    requires IsRun(states, actions) && n < |states| && id in states[n].broker.taken
    ensures Chain(states[n].broker, id)
  {
    RunKeeps(states, actions, n);
  }

  /** An entry changes hands at most twice when a sweep's budget is shorter than the
      idle threshold. */
  lemma {:induction false} TakenOverAtMostTwice(states: seq<State>, actions: seq<Action>, n: nat)
    requires IsRun(states, actions) && n < |states|
    requires states[n].broker.minIdle > CONTROL_TIMEOUT
    ensures Bounded(states[n].broker)
  {
    if n > 0 {
      RunKeeps(states, actions, n - 1);
      var s, a := states[n - 1], actions[n - 1];
      assert states[n] == Step(s, a);
      StepStaysBounded(s, a);
      TakenOverAtMostTwice(states, actions, n - 1);
    }
  }

  lemma StepStaysBounded(s: State, a: Action)
    requires Inv(s) && Enabled(s, a)
    ensures Step(s, a).broker.minIdle == s.broker.minIdle
    ensures Bounded(s.broker) && s.broker.minIdle > CONTROL_TIMEOUT ==> Bounded(Step(s, a).broker)
  {
    var b := s.broker;
    if a.ActPublish? {
      AddKeeps(b, a.fields, a.floor, "");
    } else if Steps(a) {
      var c := s.procs[a.p];
      assert ProcOk(b, a.p, c);
      if a.ActClaim? && a.done && b.minIdle > CONTROL_TIMEOUT && Bounded(b) {
        assert forall id :: id in c.phase.ids ==> Askable(b, a.p, c.phase.at, id);
        ClaimStaysBounded(b, a.p, c.phase.ids, a.tombstones);
      }
    }
  }

  // ----- what the dead letters are worth

  /** Entries have fields, letters are about entries, and the stream has a name. */
  ghost predicate Redrivable(b: Broker) {
    b.name != "" && Genuine(b) && forall id :: id in b.published ==> b.published[id] != map[]
  }

  lemma RedrivableStep(s: State, a: Action)
    requires Inv(s) && Enabled(s, a) && Redrivable(s.broker)
    ensures Redrivable(Step(s, a).broker)
  {
    var b := s.broker;
    if a.ActPublish? {
      assert b.top + 1 !in b.published;
    } else if a.ActCopy? {
      assert ProcOk(b, a.p, s.procs[a.p]);
      CopyIsGenuine(b, a.p, s.procs[a.p], a);
    } else if Steps(a) {
      LettersUntouched(b, s.procs[a.p], a);
    }
  }

  lemma LettersUntouched(b: Broker, c: Proc, a: Action)
    requires Steps(a) && !a.ActCopy? && MayAct(b, c, a)
    ensures var t := Command(b, c, a);
            t.published == b.published && t.letters == b.letters && t.name == b.name
  {
  }

  lemma CopyIsGenuine(b: Broker, p: Name, c: Proc, a: Action)
    requires a.ActCopy? && PhaseOk(b, p, c.phase) && MayAct(b, c, a) && Genuine(b)
    ensures Genuine(Command(b, c, a))
  {
    var letter := Written(b, c.phase, a.droppedAt);
    assert c.phase.rest[0] in c.phase.rest;
    assert MadeFrom(letter, b.name, letter.source, b.published[letter.source]);
  }

  lemma {:induction false} RunIsRedrivable(states: seq<State>, actions: seq<Action>, n: nat)
    requires IsRun(states, actions) && n < |states|
    ensures Redrivable(states[n].broker)
  {
    if n > 0 {
      RunIsRedrivable(states, actions, n - 1);
      RunKeeps(states, actions, n - 1);
      RedrivableStep(states[n - 1], actions[n - 1]);
    } else {
      var texts, prefix, eventName, minIdle :| states[0] == Start(texts, prefix, eventName, minIdle);
      assert StreamName(prefix, eventName)[|prefix|] == ':';
    }
  }

  /** Every dead letter a run writes names an entry delivered three times or more, and a
      redrive puts back on this stream what decodes as that entry did. */
  lemma LettersRedriveTheirEntry(states: seq<State>, actions: seq<Action>, n: nat, l: Letter)
    requires IsRun(states, actions) && n < |states| && l in states[n].broker.letters
    ensures var b := states[n].broker;
            && l.source in b.published && MadeFrom(l, b.name, l.source, b.published[l.source])
            && Redrive(l.fields).Back? && Redrive(l.fields).stream == b.name
            && Decode(b.texts, b.eventName, Redrive(l.fields).fields) == Decode(b.texts, b.eventName, b.published[l.source])
  {
    RunIsRedrivable(states, actions, n);
    var b := states[n].broker;
    var f := b.published[l.source];
    var consumer, deliveries, droppedAt :|
      deliveries >= MAX_DELIVERIES && l == LetterOf(b.name, l.source, consumer, deliveries, droppedAt, f);
    RedriveDecodesTheSame(b.texts, b.eventName, f, b.name, Decimal.Digits(l.source), consumer, Decimal.Digits(deliveries), droppedAt);
  }

  // ----- the bound needs its condition

  ghost predicate Reachable(s: State) {
    exists states, actions :: IsRun(states, actions) && states[|actions|] == s
  }

  lemma Extend(s: State, a: Action)
    requires Reachable(s) && Enabled(s, a)
    ensures Reachable(Step(s, a))
  {
    var states, actions :| IsRun(states, actions) && states[|actions|] == s;
    var more, done := states + [Step(s, a)], actions + [a];
    forall i | 0 <= i < |done| ensures Enabled(more[i], done[i]) && more[i + 1] == Step(more[i], done[i]) {
      if i < |actions| {
        assert more[i] == states[i] && more[i + 1] == states[i + 1] && done[i] == actions[i];
      }
    }
    assert more[0] == states[0];
    assert IsRun(more, done) && more[|done|] == Step(s, a);
  }

  /** Entry 1 is held by `p` after `d` deliveries, just now, and the processes `qs` idle. */
  ghost predicate Holding(s: State, p: Name, d: nat, moves: nat, qs: set<Name>) {
    && Reachable(s)
    && s.broker.pending == map[1 := Owned(p, d, s.broker.clock)]
    && 1 in s.broker.stream && 1 in s.broker.taken && |s.broker.taken[1]| == moves
    && forall q :: q in qs ==> q in s.procs && s.procs[q].phase.Looping?
  }

  lemma Wait(s: State, p: Name, d: nat, moves: nat, qs: set<Name>) returns (t: State)
    requires Holding(s, p, d, moves, qs)
    ensures Reachable(t) && t == s.(broker := s.broker.(clock := s.broker.clock + s.broker.minIdle))
  {
    t := Step(s, ActTick(s.broker.minIdle));
    Extend(s, ActTick(s.broker.minIdle));
  }

  /** A sweep that has decided to ask for entry 1. */
  lemma Decide(s: State, q: Name) returns (t: State)
    requires Reachable(s) && Idle(s.broker, 1) && q in s.procs && s.procs[q].phase.Looping?
    requires s.broker.pending[1].owner != q && s.broker.pending[1].deliveries < MAX_DELIVERIES
    ensures Reachable(t)
    ensures t == s.(procs := s.procs[q := s.procs[q].(phase := Sweeping(s.broker.clock, [], [1]))])
  {
    var c := Candidate(1, s.broker.pending[1].owner, s.broker.pending[1].deliveries);
    var u := s.(procs := s.procs[q := s.procs[q].(phase := Sweeping(s.broker.clock, [c], []))]);
    assert Step(s, ActSweep(q, [c])) == u;
    Extend(s, ActSweep(q, [c]));
    t := Chosen(u, q, c);
    assert t.procs == s.procs[q := s.procs[q].(phase := Sweeping(s.broker.clock, [], [1]))];
  }

  lemma Chosen(s: State, q: Name, c: Candidate) returns (t: State)
    requires Reachable(s) && q in s.procs && s.procs[q].phase == Sweeping(s.broker.clock, [c], [])
    requires c.owner != q && c.deliveries < MAX_DELIVERIES
    ensures Reachable(t)
    ensures t == s.(procs := s.procs[q := s.procs[q].(phase := Sweeping(s.broker.clock, [], [c.id]))])
  {
    assert [c][1..] == [] && [] + [c.id] == [c.id];
    t := Next(s, ActChoose(q));
  }

  lemma ClaimOfOne(b: Broker, q: Name)
    requires Idle(b, 1) && 1 in b.stream && 1 in b.taken && b.pending.Keys == {1}
    ensures forall id :: id in [1] <==> Wins(b, [1], false, id)
    ensures var t := Claim(b, q, [1], false);
            && t.pending == map[1 := Owned(q, b.pending[1].deliveries + 1, b.clock)]
            && t.clock == b.clock && t.stream == b.stream && t.minIdle == b.minIdle
            && 1 in t.taken && |t.taken[1]| == |b.taken[1]| + 1
  {
    assert Claim(b, q, [1], false).pending.Keys == {1};
  }

  /** The claim arrives; its answer does not. */
  lemma Take(s: State, q: Name) returns (t: State)
    requires Reachable(s) && Idle(s.broker, 1) && 1 in s.broker.stream && 1 in s.broker.taken
    requires q in s.procs && s.procs[q].phase.Sweeping? && s.procs[q].phase.rest == [] && s.procs[q].phase.ids == [1]
    requires s.broker.clock <= s.procs[q].phase.at + CONTROL_TIMEOUT && s.broker.pending.Keys == {1}
    ensures Reachable(t) && t.broker.minIdle == s.broker.minIdle
    ensures t.broker.pending == map[1 := Owned(q, s.broker.pending[1].deliveries + 1, s.broker.clock)]
    ensures t.broker.clock == s.broker.clock && t.broker.stream == s.broker.stream && 1 in t.broker.taken
    ensures |t.broker.taken[1]| == |s.broker.taken[1]| + 1
    ensures t.procs == s.procs[q := s.procs[q].(phase := Looping)]
  {
    var a := ActClaim(q, true, false, [1], false);
    ClaimOfOne(s.broker, q);
    Extend(s, a);
    t := Step(s, a);
    assert t.broker == Claim(s.broker, q, [1], false);
  }

  /** With an idle threshold within a sweep's budget, an entry can change hands three
      times: the last sweep asks for what it saw before the one in between. */
  lemma ShortThresholdTakesThree(s: State, a: Name, b: Name, c: Name, d: Name) returns (t: State)
    requires a != b && a != c && a != d && b != c && b != d && c != d
    requires Holding(s, a, 1, 0, {b, c, d}) && s.broker.minIdle <= CONTROL_TIMEOUT
    ensures Reachable(t) && t.broker.minIdle == s.broker.minIdle && 1 in t.broker.taken && !Bounded(t.broker)
  {
    t := Wait(s, a, 1, 0, {b, c, d});
    t := Decide(t, b);
    t := Take(t, b);
    assert Holding(t, b, 2, 1, {c, d});
    t := Wait(t, b, 2, 1, {c, d});
    t := Decide(t, c);
    t := Decide(t, d);
    t := Take(t, c);
    assert Holding(t, c, 3, 2, {});
    t := Wait(t, c, 3, 2, {});
    t := Take(t, d);
  }

  /** Such a state is reached by one publication and one lost read. */
  lemma LostRead(texts: Texts, prefix: string, eventName: string, minIdle: nat, fields: Fields, a: Name, b: Name, c: Name, d: Name)
    returns (s: State)
    requires a != b && a != c && a != d && b != c && b != d && c != d && fields != map[]
    ensures Holding(s, a, 1, 0, {b, c, d}) && s.broker.minIdle == minIdle
  {
    s := Published(texts, prefix, eventName, minIdle, fields);
    s := Join(s, a);
    s := Join(s, b);
    s := Join(s, c);
    s := Join(s, d);
    s := LoseRead(s, a);
  }

  lemma Published(texts: Texts, prefix: string, eventName: string, minIdle: nat, fields: Fields) returns (s: State)
    requires fields != map[]
    ensures Reachable(s) && s == State(Add(Empty(texts, prefix, eventName, minIdle), fields, 0), map[])
  {
    s := Start(texts, prefix, eventName, minIdle);
    assert IsRun([s], []) && [s][0] == s;
    s := Next(s, ActPublish(fields, 0));
  }

  lemma Join(s: State, p: Name) returns (t: State)
    requires Reachable(s) && p !in s.procs
    ensures Reachable(t) && t == s.(procs := s.procs[p := Proc(1, false, Some(0), Looping)])
  {
    t := Next(s, ActStart(p));
  }

  lemma LoseRead(s: State, p: Name) returns (t: State)
    requires Reachable(s) && p in s.procs && s.procs[p] == Proc(1, false, Some(0), Looping)
    requires s.broker.pending == map[] && s.broker.last == 0 && s.broker.stream == {1}
    ensures Reachable(t) && t.broker == s.broker.(pending := map[1 := Owned(p, 1, s.broker.clock)], last := 1)
    ensures t.procs == s.procs[p := Proc(1, false, None, Looping)]
  {
    var u := State(s.broker, s.procs[p := Proc(1, false, None, Looping)]);
    assert Step(s, ActReadOwn(p, [], true)) == u by {
      assert ReadOwn(s.broker, []).pending == map[];
    }
    Extend(s, ActReadOwn(p, [], true));
    t := GiveFirst(u, p);
    assert t.procs == u.procs;
  }

  lemma GiveFirst(s: State, p: Name) returns (t: State)
    requires Reachable(s) && p in s.procs && s.procs[p] == Proc(1, false, None, Looping)
    requires s.broker.pending == map[] && s.broker.last == 0 && s.broker.stream == {1}
    ensures Reachable(t) && t.broker == s.broker.(pending := map[1 := Owned(p, 1, s.broker.clock)], last := 1)
    ensures t.procs == s.procs
  {
    t := s.(broker := s.broker.(pending := map[1 := Owned(p, 1, s.broker.clock)], last := 1));
    assert NextBatch(s.broker, [1]);
    assert ReadNew(s.broker, p, [1]).pending == map[1 := Owned(p, 1, s.broker.clock)];
    assert s.procs == s.procs[p := s.procs[p]];
    Extend(s, ActReadNew(p, [1], false));
  }

  lemma Next(s: State, a: Action) returns (t: State)
    requires Reachable(s) && Enabled(s, a)
    ensures Reachable(t) && t == Step(s, a)
  {
    Extend(s, a);
    t := Step(s, a);
  }

  ghost predicate AlwaysBounded(minIdle: nat) {
    forall s :: Reachable(s) && s.broker.minIdle == minIdle ==> Bounded(s.broker)
  }

  /** The bound of two holds for every run exactly when the idle threshold is longer
      than a sweep's budget, which the configured default is. */
  lemma TheBoundNeedsTheBudget(minIdle: nat, texts: Texts)
    ensures AlwaysBounded(minIdle) <==> minIdle > CONTROL_TIMEOUT
  {
    if minIdle > CONTROL_TIMEOUT {
      forall s | Reachable(s) && s.broker.minIdle == minIdle ensures Bounded(s.broker) {
        var states, actions :| IsRun(states, actions) && states[|actions|] == s;
        TakenOverAtMostTwice(states, actions, |actions|);
      }
    } else {
      var fields: Fields := map["id" := ""];
      assert "id" in fields;
      var s := LostRead(texts, "", "", minIdle, fields, "a", "b", "c", "d");
      var t := ShortThresholdTakesThree(s, "a", "b", "c", "d");
    }
  }
}
