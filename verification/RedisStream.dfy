/** One event's Redis stream with its consumer group, pending list and dead letters;
    every function is one Redis command, executed atomically by the server. */
module RedisStream {
  import opened HandlerCalls
  import opened EventMessages
  import Decimal

  type Id = nat
  type Name = string

  datatype Owned = Owned(owner: Name, deliveries: nat, since: nat)

  /** An entry of the dead-letter stream, and history: the entry it was made from. */
  datatype Letter = Letter(source: Id, fields: Fields)

  /** History: a delivery that ended, and an entry that changed hands. */
  datatype Dispatch = Dispatch(id: Id, ends: seq<Served>)
  datatype Takeover = Takeover(from: Name, to: Name, at: nat)

  /** Entry ids are numbered 1, 2, ...; `published` and `taken` remember every entry,
      `stream` says which the stream still holds, `last` which the group was given.
      `letters` remembers every letter written. */
  datatype Broker = Broker(
    texts: Texts, eventName: string, name: string, minIdle: nat, clock: nat,
    published: map<Id, Fields>, stream: set<Id>, top: nat, last: nat,
    pending: map<Id, Owned>,
    letters: seq<Letter>,
    handled: seq<Dispatch>,
    taken: map<Id, seq<Takeover>>)

  const MAX_DELIVERIES := 3

  /** How long one sweep may take before its context ends, in milliseconds. */
  const CONTROL_TIMEOUT := 5000

  function Empty(texts: Texts, prefix: string, eventName: string, minIdle: nat): Broker {
    Broker(texts, eventName, StreamName(prefix, eventName), minIdle, 0, map[], {}, 0, 0, map[], [], [], map[])
  }

  // ----- the commands

  function Tick(b: Broker, d: nat): Broker {
    b.(clock := b.clock + d)
  }

  /** XADD with MAXLEN: entries below `floor` are trimmed. */
  function Add(b: Broker, fields: Fields, floor: nat): Broker {
    var id := b.top + 1;
    b.(top := id, published := b.published[id := fields], taken := b.taken[id := []],
       stream := (set i | i in b.stream && i >= floor) + {id})
  }

  function Ends(batch: seq<Id>, otherwise: nat): nat {
    if batch == [] then otherwise else batch[|batch| - 1]
  }

  /** XREADGROUP with ">". */
  function ReadNew(b: Broker, p: Name, batch: seq<Id>): Broker {
    b.(pending := b.pending + (map id | id in batch :: Owned(p, 1, b.clock)), last := Ends(batch, b.last))
  }

  /** XREADGROUP with an id: the consumer's own entries, counted and timed again
      unless the stream no longer holds them. */
  function ReadOwn(b: Broker, batch: seq<Id>): Broker {
    b.(pending := map id | id in b.pending ::
         if id in batch && id in b.stream then
           b.pending[id].(deliveries := b.pending[id].deliveries + 1, since := b.clock)
         else b.pending[id])
  }

  predicate Idle(b: Broker, id: Id) {
    id in b.pending && b.clock - b.pending[id].since >= b.minIdle
  }

  /** XCLAIM takes an entry that is still idle. One the stream no longer holds is
      dropped from the list, or handed over empty, by the server's version. */
  predicate Wins(b: Broker, ids: seq<Id>, tombstones: bool, id: Id) {
    id in ids && Idle(b, id) && (id in b.stream || tombstones)
  }

  predicate Drops(b: Broker, ids: seq<Id>, tombstones: bool, id: Id) {
    id in ids && Idle(b, id) && id !in b.stream && !tombstones
  }

  function Claim(b: Broker, p: Name, ids: seq<Id>, tombstones: bool): Broker {
    b.(pending := map id | id in b.pending && !Drops(b, ids, tombstones, id) ::
         if Wins(b, ids, tombstones, id) then Owned(p, b.pending[id].deliveries + 1, b.clock) else b.pending[id],
       taken := map id | id in b.taken ::
         if Wins(b, ids, tombstones, id) then b.taken[id] + [Takeover(b.pending[id].owner, p, b.clock)]
         else b.taken[id])
  }

  /** What the sweep writes: the entry's own fields, and where it stood. */
  function LetterOf(name: string, id: Id, consumer: Name, deliveries: nat, droppedAt: string, f: Fields): Letter {
    Letter(id, Kept(name, Decimal.Digits(id), consumer, Decimal.Digits(deliveries), droppedAt, f))
  }

  function Keep(b: Broker, letter: Letter): Broker {
    b.(letters := b.letters + [letter])
  }

  function Note(b: Broker, d: Dispatch): Broker {
    b.(handled := b.handled + [d])
  }

  function Acknowledge(b: Broker, id: Id): Broker {
    b.(pending := b.pending - {id})
  }

  // ----- why an entry may leave the pending list

  /** A delivery that gave no handler up while another call was due and was not held
      back by a fault that met the shutdown. Which handlers it reached is a matter of
      the run. */
  ghost predicate InFull(d: Dispatch) {
    && d.ends != [] && Settles(d.ends)
    && forall i :: 0 <= i < |d.ends| ==> Complete(d.ends[i].outcomes)
  }

  ghost predicate Handled(b: Broker, id: Id) {
    exists d :: d in b.handled && d.id == id && InFull(d)
  }

  predicate Decodes(b: Broker, f: Fields) {
    Decode(b.texts, b.eventName, f).Some?
  }

  ghost predicate HasLetter(b: Broker, id: Id)
    requires id in b.published
  {
    exists l :: l in b.letters && MadeFrom(l, b.name, id, b.published[id])
  }

  /** A letter about that entry, given up after three deliveries or more. */
  ghost predicate MadeFrom(l: Letter, name: string, id: Id, f: Fields) {
    exists consumer, deliveries, droppedAt ::
      deliveries >= MAX_DELIVERIES && l == LetterOf(name, id, consumer, deliveries, droppedAt, f)
  }

  /** Every letter is about an entry that was published. */
  ghost predicate Genuine(b: Broker) {
    forall l :: l in b.letters ==> l.source in b.published && MadeFrom(l, b.name, l.source, b.published[l.source])
  }

  ghost predicate Explained(b: Broker, id: Id) {
    && id in b.published
    && (Handled(b, id) || !Decodes(b, b.published[id]) || HasLetter(b, id) || id !in b.stream)
  }

  // ----- what every command keeps

  ghost predicate Shape(b: Broker) {
    && b.stream <= b.published.Keys && b.pending.Keys <= b.published.Keys && b.taken.Keys == b.published.Keys
    && (forall id :: id in b.published ==> 1 <= id <= b.top)
    && b.last <= b.top
    && (forall id :: id in b.pending ==> id <= b.last && b.pending[id].since <= b.clock)
    && (forall id :: id in b.taken && id > b.last ==> b.taken[id] == [])
  }

  /** Nothing the group was given is lost: the stream's entries up to the group's
      position are pending or explained. */
  ghost predicate Accounted(b: Broker) {
    forall id :: id in b.stream && id <= b.last ==> id in b.pending || Explained(b, id)
  }

  /** The takeovers of one entry: from one holder to the next, never to the holder
      itself, at least the idle threshold apart, and each counted as a delivery. */
  ghost predicate Chain(b: Broker, id: Id)
    requires id in b.taken
  {
    var t := b.taken[id];
    && (forall i :: 0 <= i < |t| ==> t[i].from != t[i].to)
    && (forall i :: 0 <= i < |t| - 1 ==> t[i].to == t[i + 1].from && t[i].at + b.minIdle <= t[i + 1].at)
    && (id in b.pending ==> |t| + 1 <= b.pending[id].deliveries)
    && (id in b.pending && t != [] ==>
          t[|t| - 1].to == b.pending[id].owner && t[|t| - 1].at <= b.pending[id].since)
  }

  ghost predicate Chains(b: Broker) {
    forall id :: id in b.taken ==> Chain(b, id)
  }

  ghost predicate Bounded(b: Broker) {
    forall id :: id in b.taken ==> |b.taken[id]| < MAX_DELIVERIES
  }

  /** What the other processes may rely on while `q` works: entries and evidence stay,
      and only `q` gains entries, just now. */
  ghost predicate Evolves(b: Broker, t: Broker, q: Name) {
    && t.texts == b.texts && t.eventName == b.eventName && t.name == b.name && t.minIdle == b.minIdle && b.clock <= t.clock
    && (forall id :: id in b.published ==> id in t.published && t.published[id] == b.published[id])
    && (forall id :: id in t.stream && id in b.published ==> id in b.stream)
    && (forall l :: l in b.letters ==> l in t.letters)
    && (forall d :: d in b.handled ==> d in t.handled)
    && (forall id :: id in t.pending ==>
          || (id in b.pending && t.pending[id] == b.pending[id])
          || (t.pending[id].owner == q && t.pending[id].since == t.clock && id in t.published))
  }

  lemma ExplainedStays(b: Broker, t: Broker, q: Name, id: Id)
    requires Evolves(b, t, q) && Explained(b, id)
    ensures Explained(t, id)
  {
    if Handled(b, id) {
      var d :| d in b.handled && d.id == id && InFull(d);
      assert d in t.handled;
    } else if HasLetter(b, id) {
      var l :| l in b.letters && MadeFrom(l, b.name, id, b.published[id]);
      assert l in t.letters;
    }
  }

  /** Accounting survives a command that takes nothing pending away unexplained. */
  lemma AccountedStays(b: Broker, t: Broker, q: Name)
    requires Shape(b) && Accounted(b) && Evolves(b, t, q)
    requires forall id :: id in t.stream && id <= t.last ==> (id in b.published && id <= b.last) || id in t.pending
    requires forall id :: id in b.pending && id !in t.pending ==> Explained(b, id)
    ensures Accounted(t)
  {
    forall id | id in t.stream && id <= t.last && id !in t.pending ensures Explained(t, id) {
      assert id in b.stream && id <= b.last;
      ExplainedStays(b, t, q, id);
    }
  }

  /** The untouched and the merely re-read entries keep their history. */
  lemma ChainsStay(b: Broker, t: Broker)
    requires Shape(b) && Chains(b) && t.minIdle == b.minIdle
    requires forall id :: id in t.taken ==> Same(b, t, id)
    ensures Chains(t) && (Bounded(b) ==> Bounded(t))
  {
    forall id | id in t.taken ensures Chain(t, id) {
      assert Same(b, t, id);
      if id in b.taken {
        assert Chain(b, id);
      }
    }
    if Bounded(b) {
      forall id | id in t.taken ensures |t.taken[id]| < MAX_DELIVERIES {
        assert Same(b, t, id);
      }
    }
  }

  ghost predicate Same(b: Broker, t: Broker, id: Id)
    requires id in t.taken
  {
    if t.taken[id] == [] then id in t.pending ==> t.pending[id].deliveries >= 1
    else
      && id in b.taken && t.taken[id] == b.taken[id]
      && (id in t.pending ==>
            && id in b.pending && t.pending[id].owner == b.pending[id].owner
            && b.pending[id].deliveries <= t.pending[id].deliveries && b.pending[id].since <= t.pending[id].since)
  }

  lemma TickKeeps(b: Broker, d: nat, q: Name)
    requires Shape(b) && Accounted(b) && Chains(b)
    ensures var t := Tick(b, d);
            Shape(t) && Accounted(t) && Chains(t) && Evolves(b, t, q) && (Bounded(b) ==> Bounded(t))
  {
    var t := Tick(b, d);
    AccountedStays(b, t, q);
    ChainsStay(b, t);
  }

  lemma AddEvolves(b: Broker, fields: Fields, floor: nat, q: Name)
    requires Shape(b)
    ensures Shape(Add(b, fields, floor)) && Evolves(b, Add(b, fields, floor), q)
  {
    assert b.top + 1 !in b.published;
  }

  lemma AddKeeps(b: Broker, fields: Fields, floor: nat, q: Name)
    requires Shape(b) && Accounted(b) && Chains(b)
    ensures var t := Add(b, fields, floor);
            Shape(t) && Accounted(t) && Chains(t) && Evolves(b, t, q) && (Bounded(b) ==> Bounded(t))
  {
    var t := Add(b, fields, floor);
    AddEvolves(b, fields, floor, q);
    AccountedStays(b, t, q);
    ChainsStay(b, t);
  }

  /** The next entries of the stream, in order, none skipped. */
  ghost predicate NextBatch(b: Broker, batch: seq<Id>) {
    && (forall i, j :: 0 <= i < j < |batch| ==> batch[i] < batch[j])
    && (forall id :: id in batch ==> id in b.stream && id > b.last)
    && (forall id :: id in b.stream && b.last < id <= Ends(batch, b.last) ==> id in batch)
  }

  lemma ReadNewEvolves(b: Broker, p: Name, batch: seq<Id>)
    requires Shape(b) && NextBatch(b, batch)
    ensures var t := ReadNew(b, p, batch); Shape(t) && Evolves(b, t, p) && b.last <= t.last
  {
    var t := ReadNew(b, p, batch);
    BatchEnds(batch, b.last);
    assert batch != [] ==> t.last in batch;
  }

  lemma ReadNewKeeps(b: Broker, p: Name, batch: seq<Id>)
    requires Shape(b) && Accounted(b) && Chains(b) && NextBatch(b, batch)
    ensures var t := ReadNew(b, p, batch);
            Shape(t) && Accounted(t) && Chains(t) && Evolves(b, t, p) && (Bounded(b) ==> Bounded(t))
  {
    var t := ReadNew(b, p, batch);
    ReadNewEvolves(b, p, batch);
    AccountedStays(b, t, p);
    ChainsStay(b, t);
  }

  lemma ReadOwnEvolves(b: Broker, p: Name, batch: seq<Id>)
    requires Shape(b) && forall id :: id in batch ==> id in b.pending && b.pending[id].owner == p
    ensures Shape(ReadOwn(b, batch)) && Evolves(b, ReadOwn(b, batch), p)
  {
  }

  lemma ReadOwnKeeps(b: Broker, p: Name, batch: seq<Id>)
    requires Shape(b) && Accounted(b) && Chains(b)
    requires forall id :: id in batch ==> id in b.pending && b.pending[id].owner == p
    ensures var t := ReadOwn(b, batch);
            Shape(t) && Accounted(t) && Chains(t) && Evolves(b, t, p) && (Bounded(b) ==> Bounded(t))
  {
    var t := ReadOwn(b, batch);
    ReadOwnEvolves(b, p, batch);
    AccountedStays(b, t, p);
    assert t.taken == b.taken;
    ChainsStay(b, t);
  }

  lemma KeepKeeps(b: Broker, letter: Letter, q: Name)
    requires Shape(b) && Accounted(b) && Chains(b)
    ensures var t := Keep(b, letter);
            Shape(t) && Accounted(t) && Chains(t) && Evolves(b, t, q) && (Bounded(b) ==> Bounded(t))
  {
    AccountedStays(b, Keep(b, letter), q);
    ChainsStay(b, Keep(b, letter));
  }

  lemma NoteKeeps(b: Broker, d: Dispatch, q: Name)
    requires Shape(b) && Accounted(b) && Chains(b)
    ensures var t := Note(b, d);
            Shape(t) && Accounted(t) && Chains(t) && Evolves(b, t, q) && (Bounded(b) ==> Bounded(t))
  {
    AccountedStays(b, Note(b, d), q);
    ChainsStay(b, Note(b, d));
  }

  lemma AcknowledgeKeeps(b: Broker, id: Id, q: Name)
    requires Shape(b) && Accounted(b) && Chains(b) && Explained(b, id)
    ensures var t := Acknowledge(b, id);
            Shape(t) && Accounted(t) && Chains(t) && Evolves(b, t, q) && (Bounded(b) ==> Bounded(t))
  {
    var t := Acknowledge(b, id);
    assert Shape(t) && Evolves(b, t, q);
    AccountedStays(b, t, q);
    ChainsStay(b, t);
  }

  /** What a sweep must know of an entry it asks for. */
  ghost predicate Claimable(b: Broker, p: Name, id: Id) {
    Idle(b, id) ==> b.pending[id].owner != p
  }

  lemma ClaimKeepsChain(b: Broker, p: Name, ids: seq<Id>, tombstones: bool, id: Id)
    requires Shape(b) && id in b.taken && Chain(b, id) && Claimable(b, p, id)
    ensures var t := Claim(b, p, ids, tombstones); id in t.taken && Chain(t, id)
  {
    var t := Claim(b, p, ids, tombstones);
    if Wins(b, ids, tombstones, id) {
      var was := b.taken[id];
      assert t.taken[id] == was + [Takeover(b.pending[id].owner, p, b.clock)];
      assert t.pending[id] == Owned(p, b.pending[id].deliveries + 1, b.clock);
    } else {
      assert t.taken[id] == b.taken[id];
    }
  }

  lemma ClaimEvolves(b: Broker, p: Name, ids: seq<Id>, tombstones: bool)
    requires Shape(b)
    ensures Shape(Claim(b, p, ids, tombstones)) && Evolves(b, Claim(b, p, ids, tombstones), p)
  {
  }

  lemma ClaimAccounts(b: Broker, p: Name, ids: seq<Id>, tombstones: bool)
    requires Shape(b) && Accounted(b)
    ensures Accounted(Claim(b, p, ids, tombstones))
  {
    var t := Claim(b, p, ids, tombstones);
    ClaimEvolves(b, p, ids, tombstones);
    forall id | id in b.pending && id !in t.pending ensures Explained(b, id) {
      assert Drops(b, ids, tombstones, id);
    }
    AccountedStays(b, t, p);
  }

  lemma ClaimKeeps(b: Broker, p: Name, ids: seq<Id>, tombstones: bool)
    requires Shape(b) && Accounted(b) && Chains(b)
    requires forall id :: id in ids ==> Claimable(b, p, id)
    ensures var t := Claim(b, p, ids, tombstones);
            Shape(t) && Accounted(t) && Chains(t) && Evolves(b, t, p)
  {
    ClaimEvolves(b, p, ids, tombstones);
    ClaimAccounts(b, p, ids, tombstones);
    ClaimChains(b, p, ids, tombstones);
  }

  lemma ClaimChains(b: Broker, p: Name, ids: seq<Id>, tombstones: bool)
    requires Shape(b) && Chains(b)
    requires forall id :: id in ids ==> Claimable(b, p, id)
    ensures Chains(Claim(b, p, ids, tombstones))
  {
    var t := Claim(b, p, ids, tombstones);
    forall id | id in t.taken ensures Chain(t, id) {
      assert Chain(b, id);
      if id in ids {
        ClaimKeepsChain(b, p, ids, tombstones, id);
      } else {
        assert t.taken[id] == b.taken[id];
      }
    }
  }

  /** No entry moves a third time if a sweep only wins one that was delivered less
      than three times. */
  lemma ClaimStaysBounded(b: Broker, p: Name, ids: seq<Id>, tombstones: bool)
    requires Shape(b) && Chains(b) && Bounded(b)
    requires forall id :: id in ids && Idle(b, id) ==> b.pending[id].deliveries < MAX_DELIVERIES
    ensures Bounded(Claim(b, p, ids, tombstones))
  {
    var t := Claim(b, p, ids, tombstones);
    forall id | id in t.taken ensures |t.taken[id]| < MAX_DELIVERIES {
      assert Chain(b, id);
    }
  }

  lemma BatchEnds(batch: seq<Id>, otherwise: nat)
    requires forall i, j :: 0 <= i < j < |batch| ==> batch[i] < batch[j]
    requires forall id :: id in batch ==> otherwise < id
    ensures otherwise <= Ends(batch, otherwise)
    ensures forall id :: id in batch ==> id <= Ends(batch, otherwise)
  {
    if batch != [] {
      assert batch[|batch| - 1] in batch;
    }
  }
}
