/** Any number of requests against one store: who runs, who is replayed, and what
    a replay carries. Begin, Complete and Abort are atomic, as the store's lock
    makes them; clocks are read by the requests and passed in. */
module IdempotencyProtocol {
  import opened Options
  import opened IdempotencyRows
  import opened Recording

  /** A handler that is running under a key it reserved at `begunAt`. */
  datatype Run = Run(key: Key, digest: string, begunAt: int)

  /** A run whose response was recorded, with everything its handler did. */
  datatype Completed = Completed(key: Key, digest: string, ops: seq<Op>)

  /** A request that was answered from a record. */
  datatype Replayed = Replayed(key: Key, digest: string, resp: Response)

  datatype State = State(
    ring: Ring, ttl: int, budget: int,
    rows: seq<Row>,
    running: map<nat, Run>,
    completed: seq<Completed>,
    replays: seq<Replayed>,
    clock: int)

  datatype Action =
    | ActBegin(id: nat, now: int, key: Key, digest: string)
    | ActReturn(id: nat, now: int, ops: seq<Op>, cost: int, kept: seq<Row>)
    | ActPanic(id: nat)

  ghost predicate Starts(s: State) {
    s.rows == [] && s.running == map[] && s.completed == [] && s.replays == [] && s.ttl > 0 && s.budget > 0
  }

  function NewRow(s: State, a: Action): Row
    requires a.ActReturn? && a.id in s.running && Recorded(s.ring, s.running[a.id].digest, a.ops).Some?
  {
    var r := s.running[a.id];
    Row(r.key, Recorded(s.ring, r.digest, a.ops), a.now + s.ttl, a.cost)
  }

  predicate Records(s: State, a: Action)
    requires a.ActReturn? && a.id in s.running
  {
    Recorded(s.ring, s.running[a.id].digest, a.ops).Some?
  }

  ghost predicate Enabled(s: State, a: Action) {
    match a
    case ActBegin(id, _, _, _) => id !in s.running
    case ActReturn(id, _, _, cost, kept) =>
      id in s.running && cost >= 0 && (Records(s, a) ==> Fitted(Placed(s.rows, NewRow(s, a)), kept, s.budget))
    case ActPanic(id) => id in s.running
  }

  function Max(a: int, b: int): int {
    if a < b then b else a
  }

  ghost function Step(s: State, a: Action): State
    requires Enabled(s, a)
  {
    match a
    case ActBegin(id, now, key, digest) =>
      var (rows, begun) := Reserve(s.rows, now, s.ttl, key);
      var t := s.(rows := rows, clock := Max(s.clock, now));
      (match begun
       case Fresh => t.(running := s.running[id := Run(key, digest, now)])
       case InFlight => t
       case Replay(resp) =>
         if resp.fingerprint == digest then t.(replays := s.replays + [Replayed(key, digest, resp)]) else t)
    case ActReturn(id, now, ops, _, kept) =>
      var r := s.running[id];
      var t := s.(running := s.running - {id}, clock := Max(s.clock, now));
      if Records(s, a) then
        t.(rows := kept, completed := s.completed + [Completed(r.key, r.digest, ops)])
      else
        t.(rows := Aborted(s.rows, r.key))
    case ActPanic(id) =>
      s.(running := s.running - {id}, rows := Aborted(s.rows, s.running[id].key))
  }

  /** No run outlives the TTL: a request that begins while a handler runs reads a
      clock no later than that handler's reservation lasts. */
  ghost predicate InTime(s: State, a: Action) {
    a.ActBegin? ==> forall id :: id in s.running ==> a.now <= s.running[id].begunAt + s.ttl
  }

  /** Clocks do not go back in the order the lock is taken. */
  ghost predicate Forward(s: State, a: Action) {
    (a.ActBegin? || a.ActReturn?) ==> s.clock <= a.now
  }

  ghost predicate IsRun(states: seq<State>, actions: seq<Action>) {
    && |states| == |actions| + 1 && Starts(states[0])
    && forall i :: 0 <= i < |actions| ==>
         Enabled(states[i], actions[i]) && states[i + 1] == Step(states[i], actions[i])
  }

  // ----- the invariant

  function Reservation(s: State, r: Run): Row {
    Row(r.key, None, r.begunAt + s.ttl, 0)
  }

  /** Running handlers and reservations match one to one. */
  ghost predicate Reserved(s: State) {
    && (forall id :: id in s.running ==> Reservation(s, s.running[id]) in s.rows)
    && (forall a, b :: a in s.running && b in s.running && s.running[a].key == s.running[b].key ==> a == b)
    && (forall row :: row in s.rows && row.resp.None? ==> HasRunner(s, row.key))
  }

  ghost predicate HasRunner(s: State, key: Key) {
    exists id :: id in s.running && s.running[id].key == key
  }

  ghost predicate MadeBy(s: State, d: Completed, key: Key, resp: Response) {
    d in s.completed && d.key == key && Recorded(s.ring, d.digest, d.ops) == Some(resp)
  }

  /** Every record and every replay goes back to a run that really ended so. */
  ghost predicate Traced(s: State) {
    && (forall row :: row in s.rows && row.resp.Some? ==> exists d :: MadeBy(s, d, row.key, row.resp.value))
    && (forall p :: p in s.replays ==> exists d :: MadeBy(s, d, p.key, p.resp) && d.digest == p.digest)
  }

  ghost predicate Inv(s: State) {
    Good(s.rows) && s.ttl > 0 && s.budget > 0 && Reserved(s) && Traced(s)
  }

  lemma GoodKeysAgree(rows: seq<Row>, a: Row, b: Row)
    requires Distinct(rows) && a in rows && b in rows && a.key == b.key
    ensures a == b
  {
  }

  lemma FindIsMember(rows: seq<Row>, row: Row)
    requires Distinct(rows) && row in rows
    ensures Find(rows, row.key) == Some(row)
  {
    GoodKeysAgree(rows, row, Find(rows, row.key).value);
  }

  lemma TracedGrows(s: State, t: State)
    requires Traced(s) && s.ring == t.ring && s.completed <= t.completed
    requires forall row :: row in t.rows && row.resp.Some? ==>
               row in s.rows || exists d :: MadeBy(t, d, row.key, row.resp.value)
    requires forall p :: p in t.replays ==>
               p in s.replays || exists d :: MadeBy(t, d, p.key, p.resp) && d.digest == p.digest
    ensures Traced(t)
  {
    assert forall d, k, r :: MadeBy(s, d, k, r) ==> MadeBy(t, d, k, r);
  }

  // ----- what each store operation does to the reservations

  lemma AfterCollect(rows: seq<Row>, now: int)
    requires Good(rows)
    ensures Good(Collected(rows, now)) && (Sorted(rows) ==> Sorted(Collected(rows, now)))
    ensures forall r :: r in Collected(rows, now) ==> r in rows
    ensures forall r :: r in rows && now <= r.expiresAt ==> r in Collected(rows, now)
  {
    CollectedIsExact(rows, now);
    SubSuffix(rows, Prefix(rows, now));
    SubIsGood(Collected(rows, now), rows);
  }

  lemma AfterAbort(rows: seq<Row>, row: Row)
    requires Good(rows) && row in rows && row.resp.None?
    ensures Good(Aborted(rows, row.key)) && Find(Aborted(rows, row.key), row.key).None?
    ensures Sorted(rows) ==> Sorted(Aborted(rows, row.key))
    ensures forall r :: r in Aborted(rows, row.key) <==> r in rows && r.key != row.key
  {
    FindIsMember(rows, row);
    WithoutIsSub(rows, row.key);
    SubIsGood(Without(rows, row.key), rows);
    WithoutMembers(rows, row.key);
  }

  lemma AfterWrite(rows: seq<Row>, row: Row, kept: seq<Row>, budget: int)
    requires Good(rows) && row.charge >= 0 && row.resp.Some? && Fitted(Placed(rows, row), kept, budget)
    ensures Good(kept) && Total(kept) <= budget
    ensures forall r :: r in kept ==> r == row || (r in rows && r.key != row.key)
    ensures forall r :: r in rows && r.key != row.key && r.resp.None? ==> r in kept
    ensures Sorted(rows) && (forall r :: r in rows ==> r.expiresAt <= row.expiresAt) ==> Sorted(kept)
  {
    var placed := Placed(rows, row);
    PlacedKeeps(rows, row);
    WithoutMembers(rows, row.key);
    assert forall r :: r in placed <==> r in Without(rows, row.key) || r == row;
    FittedIsExact(placed, kept, kept, budget);
  }

  lemma EndReserved(s: State, t: State, id: nat)
    requires Reserved(s) && id in s.running && t.running == s.running - {id} && t.ttl == s.ttl
    requires forall r :: r in s.rows && r.key != s.running[id].key && r.resp.None? ==> r in t.rows
    requires forall r :: r in t.rows && r.resp.None? ==> r in s.rows && r.key != s.running[id].key
    ensures Reserved(t)
  {
    forall k | k in t.running ensures Reservation(t, t.running[k]) in t.rows {
      assert Reservation(s, s.running[k]) in s.rows;
    }
    forall r | r in t.rows && r.resp.None? ensures HasRunner(t, r.key) {
      var k :| k in s.running && s.running[k].key == r.key;
      assert k in t.running && t.running[k] == s.running[k];
    }
  }

  lemma SameReserved(s: State, t: State)
    requires Reserved(s) && t.running == s.running && t.ttl == s.ttl
    requires forall id :: id in s.running ==> Reservation(s, s.running[id]) in t.rows
    requires forall r :: r in t.rows ==> r in s.rows
    ensures Reserved(t)
  {
    assert forall k :: HasRunner(s, k) ==> HasRunner(t, k);
    assert forall id :: id in t.running ==> Reservation(t, t.running[id]) == Reservation(s, s.running[id]);
  }

  lemma FreshReserved(s: State, t: State, id: nat, row: Row)
    requires Reserved(s) && id !in s.running && t.ttl == s.ttl && row.resp.None?
    requires id in t.running && t.running == s.running[id := t.running[id]] && row == Reservation(t, t.running[id])
    requires forall r :: r in t.rows ==> r == row || r in s.rows
    requires forall k :: k in s.running ==> s.running[k].key != row.key
    requires row in t.rows && forall k :: k in s.running ==> Reservation(s, s.running[k]) in t.rows
    ensures Reserved(t)
  {
    forall k | k in t.running ensures Reservation(t, t.running[k]) in t.rows {
      assert k != id ==> t.running[k] == s.running[k];
    }
    forall r | r in t.rows && r.resp.None? ensures HasRunner(t, r.key) {
      if r == row {
        assert t.running[id].key == r.key;
      } else {
        var k :| k in s.running && s.running[k].key == r.key;
        assert t.running[k] == s.running[k];
      }
    }
  }

  /** A begin, when nobody is past their time: nothing but expired records goes, and
      a run starts only under a key nothing holds. */
  lemma BeginKeeps(s: State, a: Action)
    requires Inv(s) && Enabled(s, a) && a.ActBegin? && InTime(s, a)
    ensures Inv(Step(s, a))
  {
    var live, t := Collected(s.rows, a.now), Step(s, a);
    LiveReservations(s, a);
    BeginIs(s, a);
    match Find(live, a.key)
    case None => BeginFresh(s, a, t, live);
    case Some(found) => BeginFound(s, a, t, live, found);
  }

  lemma BeginIs(s: State, a: Action)
    requires Enabled(s, a) && a.ActBegin?
    ensures var live, t := Collected(s.rows, a.now), Step(s, a);
            match Find(live, a.key)
            case None =>
              t == s.(rows := live + [Row(a.key, None, a.now + s.ttl, 0)],
                      running := s.running[a.id := Run(a.key, a.digest, a.now)], clock := t.clock)
            case Some(found) =>
              && t == s.(rows := live, replays := t.replays, clock := t.clock)
              && (t.replays == s.replays ||
                  (found.resp.Some? && found.resp.value.fingerprint == a.digest
                   && t.replays == s.replays + [Replayed(a.key, a.digest, found.resp.value)]))
  {
  }

  lemma LiveReservations(s: State, a: Action)
    requires Good(s.rows) && Reserved(s) && a.ActBegin? && InTime(s, a)
    ensures var live := Collected(s.rows, a.now);
            && Good(live) && (forall r :: r in live ==> r in s.rows)
            && forall id :: id in s.running ==> Reservation(s, s.running[id]) in live
  {
    AfterCollect(s.rows, a.now);
  }

  lemma BeginFresh(s: State, a: Action, t: State, live: seq<Row>)
    requires Inv(s) && a.ActBegin? && a.id !in s.running && Good(live) && Find(live, a.key).None?
    requires forall r :: r in live ==> r in s.rows
    requires forall id :: id in s.running ==> Reservation(s, s.running[id]) in live
    requires t == s.(rows := live + [Row(a.key, None, a.now + s.ttl, 0)],
                     running := s.running[a.id := Run(a.key, a.digest, a.now)], clock := t.clock)
    ensures Inv(t)
  {
    var row := Row(a.key, None, a.now + s.ttl, 0);
    WithoutTotal(live, a.key);
    PlacedKeeps(live, row);
    assert forall r :: r in t.rows <==> r in live || r == row;
    FreshReserved(s, t, a.id, row);
    TracedGrows(s, t);
  }

  lemma BeginFound(s: State, a: Action, t: State, live: seq<Row>, found: Row)
    requires Inv(s) && a.ActBegin? && Good(live) && found in live && found.key == a.key
    requires forall r :: r in live ==> r in s.rows
    requires forall id :: id in s.running ==> Reservation(s, s.running[id]) in live
    requires t == s.(rows := live, replays := t.replays, clock := t.clock)
    requires t.replays == s.replays ||
             (found.resp.Some? && found.resp.value.fingerprint == a.digest
              && t.replays == s.replays + [Replayed(a.key, a.digest, found.resp.value)])
    ensures Inv(t)
  {
    SameReserved(s, t);
    if found.resp.Some? {
      FoundIsTraced(s, t, found);
    }
    TracedGrows(s, t);
  }

  lemma FoundIsTraced(s: State, t: State, row: Row)
    requires Traced(s) && row in s.rows && row.resp.Some? && t.ring == s.ring && t.completed == s.completed
    ensures exists d :: MadeBy(t, d, row.key, row.resp.value) && d.digest == row.resp.value.fingerprint
  {
    var d :| MadeBy(s, d, row.key, row.resp.value);
    assert MadeBy(t, d, row.key, row.resp.value);
  }

  lemma AbortKeeps(s: State, t: State, id: nat)
    requires Inv(s) && id in s.running
    requires t == s.(running := s.running - {id}, rows := Aborted(s.rows, s.running[id].key), clock := t.clock)
    ensures Inv(t) && Find(t.rows, s.running[id].key).None?
  {
    AfterAbort(s.rows, Reservation(s, s.running[id]));
    EndReserved(s, t, id);
    TracedGrows(s, t);
  }

  lemma CompleteKeeps(s: State, a: Action)
    requires Inv(s) && Enabled(s, a) && a.ActReturn? && Records(s, a)
    ensures Inv(Step(s, a))
  {
    var t, row := Step(s, a), NewRow(s, a);
    AfterWrite(s.rows, row, a.kept, s.budget);
    EndReserved(s, t, a.id);
    var d := Completed(row.key, s.running[a.id].digest, a.ops);
    assert MadeBy(t, d, row.key, row.resp.value);
    TracedGrows(s, t);
  }

  lemma StepKeeps(s: State, a: Action)
    requires Inv(s) && Enabled(s, a) && InTime(s, a)
    ensures Inv(Step(s, a))
  {
    match a
    case ActBegin(_, _, _, _) => BeginKeeps(s, a);
    case ActReturn(id, _, _, _, _) =>
      if Records(s, a) {
        CompleteKeeps(s, a);
      } else {
        AbortKeeps(s, Step(s, a), id);
      }
    case ActPanic(id) => AbortKeeps(s, Step(s, a), id);
  }

  lemma {:induction false} RunKeeps(states: seq<State>, actions: seq<Action>, i: nat)
    requires IsRun(states, actions) && i <= |actions|
    requires forall k :: 0 <= k < i ==> InTime(states[k], actions[k])
    ensures Inv(states[i])
  {
    if i > 0 {
      RunKeeps(states, actions, i - 1);
      StepKeeps(states[i - 1], actions[i - 1]);
    }
  }

  // ----- what the ring promises

  /** While no run outlives the TTL, no two handlers ever run under one key. */
  lemma RunsNeverOverlap(states: seq<State>, actions: seq<Action>, i: nat, a: nat, b: nat)
    requires IsRun(states, actions) && i <= |actions|
    requires forall k :: 0 <= k < i ==> InTime(states[k], actions[k])
    requires a in states[i].running && b in states[i].running && states[i].running[a].key == states[i].running[b].key
    ensures a == b
  {
    RunKeeps(states, actions, i);
  }

  /** Over a queue in expiry order only a reservation past its end lets a second run in. */
  lemma SecondRunMeansPastTheEnd(s: State, a: Action, id: nat)
    requires Inv(s) && Sorted(s.rows) && Enabled(s, a) && a.ActBegin?
    requires id in s.running && s.running[id].key == a.key
    ensures a.id in Step(s, a).running <==> a.now > s.running[id].begunAt + s.ttl
  {
    var row := Reservation(s, s.running[id]);
    var live := Collected(s.rows, a.now);
    AfterCollect(s.rows, a.now);
    CollectedIsExact(s.rows, a.now);
    if a.now <= row.expiresAt {
      FindIsMember(live, row);
    } else if Find(live, a.key).Some? {
      GoodKeysAgree(s.rows, row, Find(live, a.key).value);
    }
  }

  /** Over clocks that do not go back the queue is always in expiry order. */
  ghost predicate Ordered(s: State) {
    Sorted(s.rows) && forall r :: r in s.rows ==> r.expiresAt <= s.clock + s.ttl
  }

  lemma ForwardKeepsOrder(s: State, a: Action)
    requires Inv(s) && Ordered(s) && Enabled(s, a) && Forward(s, a)
    ensures Ordered(Step(s, a))
  {
    match a
    case ActBegin(_, now, key, _) =>
      ReserveKeeps(s.rows, now, s.ttl, key);
      AfterCollect(s.rows, now);
    case ActReturn(id, _, _, _, kept) =>
      if Records(s, a) {
        AfterWrite(s.rows, NewRow(s, a), kept, s.budget);
      } else {
        AfterAbort(s.rows, Reservation(s, s.running[id]));
      }
    case ActPanic(id) => AfterAbort(s.rows, Reservation(s, s.running[id]));
  }

  lemma {:induction false} ForwardRunsAreOrdered(states: seq<State>, actions: seq<Action>, i: nat)
    requires IsRun(states, actions) && i <= |actions|
    requires forall k :: 0 <= k < i ==> InTime(states[k], actions[k]) && Forward(states[k], actions[k])
    ensures Inv(states[i]) && Ordered(states[i])
  {
    RunKeeps(states, actions, i);
    if i > 0 {
      ForwardRunsAreOrdered(states, actions, i - 1);
      ForwardKeepsOrder(states[i - 1], actions[i - 1]);
    }
  }

  /** The bound is exact: in a run over clocks that do not go back, whose runs have kept
      to the TTL so far, a request starts a handler under a key another still runs under
      if and only if its clock is past the end of that run's reservation. */
  lemma OverlapOnlyPastTheTTL(states: seq<State>, actions: seq<Action>, i: nat, id: nat)
    requires IsRun(states, actions) && i < |actions| && actions[i].ActBegin?
    requires forall k :: 0 <= k < i ==> InTime(states[k], actions[k]) && Forward(states[k], actions[k])
    requires id in states[i].running && states[i].running[id].key == actions[i].key
    ensures actions[i].id in states[i + 1].running <==>
              actions[i].now > states[i].running[id].begunAt + states[i].ttl
  {
    ForwardRunsAreOrdered(states, actions, i);
    SecondRunMeansPastTheEnd(states[i], actions[i], id);
  }

  /** A record leaves only by expiring in front of a begin or by being evicted for a
      newer one, and until it does no handler starts under its key. */
  lemma RecordHoldsItsKey(s: State, a: Action, row: Row)
    requires Inv(s) && Enabled(s, a) && row in s.rows && row.resp.Some?
    ensures row in Step(s, a).rows
         || (a.ActBegin? && a.now > row.expiresAt)
         || (a.ActReturn? && Records(s, a) && row in Placed(s.rows, NewRow(s, a)) && row !in a.kept)
    ensures a.ActBegin? && a.key == row.key && a.now <= row.expiresAt ==> Step(s, a).running == s.running
  {
    if a.ActBegin? {
      if a.now <= row.expiresAt {
        BeginMeetsRecord(s, a, row);
      }
    } else {
      OtherKey(s, a.id, row);
    }
  }

  lemma BeginMeetsRecord(s: State, a: Action, row: Row)
    requires Good(s.rows) && Enabled(s, a) && a.ActBegin? && row in s.rows && row.resp.Some? && a.now <= row.expiresAt
    ensures row in Step(s, a).rows
    ensures a.key == row.key ==> Step(s, a).running == s.running
  {
    AfterCollect(s.rows, a.now);
    if a.key == row.key {
      FindIsMember(Collected(s.rows, a.now), row);
    }
  }

  lemma OtherKey(s: State, id: nat, row: Row)
    requires Good(s.rows) && Reserved(s) && id in s.running && row in s.rows && row.resp.Some?
    ensures row.key != s.running[id].key
    ensures forall fresher: Row :: fresher.key == s.running[id].key ==> row in Placed(s.rows, fresher)
    ensures row in Aborted(s.rows, s.running[id].key)
  {
    if row.key == s.running[id].key {
      GoodKeysAgree(s.rows, row, Reservation(s, s.running[id]));
    }
    WithoutMembers(s.rows, s.running[id].key);
  }

  /** Step k neither collects the record nor evicts it. */
  ghost predicate Spares(s: State, a: Action, row: Row)
    requires Enabled(s, a)
  {
    && (a.ActBegin? ==> a.now <= row.expiresAt)
    && (a.ActReturn? && Records(s, a) && row in Placed(s.rows, NewRow(s, a)) ==> row in a.kept)
  }

  ghost predicate SparedBetween(states: seq<State>, actions: seq<Action>, i: nat, j: nat, row: Row)
    requires IsRun(states, actions) && i <= j <= |actions|
  {
    forall k :: i <= k < j ==> Spares(states[k], actions[k], row)
  }

  lemma {:induction false} SparedThroughout(states: seq<State>, actions: seq<Action>, i: nat, j: nat, row: Row)
    requires IsRun(states, actions) && i <= j <= |actions|
    requires forall k :: 0 <= k < j ==> InTime(states[k], actions[k])
    requires row in states[i].rows && row.resp.Some? && SparedBetween(states, actions, i, j, row)
    ensures row in states[j].rows
    decreases j - i
  {
    if i < j {
      var s, a := states[j - 1], actions[j - 1];
      assert Spares(s, a, row);
      SparedThroughout(states, actions, i, j - 1, row);
      RunKeeps(states, actions, j - 1);
      SparedStays(s, a, row);
      assert states[j - 1 + 1] == Step(s, a);
    }
  }

  /** So after a completed run no handler runs on its key, at any later moment, as long
      as the record has neither expired before a begin nor been evicted. */
  lemma NoRunWhileRecorded(states: seq<State>, actions: seq<Action>, i: nat, j: nat, row: Row)
    requires IsRun(states, actions) && i <= j <= |actions|
    requires forall k :: 0 <= k < j ==> InTime(states[k], actions[k])
    requires row in states[i].rows && row.resp.Some? && SparedBetween(states, actions, i, j, row)
    ensures row in states[j].rows
    ensures forall id :: id in states[j].running ==> states[j].running[id].key != row.key
  {
    SparedThroughout(states, actions, i, j, row);
    RunKeeps(states, actions, j);
    NobodyRuns(states[j], row);
  }

  lemma SparedStays(s: State, a: Action, row: Row)
    requires Inv(s) && Enabled(s, a) && row in s.rows && row.resp.Some? && Spares(s, a, row)
    ensures row in Step(s, a).rows
  {
    RecordHoldsItsKey(s, a, row);
  }

  lemma NobodyRuns(s: State, row: Row)
    requires Good(s.rows) && Reserved(s) && row in s.rows && row.resp.Some?
    ensures forall id :: id in s.running ==> s.running[id].key != row.key
  {
    forall id | id in s.running ensures s.running[id].key != row.key {
      OtherKey(s, id, row);
    }
  }

  // ----- what a request is told

  datatype Told = Started | StillRunning | OtherRequest | Repeated(resp: Response)

  /** What the ring makes of the store's answer. */
  function TellOf(begun: Begun, digest: string): Told {
    match begun
    case Fresh => Started
    case InFlight => StillRunning
    case Replay(resp) => if resp.fingerprint == digest then Repeated(resp) else OtherRequest
  }

  function ToldTo(s: State, a: Action): Told
    requires a.ActBegin?
  {
    TellOf(Reserve(s.rows, a.now, s.ttl, a.key).1, a.digest)
  }

  predicate Unexpired(s: State, a: Action, row: Row)
    requires a.ActBegin?
  {
    row in s.rows && row.key == a.key && a.now <= row.expiresAt
  }

  /** An unexpired row decides the answer: its record is repeated to the same request,
      refused to another, and a reservation means the handler is still running. Where
      there is none, and the queue is in expiry order, the handler starts. */
  lemma RowDecides(s: State, a: Action)
    requires Inv(s) && Enabled(s, a) && a.ActBegin?
    ensures forall row :: Unexpired(s, a, row) ==>
              match row.resp
              case None => ToldTo(s, a) == StillRunning
              case Some(resp) => ToldTo(s, a) == if resp.fingerprint == a.digest then Repeated(resp) else OtherRequest
    ensures Sorted(s.rows) && (forall row :: !Unexpired(s, a, row)) ==> ToldTo(s, a) == Started
  {
    var live := Collected(s.rows, a.now);
    AfterCollect(s.rows, a.now);
    CollectedIsExact(s.rows, a.now);
    forall row | Unexpired(s, a, row) ensures Find(live, a.key) == Some(row) {
      FindIsMember(live, row);
    }
    if Sorted(s.rows) && Find(live, a.key).Some? {
      assert Unexpired(s, a, Find(live, a.key).value);
    }
  }

  /** What is told is what is done, and nothing else. */
  lemma TellingIsDoing(s: State, a: Action)
    requires Enabled(s, a) && a.ActBegin?
    ensures var t := Step(s, a);
            && t.running == (if ToldTo(s, a) == Started then s.running[a.id := Run(a.key, a.digest, a.now)] else s.running)
            && t.replays == s.replays + (match ToldTo(s, a) case Repeated(resp) => [Replayed(a.key, a.digest, resp)] case _ => [])
            && t.completed == s.completed
  {
  }

  /** Some handler runs under the key, and its reservation has not run out. */
  ghost predicate RunningUnder(s: State, key: Key, now: int) {
    exists id :: id in s.running && s.running[id].key == key && now <= s.running[id].begunAt + s.ttl
  }

  lemma RunnersHaveRows(s: State, a: Action)
    requires Inv(s) && Enabled(s, a) && a.ActBegin?
    ensures RunningUnder(s, a.key, a.now) <==> exists row :: Unexpired(s, a, row) && row.resp.None?
  {
    if RunningUnder(s, a.key, a.now) {
      var id :| id in s.running && s.running[id].key == a.key && a.now <= s.running[id].begunAt + s.ttl;
      assert Unexpired(s, a, Reservation(s, s.running[id]));
    }
    if row :| Unexpired(s, a, row) && row.resp.None? {
      assert HasRunner(s, row.key);
      var id :| id in s.running && s.running[id].key == row.key;
      GoodKeysAgree(s.rows, row, Reservation(s, s.running[id]));
    }
  }

  /** In a run over clocks that do not go back, whose runs kept to the TTL so far, a
      request is told "still running" exactly if a handler runs under its key within its
      reservation, is answered from a record exactly if there is an unexpired one of its
      digest, is refused as another request exactly if there is one of another digest,
      and starts its handler exactly if there is neither. */
  lemma EveryBeginIsAnswered(states: seq<State>, actions: seq<Action>, i: nat)
    requires IsRun(states, actions) && i < |actions| && actions[i].ActBegin?
    requires forall k :: 0 <= k < i ==> InTime(states[k], actions[k]) && Forward(states[k], actions[k])
    ensures var s, a := states[i], actions[i];
            && (ToldTo(s, a) == StillRunning <==> RunningUnder(s, a.key, a.now))
            && (forall resp :: ToldTo(s, a) == Repeated(resp) <==> RecordFor(s, a, resp) && resp.fingerprint == a.digest)
            && (ToldTo(s, a) == OtherRequest <==> exists resp :: RecordFor(s, a, resp) && resp.fingerprint != a.digest)
            && (ToldTo(s, a) == Started <==> forall row :: !Unexpired(s, a, row))
  {
    var s, a := states[i], actions[i];
    ForwardRunsAreOrdered(states, actions, i);
    RowDecides(s, a);
    RunnersHaveRows(s, a);
    if row :| Unexpired(s, a, row) {
      OneRow(s, a, row);
    }
  }

  ghost predicate RecordFor(s: State, a: Action, resp: Response)
    requires a.ActBegin?
  {
    exists row :: Unexpired(s, a, row) && row.resp == Some(resp)
  }

  lemma OneRow(s: State, a: Action, row: Row)
    requires Good(s.rows) && a.ActBegin? && Unexpired(s, a, row)
    ensures forall other :: Unexpired(s, a, other) ==> other == row
    ensures forall resp :: RecordFor(s, a, resp) <==> row.resp == Some(resp)
  {
    forall other | Unexpired(s, a, other) ensures other == row {
      GoodKeysAgree(s.rows, other, row);
    }
  }

  /** A run that is kept is recorded, as its caller was answered and for a whole TTL,
      exactly if its charge alone is within the budget. */
  lemma KeptIsRecorded(s: State, a: Action)
    requires Inv(s) && Enabled(s, a) && a.ActReturn? && Records(s, a)
    ensures NewRow(s, a) in Step(s, a).rows <==> a.cost <= s.budget
    ensures NewRow(s, a).key == s.running[a.id].key && NewRow(s, a).expiresAt == a.now + s.ttl
    ensures NewRow(s, a).resp == Some(Response(Sent(a.ops).status, Headers(a.ops), Body(a.ops), s.running[a.id].digest))
  {
    WithoutMembers(s.rows, NewRow(s, a).key);
    NewestStays(Without(s.rows, NewRow(s, a).key), NewRow(s, a), a.kept, s.budget);
  }

  /** From a kept run to a retry: as long as the record is neither collected nor evicted,
      a request under the key within its time is answered with that run's response if it
      is the same request, refused if it is another, and never starts a handler. */
  lemma RetryIsReplayed(states: seq<State>, actions: seq<Action>, i: nat, j: nat)
    requires IsRun(states, actions) && i < j < |actions|
    requires forall k :: 0 <= k < j ==> InTime(states[k], actions[k])
    requires actions[i].ActReturn? && Records(states[i], actions[i]) && actions[i].cost <= states[i].budget
    requires SparedBetween(states, actions, i + 1, j, NewRow(states[i], actions[i]))
    requires actions[j].ActBegin? && actions[j].key == states[i].running[actions[i].id].key
    requires actions[j].now <= actions[i].now + states[i].ttl
    ensures var ops, digest := actions[i].ops, states[i].running[actions[i].id].digest;
            var resp := Response(Sent(ops).status, Headers(ops), Body(ops), digest);
            && states[j + 1].running == states[j].running
            && states[j + 1].replays == states[j].replays +
                 (if digest == actions[j].digest then [Replayed(actions[j].key, digest, resp)] else [])
  {
    var row := NewRow(states[i], actions[i]);
    RunKeeps(states, actions, i);
    KeptIsRecorded(states[i], actions[i]);
    assert states[i + 1] == Step(states[i], actions[i]);
    SparedThroughout(states, actions, i + 1, j, row);
    RunKeeps(states, actions, j);
    assert states[j + 1] == Step(states[j], actions[j]);
    assert Unexpired(states[j], actions[j], row);
    RowDecides(states[j], actions[j]);
    TellingIsDoing(states[j], actions[j]);
  }

  /** A failed, refused, overflowing or panicking run leaves its key free. */
  lemma FailureFreesTheKey(s: State, a: Action)
    requires Inv(s) && Enabled(s, a) && (a.ActPanic? || (a.ActReturn? && !Records(s, a)))
    ensures Find(Step(s, a).rows, s.running[a.id].key).None?
  {
    AbortKeeps(s, Step(s, a), a.id);
  }

  /** Every replay goes to a request with the digest of the run it repeats, and says
      what that run's caller was sent: status and bytes always, the headers exactly
      if the handler put back those it changed afterwards. */
  lemma ReplayRepeatsARun(states: seq<State>, actions: seq<Action>, i: nat, p: Replayed)
    requires IsRun(states, actions) && i <= |actions|
    requires forall k :: 0 <= k < i ==> InTime(states[k], actions[k])
    requires p in states[i].replays
    ensures exists d :: d in states[i].completed && d.key == p.key && d.digest == p.digest
              && Keepable(states[i].ring, d.ops)
              && p.resp == Response(Sent(d.ops).status, Headers(d.ops), Body(d.ops), p.digest)
              && (p.resp.header == Sent(d.ops).header <==> PutBack(d.ops))
  {
    RunKeeps(states, actions, i);
    var d :| MadeBy(states[i], d, p.key, p.resp) && d.digest == p.digest;
    SameIffPutBack(d.ops);
  }
}
