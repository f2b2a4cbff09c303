/** The in-memory idempotency store as it is kept: a map, a queue beside it, a
    running byte total and the eviction counters, all updated in place. Every
    method does to the list of rows exactly what IdempotencyRows says. */
module IdempotencyStore {
  import opened Options
  import opened IdempotencyRows

  const DEFAULT_TTL := 24 * 60 * 60 * 1_000_000_000
  const DEFAULT_BUDGET := 0x400_0000
  const EVICTION_LOG_INTERVAL := 60 * 1_000_000_000

  /** The queue a list of rows is kept as. */
  function Queue(rows: seq<Row>): seq<Key> {
    seq(|rows|, i requires 0 <= i < |rows| => rows[i].key)
  }

  /** The map a list of rows is kept as. */
  function Index(rows: seq<Row>): map<Key, Row> {
    if rows == [] then map[] else Index(rows[1..])[rows[0].key := rows[0]]
  }

  /** list.Remove of the one node that holds the key. */
  function Unqueued(queue: seq<Key>, key: Key): seq<Key> {
    if queue == [] then []
    else if queue[0] == key then queue[1..]
    else [queue[0]] + Unqueued(queue[1..], key)
  }

  lemma {:induction false} IndexIsFind(rows: seq<Row>, key: Key)
    ensures Find(rows, key) == if key in Index(rows) then Some(Index(rows)[key]) else None
  {
    if rows != [] && rows[0].key != key {
      IndexIsFind(rows[1..], key);
    }
  }

  lemma {:induction false} IndexAt(rows: seq<Row>, i: nat)
    requires Distinct(rows) && i < |rows|
    ensures rows[i].key in Index(rows) && Index(rows)[rows[i].key] == rows[i]
  {
    if i > 0 {
      IndexAt(rows[1..], i - 1);
    }
  }

  lemma {:induction false} WithoutKept(rows: seq<Row>, key: Key)
    requires Distinct(rows)
    ensures Queue(Without(rows, key)) == Unqueued(Queue(rows), key)
    ensures Index(Without(rows, key)) == Index(rows) - {key}
  {
    if rows != [] {
      var rest := rows[1..];
      WithoutKept(rest, key);
      if rows[0].key == key {
        IndexIsFind(rest, key);
      } else {
        assert Queue(rows)[1..] == Queue(rest);
        assert Without(rows, key)[1..] == Without(rest, key);
      }
    }
  }

  lemma {:induction false} AppendKept(rows: seq<Row>, row: Row)
    requires forall r :: r in rows ==> r.key != row.key
    ensures Queue(rows + [row]) == Queue(rows) + [row.key]
    ensures Index(rows + [row]) == Index(rows)[row.key := row]
  {
    if rows == [] {
      assert [row][1..] == [];
    } else {
      assert rows[0] in rows && forall r :: r in rows[1..] ==> r in rows;
      AppendKept(rows[1..], row);
      assert (rows + [row])[1..] == rows[1..] + [row];
    }
  }

  lemma {:induction false} WithoutAbsent(rows: seq<Row>, key: Key)
    requires Find(rows, key).None?
    ensures Without(rows, key) == rows
  {
    WithoutTotal(rows, key);
  }

  lemma ReservationsNext(rows: seq<Row>, p: nat)
    requires p < |rows|
    ensures Reservations(rows[..p + 1]) == Reservations(rows[..p]) + if rows[p].resp.None? then [rows[p]] else []
  {
    assert rows[..p + 1] == rows[..p] + [rows[p]];
    ReservationsSplit(rows[..p], [rows[p]]);
    assert [rows[p]][1..] == [];
  }

  /** One step of the walk from the front: the first row not yet looked at is either
      a reservation, which stays, or a completed record, which can go. */
  lemma DropNext(rows: seq<Row>, p: nat)
    requires Good(rows) && p < |rows|
    ensures var i := |Reservations(rows[..p])|;
            && i < |Dropped(rows, p)| && Dropped(rows, p)[i] == rows[p]
            && (rows[p].resp.None? ==>
                  Dropped(rows, p + 1) == Dropped(rows, p) && |Reservations(rows[..p + 1])| == i + 1)
            && (rows[p].resp.Some? ==>
                  Dropped(rows, p + 1) == Without(Dropped(rows, p), rows[p].key) && |Reservations(rows[..p + 1])| == i)
  {
    var head, tail := rows[..p], rows[p..];
    ReservationsNext(rows, p);
    assert tail == [rows[p]] + rows[p + 1..];
    if rows[p].resp.None? {
      assert Reservations(head) + tail == Reservations(head) + [rows[p]] + rows[p + 1..];
    } else {
      ReservationsMembers(head);
      assert forall r :: r in Reservations(head) ==> r in head;
      WithoutSkips(Reservations(head), tail, rows[p].key);
    }
  }

  /** The walk has looked at p rows, i of them reservations, and never fitted. */
  ghost predicate Walked(rows: seq<Row>, kept: seq<Row>, budget: int, p: nat, i: nat) {
    && p <= |rows| && kept == Dropped(rows, p) && i == |Reservations(rows[..p])|
    && forall q: nat :: q < p ==> Over(rows, q, budget)
  }

  /** The walk itself, from row i on. */
  function Walk(rows: seq<Row>, i: nat, budget: int): (kept: seq<Row>)
    ensures |kept| <= |rows|
    decreases |rows|, |rows| - i
  {
    if i >= |rows| || Total(rows) <= budget then rows
    else if rows[i].resp.Some? then
      WithoutLength(rows, rows[i].key, i);
      Walk(Without(rows, rows[i].key), i, budget)
    else Walk(rows, i + 1, budget)
  }

  lemma {:induction false} WalkFits(rows: seq<Row>, kept: seq<Row>, budget: int, p: nat, i: nat)
    requires Good(rows) && budget > 0 && Walked(rows, kept, budget, p, i)
    ensures Total(Walk(kept, i, budget)) <= budget && Fitted(rows, Walk(kept, i, budget), budget)
    decreases |rows| - p
  {
    if i >= |kept| || Total(kept) <= budget {
      DroppedMembers(rows, p);
      assert FitsAt(rows, kept, budget, p);
    } else {
      DropNext(rows, p);
      assert Over(rows, p, budget);
      if kept[i].resp.Some? {
        WithoutLength(kept, kept[i].key, i);
        WalkFits(rows, Without(kept, kept[i].key), budget, p + 1, i);
      } else {
        WalkFits(rows, kept, budget, p + 1, i + 1);
      }
    }
  }

  /** Walking from the front finds the budget's cut. */
  lemma WalkIsFitted(rows: seq<Row>, budget: int)
    requires Good(rows) && budget > 0
    ensures Total(Walk(rows, 0, budget)) <= budget && Fitted(rows, Walk(rows, 0, budget), budget)
  {
    assert rows[..0] == [] && Dropped(rows, 0) == rows;
    assert Walked(rows, rows, budget, 0, 0);
    WalkFits(rows, rows, budget, 0, 0);
  }

  lemma {:induction false} ReservationsSplit(a: seq<Row>, b: seq<Row>)
    ensures Reservations(a + b) == Reservations(a) + Reservations(b)
  {
    if a == [] {
      assert a + b == b;
    } else {
      ReservationsSplit(a[1..], b);
      assert (a + b)[1..] == a[1..] + b;
      var first := if a[0].resp.None? then [a[0]] else [];
      assert first + (Reservations(a[1..]) + Reservations(b)) == (first + Reservations(a[1..])) + Reservations(b);
    }
  }

  lemma {:induction false} WithoutSkips(a: seq<Row>, b: seq<Row>, key: Key)
    requires forall r :: r in a ==> r.key != key
    ensures Without(a + b, key) == a + Without(b, key)
  {
    if a == [] {
      assert a + b == b && a + Without(b, key) == Without(b, key);
    } else {
      assert a[0] in a && forall r :: r in a[1..] ==> r in a;
      WithoutSkips(a[1..], b, key);
      assert (a + b)[1..] == a[1..] + b;
    }
  }

  /** Placing a row: MoveToBack where the key is held, PushBack where it is not. */
  lemma PlaceKept(rows: seq<Row>, row: Row)
    requires Good(rows) && row.charge >= 0 && (row.resp.None? ==> row.charge == 0)
    ensures Good(Placed(rows, row))
    ensures Queue(Placed(rows, row)) == Unqueued(Queue(rows), row.key) + [row.key]
    ensures Index(Placed(rows, row)) == Index(rows)[row.key := row]
    ensures Total(Placed(rows, row)) == Total(rows) + row.charge -
              (if row.key in Index(rows) then Index(rows)[row.key].charge else 0)
  {
    var w := Without(rows, row.key);
    PlacedKeeps(rows, row);
    assert Queue(w + [row]) == Unqueued(Queue(rows), row.key) + [row.key] && Index(w + [row]) == Index(rows)[row.key := row] by {
      WithoutKept(rows, row.key);
      WithoutMembers(rows, row.key);
      AppendKept(w, row);
    }
    WithoutTotal(rows, row.key);
    IndexIsFind(rows, row.key);
  }

  class MemoryIdempotencyStore {
    const ttl: int
    const budget: int
    var entry: map<Key, Row>
    var queue: seq<Key>
    var charge: int
    var evictedTotal: nat
    var evictionsPending: nat
    var evictionLogAt: int
    ghost var contents: seq<Row>

    /** The three copies of the truth agree: the map and the queue hold the same
        rows, and the running total is the sum of what they cost. */
    ghost predicate Valid()
      reads this
    {
      && Good(contents)
      && queue == Queue(contents) && entry == Index(contents) && charge == Total(contents)
      && ttl > 0 && budget > 0
    }

    constructor (ttl: int, budget: int)
      ensures Valid() && contents == [] && evictedTotal == evictionsPending == 0
      ensures this.ttl == (if ttl <= 0 then DEFAULT_TTL else ttl)
      ensures this.budget == (if budget <= 0 then DEFAULT_BUDGET else budget)
    {
      this.ttl := if ttl <= 0 then DEFAULT_TTL else ttl;
      this.budget := if budget <= 0 then DEFAULT_BUDGET else budget;
      entry, queue, charge, contents := map[], [], 0, [];
      evictedTotal, evictionsPending, evictionLogAt := 0, 0, 0;
    }

    method Remove(key: Key)
      requires Valid() && key in entry
      modifies this`entry, this`queue, this`charge, this`contents
      ensures Valid() && contents == Without(old(contents), key)
    {
      WithoutKept(contents, key);
      WithoutTotal(contents, key);
      IndexIsFind(contents, key);
      WithoutIsSub(contents, key);
      SubIsGood(Without(contents, key), contents);
      queue := Unqueued(queue, key);
      charge := charge - entry[key].charge;
      entry := entry - {key};
      contents := Without(contents, key);
    }

    /** Walks the front of the queue and stops at the first row still valid. */
    method Collect(now: int)
      requires Valid()
      modifies this`entry, this`queue, this`charge, this`contents
      ensures Valid() && contents == Collected(old(contents), now)
    {
      while |queue| > 0
        invariant Valid() && Collected(contents, now) == Collected(old(contents), now)
        decreases |queue|
      {
        var front := queue[0];
        assert front == contents[0].key && entry[front] == contents[0];
        if now <= entry[front].expiresAt {
          return;
        }
        assert Without(contents, front) == contents[1..];
        Remove(front);
      }
    }

    method Reserve(now: int, key: Key) returns (begun: Begun)
      requires Valid()
      modifies this`entry, this`queue, this`charge, this`contents
      ensures Valid() && (contents, begun) == IdempotencyRows.Reserve(old(contents), now, ttl, key)
    {
      Collect(now);
      IndexIsFind(contents, key);
      if key !in entry {
        PlaceKept(contents, Row(key, None, now + ttl, 0));
        WithoutAbsent(contents, key);
        WithoutKept(contents, key);
        entry := entry[key := Row(key, None, now + ttl, 0)];
        queue := queue + [key];
        contents := contents + [entry[key]];
        return Fresh;
      }
      if entry[key].resp.None? {
        return InFlight;
      }
      return Replay(entry[key].resp.value);
    }

    method DropIfRecord(i: nat) returns (gone: bool)
      requires Valid() && i < |queue|
      modifies this`entry, this`queue, this`charge, this`contents
      ensures Valid() && gone == old(contents[i].resp.Some?)
      ensures contents == if gone then Without(old(contents), old(contents[i].key)) else old(contents)
      ensures |contents| == |old(contents)| - if gone then 1 else 0
    {
      var key := queue[i];

      IndexAt(contents, i);
      gone := entry[key].resp.Some?;
      if gone {
        WithoutLength(contents, key, i);
        Remove(key);
      }
    }

    method FitBudget() returns (evicted: nat)
      requires Valid()
      modifies this`entry, this`queue, this`charge, this`contents
      ensures Valid() && charge <= budget && Fitted(old(contents), contents, budget)
      ensures evicted == |old(contents)| - |contents|
    {
      WalkIsFitted(contents, budget);
      var i := 0;
      evicted := 0;
      while i < |queue| && charge > budget
        invariant Valid() && Walk(contents, i, budget) == Walk(old(contents), 0, budget)
        invariant evicted == |old(contents)| - |contents|
        decreases |contents|, |contents| - i
      {
        var gone := DropIfRecord(i);
        evicted, i := if gone then evicted + 1 else evicted, if gone then i else i + 1;
      }
    }

    /** Places a completed record, applies the budget, and says how many evictions
        a warning has to report now. */
    method Write(now: int, key: Key, resp: Response, cost: int) returns (report: nat, total: nat)
      requires Valid() && cost >= 0
      modifies this
      ensures Valid() && charge <= budget && total == evictedTotal
      ensures var placed := Placed(old(contents), Row(key, Some(resp), now + ttl, cost));
              Fitted(placed, contents, budget) && evictedTotal - old(evictedTotal) == |placed| - |contents|
      ensures report + evictionsPending == old(evictionsPending) + (evictedTotal - old(evictedTotal))
      ensures report > 0 <==> evictedTotal > old(evictedTotal) && old(evictionLogAt) <= now
      ensures report > 0 ==> evictionsPending == 0 && evictionLogAt == now + EVICTION_LOG_INTERVAL
      ensures report == 0 ==> evictionLogAt == old(evictionLogAt)
    {
      Place(key, Row(key, Some(resp), now + ttl, cost));
      var evicted := FitBudget();
      report := CountEvictions(now, evicted);
      return report, evictedTotal;
    }

    method Place(key: Key, row: Row)
      requires Valid() && row.key == key && row.charge >= 0 && row.resp.Some?
      modifies this`entry, this`queue, this`charge, this`contents
      ensures Valid() && contents == Placed(old(contents), row)
    {
      PlaceKept(contents, row);
      if key in entry {
        charge := charge - entry[key].charge;
      }
      queue := Unqueued(queue, key) + [key];
      entry := entry[key := row];
      charge := charge + row.charge;
      contents := Placed(contents, row);
    }

    /** A warning is due for the first eviction, and then once an interval at most. */
    method CountEvictions(now: int, evicted: nat) returns (report: nat)
      modifies this`evictedTotal, this`evictionsPending, this`evictionLogAt
      ensures evictedTotal == old(evictedTotal) + evicted
      ensures report + evictionsPending == old(evictionsPending) + evicted
      ensures report > 0 <==> evictedTotal > old(evictedTotal) && old(evictionLogAt) <= now
      ensures report > 0 ==> evictionsPending == 0 && evictionLogAt == now + EVICTION_LOG_INTERVAL
      ensures report == 0 ==> evictionLogAt == old(evictionLogAt)
    {
      if evicted == 0 {
        return 0;
      }
      evictedTotal := evictedTotal + evicted;
      evictionsPending := evictionsPending + evicted;
      if now < evictionLogAt {
        return 0;
      }
      report := evictionsPending;
      evictionsPending := 0;
      evictionLogAt := now + EVICTION_LOG_INTERVAL;
    }

    method Abort(key: Key)
      requires Valid()
      modifies this`entry, this`queue, this`charge, this`contents
      ensures Valid() && contents == Aborted(old(contents), key)
    {
      IndexIsFind(contents, key);
      if key in entry && entry[key].resp.None? {
        Remove(key);
      }
    }
  }

  lemma {:induction false} WithoutLength(rows: seq<Row>, key: Key, i: nat)
    requires i < |rows| && rows[i].key == key
    ensures |Without(rows, key)| == |rows| - 1
  {
    if rows[0].key != key {
      WithoutLength(rows[1..], key, i - 1);
    }
  }
}
