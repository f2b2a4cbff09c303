/** The in-memory idempotency store as its records in queue order, oldest first:
    what each operation does to that list, stated without the map, the running
    total or any loop. */
module IdempotencyRows {
  import opened Options

  /** A store key: the caller's bucket and the client's key, as storeKey joins them. */
  datatype Key = Key(text: string)

  type Header = map<string, seq<string>>

  datatype Response = Response(status: int, header: Header, body: seq<bv8>, fingerprint: string)

  /** One key: a reservation while `resp` is None, a completed record afterwards. */
  datatype Row = Row(key: Key, resp: Option<Response>, expiresAt: int, charge: int)

  predicate Distinct(rows: seq<Row>) {
    forall i, j :: 0 <= i < j < |rows| ==> rows[i].key != rows[j].key
  }

  /** A reservation costs nothing. */
  predicate Priced(rows: seq<Row>) {
    forall r :: r in rows ==> r.charge >= 0 && (r.resp.None? ==> r.charge == 0)
  }

  predicate Sorted(rows: seq<Row>) {
    forall i, j :: 0 <= i < j < |rows| ==> rows[i].expiresAt <= rows[j].expiresAt
  }

  function Total(rows: seq<Row>): int {
    if rows == [] then 0 else rows[0].charge + Total(rows[1..])
  }

  /** The record the key leads to. */
  function Find(rows: seq<Row>, key: Key): (r: Option<Row>)
    ensures r.Some? ==> r.value in rows && r.value.key == key
    ensures r.None? ==> forall row :: row in rows ==> row.key != key
  {
    if rows == [] then None
    else if rows[0].key == key then Some(rows[0])
    else
      assert forall row :: row in rows ==> row == rows[0] || row in rows[1..];
      Find(rows[1..], key)
  }

  // ----- the operations

  function Without(rows: seq<Row>, key: Key): seq<Row> {
    if rows == [] then []
    else if rows[0].key == key then rows[1..]
    else [rows[0]] + Without(rows[1..], key)
  }

  /** The expired prefix: how far the walk from the front gets. */
  function Prefix(rows: seq<Row>, now: int): (p: nat)
    ensures p <= |rows|
    ensures forall i :: 0 <= i < p ==> now > rows[i].expiresAt
    ensures p < |rows| ==> now <= rows[p].expiresAt
  {
    if rows == [] || now <= rows[0].expiresAt then 0 else 1 + Prefix(rows[1..], now)
  }

  function Collected(rows: seq<Row>, now: int): seq<Row> {
    rows[Prefix(rows, now)..]
  }

  datatype Begun = Fresh | InFlight | Replay(resp: Response)

  function Reserve(rows: seq<Row>, now: int, ttl: int, key: Key): (seq<Row>, Begun) {
    var live := Collected(rows, now);
    match Find(live, key)
    case None => (live + [Row(key, None, now + ttl, 0)], Fresh)
    case Some(row) => (live, if row.resp.None? then InFlight else Replay(row.resp.value))
  }

  /** The list before the budget is applied. */
  function Placed(rows: seq<Row>, row: Row): seq<Row> {
    Without(rows, row.key) + [row]
  }

  function Reservations(rows: seq<Row>): seq<Row> {
    if rows == [] then []
    else (if rows[0].resp.None? then [rows[0]] else []) + Reservations(rows[1..])
  }

  /** The completed records among the first p are gone. */
  function Dropped(rows: seq<Row>, p: nat): seq<Row>
    requires p <= |rows|
  {
    Reservations(rows[..p]) + rows[p..]
  }

  ghost predicate Over(rows: seq<Row>, p: nat, budget: int) {
    p <= |rows| && Total(Dropped(rows, p)) > budget
  }

  /** The budget's answer: `kept` is `rows` without the completed records of its
      first p rows, it fits, and no shorter prefix would have been enough. */
  ghost predicate FitsAt(rows: seq<Row>, kept: seq<Row>, budget: int, p: nat) {
    && p <= |rows| && kept == Dropped(rows, p) && Total(kept) <= budget
    && forall q: nat :: q < p ==> Over(rows, q, budget)
  }

  ghost predicate Fitted(rows: seq<Row>, kept: seq<Row>, budget: int) {
    exists p: nat :: FitsAt(rows, kept, budget, p)
  }

  function Aborted(rows: seq<Row>, key: Key): seq<Row> {
    match Find(rows, key)
    case Some(row) => if row.resp.None? then Without(rows, key) else rows
    case None => rows
  }

  // ----- what they keep

  lemma {:induction false} TotalAppend(a: seq<Row>, b: seq<Row>)
    ensures Total(a + b) == Total(a) + Total(b)
  {
    if a == [] {
      assert a + b == b;
    } else {
      TotalAppend(a[1..], b);
      assert (a + b)[1..] == a[1..] + b;
    }
  }

  /** `a` is `b` with some rows taken out. */
  ghost predicate Sub(a: seq<Row>, b: seq<Row>) {
    a == [] || (b != [] && ((a[0] == b[0] && Sub(a[1..], b[1..])) || Sub(a, b[1..])))
  }

  ghost predicate Good(rows: seq<Row>) {
    Distinct(rows) && Priced(rows)
  }

  lemma {:induction false} SubMembers(a: seq<Row>, b: seq<Row>)
    requires Sub(a, b)
    ensures forall r :: r in a ==> r in b
  {
    if a != [] {
      assert forall r :: r in b <==> r == b[0] || r in b[1..];
      assert forall r :: r in a <==> r == a[0] || r in a[1..];
      if a[0] == b[0] && Sub(a[1..], b[1..]) {
        SubMembers(a[1..], b[1..]);
      } else {
        SubMembers(a, b[1..]);
      }
    }
  }

  lemma {:induction false} SubKeeps(a: seq<Row>, b: seq<Row>)
    requires Sub(a, b)
    ensures Distinct(b) ==> Distinct(a)
    ensures Sorted(b) ==> Sorted(a)
  {
    if a != [] {
      if a[0] == b[0] && Sub(a[1..], b[1..]) {
        SubKeeps(a[1..], b[1..]);
        SubMembers(a[1..], b[1..]);
        assert forall k :: 0 <= k < |a[1..]| ==> a[1..][k] in b[1..];
      } else {
        SubKeeps(a, b[1..]);
      }
    }
  }

  lemma SubIsGood(a: seq<Row>, b: seq<Row>)
    requires Sub(a, b) && Good(b)
    ensures Good(a) && (Sorted(b) ==> Sorted(a)) && forall r :: r in a ==> r in b
  {
    SubMembers(a, b);
    SubKeeps(a, b);
  }

  lemma {:induction false} SubSelf(a: seq<Row>)
    ensures Sub(a, a)
  {
    if a != [] {
      SubSelf(a[1..]);
    }
  }

  lemma {:induction false} SubSuffix(rows: seq<Row>, p: nat)
    requires p <= |rows|
    ensures Sub(rows[p..], rows)
  {
    SubSelf(rows);
    if p > 0 {
      SubSuffix(rows[1..], p - 1);
      assert rows[p..] == rows[1..][p - 1..];
    }
  }

  lemma {:induction false} SubAppend(a: seq<Row>, b: seq<Row>, tail: seq<Row>)
    requires Sub(a, b)
    ensures Sub(a + tail, b + tail)
  {
    if b == [] {
      SubSelf(tail);
      assert a + tail == tail && b + tail == tail;
    } else {
      assert (b + tail)[1..] == b[1..] + tail;
      if a != [] && a[0] == b[0] && Sub(a[1..], b[1..]) {
        SubAppend(a[1..], b[1..], tail);
        assert (a + tail)[1..] == a[1..] + tail;
      } else {
        SubAppend(a, b[1..], tail);
      }
    }
  }

  lemma {:induction false} WithoutIsSub(rows: seq<Row>, key: Key)
    ensures Sub(Without(rows, key), rows)
  {
    SubSelf(rows);
    if rows != [] {
      SubSelf(rows[1..]);
      WithoutIsSub(rows[1..], key);
    }
  }

  lemma {:induction false} ReservationsAreSub(rows: seq<Row>)
    ensures Sub(Reservations(rows), rows)
  {
    if rows != [] {
      var rest := Reservations(rows[1..]);
      ReservationsAreSub(rows[1..]);
      assert ([rows[0]] + rest)[1..] == rest;
      assert [] + rest == rest;
    }
  }

  lemma DroppedIsSub(rows: seq<Row>, p: nat)
    requires p <= |rows|
    ensures Sub(Dropped(rows, p), rows)
  {
    ReservationsAreSub(rows[..p]);
    SubAppend(Reservations(rows[..p]), rows[..p], rows[p..]);
    assert rows[..p] + rows[p..] == rows;
  }

  // ----- exactly what each one takes out

  lemma {:induction false} WithoutMembers(rows: seq<Row>, key: Key)
    requires Distinct(rows)
    ensures forall r :: r in Without(rows, key) <==> r in rows && r.key != key
  {
    if rows != [] {
      assert forall r :: r in rows <==> r == rows[0] || r in rows[1..];
      if rows[0].key == key {
        assert forall i :: 0 <= i < |rows[1..]| ==> rows[1..][i] == rows[i + 1];
      } else {
        WithoutMembers(rows[1..], key);
      }
    }
  }

  lemma {:induction false} WithoutTotal(rows: seq<Row>, key: Key)
    ensures Find(rows, key).Some? ==> Total(Without(rows, key)) == Total(rows) - Find(rows, key).value.charge
    ensures Find(rows, key).None? ==> Without(rows, key) == rows
  {
    if rows != [] && rows[0].key != key {
      WithoutTotal(rows[1..], key);
    }
  }

  /** Nothing that is still valid is collected; and while the queue is in expiry
      order the walked prefix is everything a scan of the whole store would find. */
  lemma CollectedIsExact(rows: seq<Row>, now: int)
    ensures forall r :: r in rows && now <= r.expiresAt ==> r in Collected(rows, now)
    ensures Sorted(rows) ==> forall r :: r in Collected(rows, now) <==> r in rows && now <= r.expiresAt
  {
    var p := Prefix(rows, now);
    forall r | r in rows && now <= r.expiresAt ensures r in Collected(rows, now) {
      var i :| 0 <= i < |rows| && rows[i] == r;
      assert rows[p..][i - p] == r;
    }
  }

  lemma {:induction false} ReservationsMembers(rows: seq<Row>)
    ensures forall r :: r in Reservations(rows) <==> r in rows && r.resp.None?
    ensures Priced(rows) ==> Total(Reservations(rows)) == 0
  {
    if rows != [] {
      assert forall r :: r in rows <==> r == rows[0] || r in rows[1..];
      ReservationsMembers(rows[1..]);
      TotalAppend(if rows[0].resp.None? then [rows[0]] else [], Reservations(rows[1..]));
      assert rows[0] in rows && forall r :: r in rows[1..] ==> r in rows;
    }
  }

  lemma DroppedMembers(rows: seq<Row>, p: nat)
    requires p <= |rows| && Priced(rows)
    ensures Total(Dropped(rows, p)) == Total(rows[p..])
    ensures forall r :: r in rows && r.resp.None? ==> r in Dropped(rows, p)
  {
    ReservationsMembers(rows[..p]);
    TotalAppend(Reservations(rows[..p]), rows[p..]);
    assert rows == rows[..p] + rows[p..];
  }

  // ----- what the operations keep

  lemma ReserveKeeps(rows: seq<Row>, now: int, ttl: int, key: Key)
    requires Good(rows)
    ensures Good(Reserve(rows, now, ttl, key).0)
    ensures Sorted(rows) && (forall r :: r in rows ==> r.expiresAt <= now + ttl) ==>
              Sorted(Reserve(rows, now, ttl, key).0)
  {
    var live := Collected(rows, now);
    SubSuffix(rows, Prefix(rows, now));
    SubIsGood(live, rows);
    if Find(live, key).None? {
      AppendIsGood(live, Row(key, None, now + ttl, 0));
    }
    if Sorted(rows) && forall r :: r in rows ==> r.expiresAt <= now + ttl {
      assert forall i :: 0 <= i < |live| ==> live[i] in rows;
    }
  }

  lemma AppendIsGood(rows: seq<Row>, row: Row)
    requires Good(rows) && row.charge >= 0 && (row.resp.None? ==> row.charge == 0)
    requires forall r :: r in rows ==> r.key != row.key
    ensures Good(rows + [row])
  {
    assert forall i :: 0 <= i < |rows| ==> rows[i] in rows;
  }

  lemma PlacedKeeps(rows: seq<Row>, row: Row)
    requires Good(rows) && row.charge >= 0 && (row.resp.None? ==> row.charge == 0)
    ensures Good(Placed(rows, row))
    ensures Sorted(rows) && (forall r :: r in rows ==> r.expiresAt <= row.expiresAt) ==> Sorted(Placed(rows, row))
    ensures Total(Placed(rows, row)) == Total(Without(rows, row.key)) + row.charge
  {
    var w := Without(rows, row.key);
    WithoutIsSub(rows, row.key);
    SubIsGood(w, rows);
    WithoutMembers(rows, row.key);
    TotalAppend(w, [row]);
    assert forall i :: 0 <= i < |w| ==> w[i] in w;
  }

  /** The budget's cut: there is always one, it is a single answer, it keeps every
      reservation and every record's order, and what it drops is the shortest
      oldest-first run of completed records that makes the rest fit. */
  lemma FittedIsExact(rows: seq<Row>, a: seq<Row>, b: seq<Row>, budget: int)
    requires Good(rows) && Fitted(rows, a, budget) && Fitted(rows, b, budget)
    ensures a == b && Total(a) <= budget && Good(a)
    ensures Sorted(rows) ==> Sorted(a)
    ensures forall r :: r in rows && r.resp.None? ==> r in a
    ensures forall r :: r in a ==> r in rows
  {
    var p: nat :| FitsAt(rows, a, budget, p);
    var q: nat :| FitsAt(rows, b, budget, q);
    assert !Over(rows, p, budget) && !Over(rows, q, budget);
    DroppedIsSub(rows, p);
    SubIsGood(a, rows);
    DroppedMembers(rows, p);
  }

  /** What was placed last goes last: it stays exactly if it fits on its own. */
  lemma NewestStays(rows: seq<Row>, row: Row, kept: seq<Row>, budget: int)
    requires Priced(rows) && row.charge >= 0 && row.resp.Some? && row !in rows
    requires Fitted(rows + [row], kept, budget)
    ensures row in kept <==> row.charge <= budget
  {
    var all, n := rows + [row], |rows|;
    var p: nat :| FitsAt(all, kept, budget, p);
    assert all[..n] == rows && all[n..] == [row] && all[..n + 1] == all;
    ReservationsAreFree(rows);
    TotalAppend(Reservations(rows), [row]);
    assert Total([row]) == row.charge;
    assert Dropped(all, n) == Reservations(rows) + [row];
    if row.charge <= budget {
      assert !Over(all, n, budget);
      assert all[p..][n - p] == row;
    } else {
      LastCharge(all, p, row);
    }
  }

  lemma {:induction false} ReservationsAreFree(rows: seq<Row>)
    requires Priced(rows)
    ensures Total(Reservations(rows)) == 0
  {
    if rows != [] {
      assert rows[0] in rows && forall r :: r in rows[1..] ==> r in rows;
      ReservationsAreFree(rows[1..]);
      TotalAppend(if rows[0].resp.None? then [rows[0]] else [], Reservations(rows[1..]));
    }
  }

  /** While the last row is kept its charge counts. */
  lemma LastCharge(all: seq<Row>, p: nat, row: Row)
    requires Priced(all) && p <= |all| && all != [] && all[|all| - 1] == row && row.resp.Some?
    requires forall i :: 0 <= i < |all| - 1 ==> all[i] != row
    ensures row in Dropped(all, p) ==> Total(Dropped(all, p)) >= row.charge
  {
    if p < |all| {
      var n := |all| - 1;
      assert all[p..] == all[p..n] + [row];
      assert forall r :: r in all[p..n] ==> r in all;
      assert forall r :: r in all[..p] ==> r in all;
      ReservationsAreFree(all[..p]);
      TotalAppend(Reservations(all[..p]), all[p..]);
      TotalAppend(all[p..n], [row]);
      TotalNatural(all[p..n]);
    } else {
      ReservationsMembers(all[..p]);
    }
  }

  lemma {:induction false} TotalNatural(rows: seq<Row>)
    requires Priced(rows)
    ensures Total(rows) >= 0
  {
    if rows != [] {
      assert rows[0] in rows && forall r :: r in rows[1..] ==> r in rows;
      TotalNatural(rows[1..]);
    }
  }
}
