/** The passkey rows of one table, and the statements that sign in, store and remove.
    Sections 6.1.1 and 7.2 of W3C Web Authentication Level 2 ask for the counter. */
module Passkeys {
  import opened Options

  type Id = string
  type Customer = string

  /** `rp` is the relying party, None in a row from before the column; times are the
      database's. `key` is the public key. */
  datatype Row = Row(customer: Customer, rp: Option<string>, key: string, count: nat, eligible: bool,
                     synced: bool, verified: bool, suspended: bool, createdAt: int, lastUsedAt: Option<int>)

  type Table = map<Id, Row>

  datatype Assertion = Assertion(id: Id, key: string, count: nat, synced: bool, verified: bool)

  /** What a registration stores. */
  datatype Credential = Credential(id: Id, key: string, count: nat, eligible: bool, synced: bool, verified: bool)

  /** Twice the lifetime of a ceremony, in seconds. */
  const REPEAT_WINDOW := 240

  predicate InScope(row: Row, rp: string) {
    row.rp.None? || row.rp.value == rp
  }

  // ----- signing in

  datatype SignIn = Accepted | NoCredential | AlreadySuspended | Repeated | Copied

  predicate Advances(row: Row, a: Assertion) {
    a.count > row.count || (a.count == 0 && row.count == 0) || row.eligible
  }

  /** The count was recorded less than the window ago. */
  predicate Recent(row: Row, now: int) {
    (if row.lastUsedAt.Some? then row.lastUsedAt.value else row.createdAt) > now - REPEAT_WINDOW
  }

  predicate Found(t: Table, rp: string, a: Assertion) {
    a.id in t && InScope(t[a.id], rp) && t[a.id].key == a.key
  }

  function Verdict(t: Table, rp: string, now: int, a: Assertion): SignIn {
    if !Found(t, rp, a) then NoCredential
    else
      var row := t[a.id];
      if row.suspended then AlreadySuspended
      else if Advances(row, a) then Accepted
      else if a.count == row.count && Recent(row, now) then Repeated
      else Copied
  }

  function Max(a: nat, b: nat): nat {
    if a < b then b else a
  }

  function SignedIn(t: Table, rp: string, now: int, a: Assertion): Table {
    match Verdict(t, rp, now, a)
    case Accepted =>
      t[a.id := t[a.id].(count := Max(t[a.id].count, a.count), synced := a.synced,
                         verified := t[a.id].verified || a.verified, lastUsedAt := Some(now))]
    case Copied => t[a.id := t[a.id].(suspended := true)]
    case _ => t
  }

  // ----- registering

  /** A new row, or the same owner's row with the credential replaced: its suspension
      and its moments stay. Another owner's row is left alone. */
  function Put(t: Table, rp: string, now: int, customer: Customer, c: Credential): (Table, bool) {
    if c.id !in t then
      (t[c.id := Row(customer, Some(rp), c.key, c.count, c.eligible, c.synced, c.verified, false, now, None)], true)
    else if t[c.id].customer == customer then
      (t[c.id := t[c.id].(rp := Some(rp), key := c.key, count := c.count, eligible := c.eligible,
                          synced := c.synced, verified := c.verified)], true)
    else (t, false)
  }

  // ----- removing

  /** The rows a removal locks. */
  function Held(t: Table, rp: string, customer: Customer): set<Id> {
    set id | id in t && t[id].customer == customer && InScope(t[id], rp)
  }

  /** A suspended row signs nobody in. */
  function WaysIn(t: Table, rp: string, customer: Customer): set<Id> {
    set id | id in t && t[id].customer == customer && InScope(t[id], rp) && !t[id].suspended
  }

  datatype Removal = Removed | NotTheirs | LastWayIn

  function RemovalOf(t: Table, rp: string, customer: Customer, id: Id, allowLast: bool): Removal {
    if id !in Held(t, rp, customer) then NotTheirs
    else if !t[id].suspended && |WaysIn(t, rp, customer)| < 2 && !allowLast then LastWayIn
    else Removed
  }

  function Remove(t: Table, rp: string, customer: Customer, id: Id, allowLast: bool): Table {
    if RemovalOf(t, rp, customer, id, allowLast) == Removed then t - {id} else t
  }

  /** Without leave, a removal never takes the last way in, whatever else it does. */
  lemma RemovalLeavesAWayIn(t: Table, rp: string, customer: Customer, id: Id, other: Customer)
    requires WaysIn(t, rp, other) != {}
    ensures WaysIn(Remove(t, rp, customer, id, false), rp, other) != {}
  {
    var u := Remove(t, rp, customer, id, false);
    if u != t {
      if other == customer && !t[id].suspended {
        var rest := WaysIn(t, rp, other) - {id};
        assert WaysIn(t, rp, other) == rest + {id};
        assert |rest| >= 1;
        var w :| w in rest;
        assert w in WaysIn(u, rp, other);
      } else {
        var w :| w in WaysIn(t, rp, other);
        assert w in WaysIn(u, rp, other);
      }
    }
  }

  /** A removal is refused exactly for a row that is not theirs, or without leave for
      their only way in; otherwise that row goes, and no other. */
  lemma RemovedUnlessLast(t: Table, rp: string, customer: Customer, id: Id, allowLast: bool)
    ensures var answer, u := RemovalOf(t, rp, customer, id, allowLast), Remove(t, rp, customer, id, allowLast);
            var theirs := id in t && t[id].customer == customer && (t[id].rp == None || t[id].rp == Some(rp));
            && (answer == NotTheirs <==> !theirs)
            && (answer == LastWayIn <==> !allowLast && WaysIn(t, rp, customer) == {id})
            && (answer == Removed ==> u.Keys == t.Keys - {id})
            && (answer != Removed ==> u == t)
            && forall k :: k in u ==> u[k] == t[k]
  {
    var ways := WaysIn(t, rp, customer);
    if id in ways {
      assert ways == (ways - {id}) + {id};
      assert |ways| < 2 <==> ways - {id} == {};
    }
  }

  lemma RemovalSparesOthers(t: Table, rp: string, customer: Customer, id: Id, allowLast: bool, other: Customer)
    requires other != customer
    ensures WaysIn(Remove(t, rp, customer, id, allowLast), rp, other) == WaysIn(t, rp, other)
  {
  }

  // ----- the store

  class Store {
    const rp: string
    var rows: Table

    constructor (relyingParty: string)
      ensures rp == relyingParty && rows == map[]
    {
      rp, rows := relyingParty, map[];
    }

    /** Compares the count under the row's lock and records it, or suspends the key. */
    method SignIn(a: Assertion, now: int) returns (r: SignIn)
      modifies this
      ensures r == Verdict(old(rows), rp, now, a)
      ensures rows == SignedIn(old(rows), rp, now, a)
    {
      if a.id !in rows || !InScope(rows[a.id], rp) || rows[a.id].key != a.key {
        return NoCredential;
      }
      var row := rows[a.id];
      if row.suspended {
        return AlreadySuspended;
      }
      if a.count > row.count || (a.count == 0 && row.count == 0) || row.eligible {
        var latched := row.verified || a.verified;
        rows := rows[a.id := row.(count := Max(row.count, a.count), synced := a.synced, verified := latched, lastUsedAt := Some(now))];
        return Accepted;
      }
      if a.count == row.count && Recent(row, now) {
        return Repeated;
      }
      rows := rows[a.id := row.(suspended := true)];
      return Copied;
    }

    /** Counts the locked rows, and looks for the one asked for. */
    method Tally(customer: Customer, id: Id) returns (held: nat, waysIn: nat, mine: bool, targetSuspended: bool)
      ensures held == |Held(rows, rp, customer)| && waysIn == |WaysIn(rows, rp, customer)|
      ensures mine <==> id in Held(rows, rp, customer)
      ensures mine ==> targetSuspended == rows[id].suspended
    {
      var locked := Held(rows, rp, customer);
      ghost var open := WaysIn(rows, rp, customer);
      var todo := locked;
      held, waysIn, mine, targetSuspended := 0, 0, false, false;
      assert locked - todo == {} && open - todo == {};
      while todo != {}
        invariant todo <= locked
        invariant held == |locked - todo| && waysIn == |open - todo|
        invariant mine <==> id in locked - todo
        invariant mine ==> targetSuspended == rows[id].suspended
      {
        var k :| k in todo;
        CountOne(locked, todo, k);
        CountOne(open, todo, k);
        todo, held := todo - {k}, held + 1;
        if !rows[k].suspended {
          waysIn := waysIn + 1;
        }
        if k == id {
          mine, targetSuspended := true, rows[k].suspended;
        }
      }
      assert locked - todo == locked && open - todo == open;
    }

    /** Locks the customer's rows, counts them, and deletes the one asked for. */
    method RemoveKey(customer: Customer, id: Id, allowLast: bool) returns (r: Removal, surviving: int)
      modifies this
      ensures r == RemovalOf(old(rows), rp, customer, id, allowLast)
      ensures rows == Remove(old(rows), rp, customer, id, allowLast)
      ensures surviving == |Held(rows, rp, customer)|
    {
      var held, waysIn, mine, targetSuspended := Tally(customer, id);
      if !mine {
        return NotTheirs, held;
      }
      if !targetSuspended && waysIn < 2 && !allowLast {
        return LastWayIn, held;
      }
      ghost var locked := Held(rows, rp, customer);
      rows := rows - {id};
      assert Held(rows, rp, customer) == locked - {id};
      return Removed, held - 1;
    }
  }

  lemma CountOne(s: set<Id>, todo: set<Id>, k: Id)
    requires k in todo
    ensures |s - (todo - {k})| == |s - todo| + if k in s then 1 else 0
  {
    if k in s {
      assert s - (todo - {k}) == (s - todo) + {k};
    } else {
      assert s - (todo - {k}) == s - todo;
    }
  }

  /** A listed key, as the account page sees it. */
  datatype Key = Key(id: Id, suspended: bool)

  function Open(keys: seq<Key>): nat {
    if keys == [] then 0
    else Open(keys[..|keys| - 1]) + if keys[|keys| - 1].suspended then 0 else 1
  }

  method CountWaysIn(keys: seq<Key>) returns (ways: nat)
    ensures ways == Open(keys)
  {
    ways := 0;
    for i := 0 to |keys|
      invariant ways == Open(keys[..i])
    {
      assert keys[..i + 1][..i] == keys[..i];
      if !keys[i].suspended {
        ways := ways + 1;
      }
    }
    assert keys[..|keys|] == keys;
  }

  /** The answer before the lock: refuse the last key, ask about another way in, and
      take its answer. */
  datatype Leave = Without | Ask

  method MayRemoveTheLast(keys: seq<Key>, id: Id) returns (leave: Leave)
    ensures leave == LeaveOf(keys, id)
  {
    var ways := CountWaysIn(keys);
    if ways > 1 {
      return Without;
    }
    for i := 0 to |keys|
      invariant forall k :: 0 <= k < i ==> !(keys[k].id == id && keys[k].suspended)
    {
      if keys[i].id == id && keys[i].suspended {
        return Without;
      }
    }
    return Ask;
  }

  predicate SuspendedIn(keys: seq<Key>, id: Id) {
    exists k :: 0 <= k < |keys| && keys[k].id == id && keys[k].suspended
  }

  function LeaveOf(keys: seq<Key>, id: Id): Leave {
    if Open(keys) > 1 || SuspendedIn(keys, id) then Without else Ask
  }
}
