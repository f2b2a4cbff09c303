/** Whole runs of sign-ins, registrations, erasures and two-phase removals over one
    table; every locked transaction is one step. */
module PasskeyRuns {
  import opened Options
  import opened Passkeys

  /** A removal before its lock: another module is being asked, or the leave is known. */
  datatype Request =
    | Asking(customer: Customer, id: Id)
    | Ready(customer: Customer, id: Id, allowLast: bool)

  /** History: a sign-in that was accepted. */
  datatype Signed = Signed(id: Id, count: nat, eligible: bool)

  /** `known` are the ids ever stored. */
  datatype State = State(rp: string, clock: int, table: Table, requests: map<nat, Request>, known: set<Id>, signed: seq<Signed>)

  datatype Action =
    | ActTick(d: nat)
    | ActPut(customer: Customer, credential: Credential)
    | ActSignIn(assertion: Assertion)
    | ActList(req: nat, customer: Customer, id: Id, keys: seq<Key>)
    | ActAnswer(req: nat, answer: Option<bool>)
    | ActRemove(req: nat)
    | ActErase(customer: Customer)

  /** The customer's keys as the listing reads them, each once. */
  ghost predicate Lists(s: State, customer: Customer, keys: seq<Key>) {
    && (forall i, j :: 0 <= i < j < |keys| ==> keys[i].id != keys[j].id)
    && (forall i :: 0 <= i < |keys| ==>
          keys[i].id in Held(s.table, s.rp, customer) && keys[i].suspended == s.table[keys[i].id].suspended)
    && |keys| == |Held(s.table, s.rp, customer)|
  }

  ghost predicate Enabled(s: State, a: Action) {
    match a
    case ActList(req, customer, _, keys) => req !in s.requests && Lists(s, customer, keys)
    case ActAnswer(req, _) => req in s.requests && s.requests[req].Asking?
    case ActRemove(req) => req in s.requests && s.requests[req].Ready?
    case _ => true
  }

  function Step(s: State, a: Action): State
    requires a.ActAnswer? ==> a.req in s.requests && s.requests[a.req].Asking?
    requires a.ActRemove? ==> a.req in s.requests && s.requests[a.req].Ready?
  {
    match a
    case ActTick(d) => s.(clock := s.clock + d)
    case ActPut(customer, c) =>
      s.(table := Put(s.table, s.rp, s.clock, customer, c).0, known := s.known + {c.id})
    case ActSignIn(x) =>
      s.(table := SignedIn(s.table, s.rp, s.clock, x),
         signed := if Verdict(s.table, s.rp, s.clock, x) == Accepted then s.signed + [Signed(x.id, x.count, s.table[x.id].eligible)]
                   else s.signed)
    case ActList(req, customer, id, keys) =>
      s.(requests := s.requests[req := if LeaveOf(keys, id) == Ask then Asking(customer, id) else Ready(customer, id, false)])
    case ActAnswer(req, answer) =>
      var r := s.requests[req];
      s.(requests := if answer.Some? then s.requests[req := Ready(r.customer, r.id, answer.value)] else s.requests - {req})
    case ActRemove(req) =>
      var r := s.requests[req];
      s.(table := Remove(s.table, s.rp, r.customer, r.id, r.allowLast), requests := s.requests - {req})
    case ActErase(customer) =>
      s.(table := map id | id in s.table && s.table[id].customer != customer :: s.table[id])
  }

  ghost predicate IsRun(states: seq<State>, actions: seq<Action>) {
    && |states| == |actions| + 1
    && states[0].table == map[] && states[0].requests == map[] && states[0].known == {} && states[0].signed == []
    && forall i :: 0 <= i < |actions| ==>
         Enabled(states[i], actions[i]) && states[i + 1] == Step(states[i], actions[i])
  }

  // ----- counters

  /** Of one key that is not backup-eligible, every accepted non-zero count is above
      the counts accepted before it. */
  ghost predicate CountsIncrease(signed: seq<Signed>) {
    forall i, j :: 0 <= i < j < |signed| && signed[i].id == signed[j].id && !signed[j].eligible && signed[j].count > 0 ==>
      signed[i].count < signed[j].count
  }

  /** No count accepted of the key is above this one. */
  ghost predicate CountedUpTo(signed: seq<Signed>, id: Id, count: nat) {
    forall i :: 0 <= i < |signed| && signed[i].id == id ==> signed[i].count <= count
  }

  /** The row's count is what decides its next sign-in. */
  predicate Compared(t: Table, id: Id) {
    id in t && !t[id].suspended && !t[id].eligible
  }

  ghost predicate Counted(s: State) {
    && CountsIncrease(s.signed)
    && forall id :: Compared(s.table, id) ==> CountedUpTo(s.signed, id, s.table[id].count)
  }

  /** A registration brings no count below one accepted of its key, unless its row's
      count decides nothing. A key never stored before, and a count no lower than the
      stored one, are both safe. */
  ghost predicate Safe(s: State, a: Action) {
    a.ActPut? ==>
      var (t, ok) := Put(s.table, s.rp, s.clock, a.customer, a.credential);
      ok && Compared(t, a.credential.id) ==> CountedUpTo(s.signed, a.credential.id, a.credential.count)
  }

  ghost predicate SafeFrom(states: seq<State>, actions: seq<Action>, i: nat)
    requires |states| == |actions| + 1
  {
    forall k :: i <= k < |actions| ==> Safe(states[k], actions[k])
  }

  lemma CountersStep(s: State, a: Action)
    requires Enabled(s, a) && Counted(s) && Safe(s, a)
    ensures Counted(Step(s, a))
  {
    if a.ActSignIn? {
      SignInStep(s, a);
    }
  }

  lemma SignInStep(s: State, a: Action)
    requires Counted(s) && a.ActSignIn?
    ensures Counted(Step(s, a))
  {
    var x, t := a.assertion, Step(s, a);
    if Verdict(s.table, s.rp, s.clock, x) == Accepted {
      var row := s.table[x.id];
      assert !row.eligible ==> Compared(s.table, x.id);
      forall id | Compared(t.table, id) ensures CountedUpTo(t.signed, id, t.table[id].count) {
        assert Compared(s.table, id);
      }
    } else {
      forall id | Compared(t.table, id) ensures CountedUpTo(t.signed, id, t.table[id].count) {
        assert Compared(s.table, id) && t.table[id] == s.table[id];
      }
    }
  }

  /** As long as registrations are safe the accepted counts of every key increase. */
  lemma {:induction false} CountersHold(states: seq<State>, actions: seq<Action>, n: nat)
    requires IsRun(states, actions) && SafeFrom(states, actions, 0) && n < |states|
    ensures Counted(states[n])
  {
    if n > 0 {
      CountersHold(states, actions, n - 1);
      CountersStep(states[n - 1], actions[n - 1]);
      assert states[n - 1 + 1] == Step(states[n - 1], actions[n - 1]);
    }
  }

  /** Whatever else happens afterwards, the counts go on increasing. */
  ghost predicate AlwaysIncreasing(states: seq<State>, actions: seq<Action>)
    requires |states| == |actions| + 1
  {
    forall ms: seq<State>, more: seq<Action> ::
      IsRun(ms, more) && actions <= more && states <= ms && SafeFrom(ms, more, |actions|) ==>
        CountsIncrease(ms[|more|].signed)
  }

  /** An unsafe registration lets the next count through, not above one accepted. */
  lemma UnsafeLetsARepeatIn(s: State, a: Action) returns (x: Assertion)
    requires a.ActPut? && !Safe(s, a)
    ensures !CountsIncrease(Step(Step(s, a), ActSignIn(x)).signed)
  {
    var c, t := a.credential, Step(s, a);
    x := Assertion(c.id, c.key, c.count + 1, c.synced, c.verified);
    assert Verdict(t.table, t.rp, t.clock, x) == Accepted;
    var u := Step(t, ActSignIn(x));
    var i :| 0 <= i < |s.signed| && s.signed[i].id == c.id && s.signed[i].count > c.count;
    assert u.signed[i] == s.signed[i] && u.signed[|s.signed|] == Signed(c.id, c.count + 1, false);
  }

  lemma Extend(states: seq<State>, actions: seq<Action>, a: Action) returns (ms: seq<State>, more: seq<Action>)
    requires IsRun(states, actions) && Enabled(states[|actions|], a)
    ensures IsRun(ms, more) && states <= ms && actions <= more
    ensures more == actions + [a] && ms == states + [Step(states[|actions|], a)]
  {
    ms, more := states + [Step(states[|actions|], a)], actions + [a];
    forall i | 0 <= i < |more| ensures Enabled(ms[i], more[i]) && ms[i + 1] == Step(ms[i], more[i]) {
      if i < |actions| {
        assert ms[i] == states[i] && ms[i + 1] == states[i + 1] && more[i] == actions[i];
      }
    }
  }

  /** Over whole runs: a registration after safe ones leaves the counts increasing in
      every continuation exactly if it is safe itself. */
  lemma SafeIsExactlyWhatKeepsThemIncreasing(states: seq<State>, actions: seq<Action>)
    requires IsRun(states, actions) && |actions| > 0
    requires var n := |actions| - 1; actions[n].ActPut? && forall k :: 0 <= k < n ==> Safe(states[k], actions[k])
    ensures AlwaysIncreasing(states, actions) <==> Safe(states[|actions| - 1], actions[|actions| - 1])
  {
    var n := |actions| - 1;
    if Safe(states[n], actions[n]) {
      forall ms: seq<State>, more: seq<Action> |
        IsRun(ms, more) && actions <= more && states <= ms && SafeFrom(ms, more, |actions|)
        ensures CountsIncrease(ms[|more|].signed)
      {
        forall k | 0 <= k < |more| ensures Safe(ms[k], more[k]) {
          if k <= n {
            assert ms[k] == states[k] && more[k] == actions[k];
          }
        }
        CountersHold(ms, more, |more|);
      }
    } else {
      assert states[n + 1] == Step(states[n], actions[n]);
      var x := UnsafeLetsARepeatIn(states[n], actions[n]);
      var ms, more := Extend(states, actions, ActSignIn(x));
      assert ms[|more|] == Step(states[n + 1], ActSignIn(x));
      assert SafeFrom(ms, more, |actions|);
    }
  }

  /** Such a run from the start: registering a key over itself lets a count that was
      accepted be accepted again. */
  lemma ACountAcceptedTwice(rp: string, customer: Customer, c: Credential, count: nat)
    returns (states: seq<State>, actions: seq<Action>)
    requires count > c.count && !c.eligible
    ensures IsRun(states, actions) && !CountsIncrease(states[|actions|].signed)
    ensures states[|actions|].signed == [Signed(c.id, count, false), Signed(c.id, count, false)]
  {
    states, actions := [State(rp, 0, map[], map[], {}, [])], [];
    var x := Assertion(c.id, c.key, count, c.synced, c.verified);
    states, actions := Extend(states, actions, ActPut(customer, c));
    states, actions := Extend(states, actions, ActSignIn(x));
    assert states[2].signed == [Signed(c.id, count, false)];
    states, actions := Extend(states, actions, ActPut(customer, c));
    states, actions := Extend(states, actions, ActSignIn(x));
    assert states[4].signed == states[2].signed + [Signed(c.id, count, false)];
    var last := states[|actions|].signed;
    assert last[0].count == last[1].count;
  }

  /** A registration stores a key for the first time, or over its owner's row without
      lowering its count, changing its eligibility or forgetting its verification. */
  ghost predicate Steady(s: State, a: Action) {
    a.ActPut? ==>
      var c := a.credential;
      if c.id !in s.table then c.id !in s.known
      else
        s.table[c.id].customer == a.customer ==>
          && c.count >= s.table[c.id].count && c.eligible == s.table[c.id].eligible
          && (s.table[c.id].verified ==> c.verified)
  }

  /** The ids stored, and those signed with, are known; no key's count is behind. */
  ghost predicate Recorded(s: State) {
    && s.table.Keys <= s.known
    && (forall i :: 0 <= i < |s.signed| ==> s.signed[i].id in s.known)
    && forall id :: id in s.table ==> CountedUpTo(s.signed, id, s.table[id].count)
  }

  lemma RecordedStep(s: State, a: Action)
    requires Enabled(s, a) && Recorded(s) && Steady(s, a)
    ensures Recorded(Step(s, a)) && Safe(s, a)
  {
    var t := Step(s, a);
    forall id | id in t.table ensures CountedUpTo(t.signed, id, t.table[id].count) {
      if id in s.table {
        assert CountedUpTo(s.signed, id, s.table[id].count);
      }
    }
  }

  /** Steady registrations are safe. */
  lemma {:induction false} SteadyIsSafe(states: seq<State>, actions: seq<Action>, n: nat)
    requires IsRun(states, actions) && n < |states|
    requires forall k :: 0 <= k < n ==> Steady(states[k], actions[k])
    ensures Recorded(states[n])
    ensures forall k :: 0 <= k < n ==> Safe(states[k], actions[k])
  {
    if n > 0 {
      SteadyIsSafe(states, actions, n - 1);
      RecordedStep(states[n - 1], actions[n - 1]);
      assert states[n - 1 + 1] == Step(states[n - 1], actions[n - 1]);
    }
  }

  /** Under steady registrations the stored count of a key never falls, and what it is
      does not change. */
  lemma {:induction false} StoredCountNeverFalls(states: seq<State>, actions: seq<Action>, i: nat, j: nat, id: Id)
    requires IsRun(states, actions) && i <= j < |states| && id in states[i].table
    requires forall k :: 0 <= k < j ==> Steady(states[k], actions[k])
    ensures id in states[j].known
    ensures id in states[j].table ==>
              && states[i].table[id].count <= states[j].table[id].count
              && states[i].table[id].eligible == states[j].table[id].eligible
              && (states[i].table[id].verified ==> states[j].table[id].verified)
    decreases j - i
  {
    if i < j {
      StoredCountNeverFalls(states, actions, i, j - 1, id);
      assert Steady(states[j - 1], actions[j - 1]);
      assert states[j - 1 + 1] == Step(states[j - 1], actions[j - 1]);
    } else {
      SteadyIsSafe(states, actions, i);
    }
  }

  /** Whoever registers what, a stored key never passes to another customer. */
  lemma {:induction false} NoKeyChangesHands(states: seq<State>, actions: seq<Action>, i: nat, j: nat, id: Id)
    requires IsRun(states, actions) && i <= j < |states|
    requires forall k :: i <= k <= j ==> id in states[k].table
    ensures states[j].table[id].customer == states[i].table[id].customer
    decreases j - i
  {
    if i < j {
      NoKeyChangesHands(states, actions, i, j - 1, id);
      assert states[j - 1 + 1] == Step(states[j - 1], actions[j - 1]);
    }
  }

  // ----- suspension

  /** A suspended key signs nobody in again, a registration over its row included;
      only removing the row and storing a new one ends that. */
  lemma {:induction false} SuspendedNeverSignsIn(states: seq<State>, actions: seq<Action>, i: nat, j: nat, id: Id)
    requires IsRun(states, actions) && i <= j < |states| && id in states[i].table && states[i].table[id].suspended
    requires forall k :: i <= k < j && actions[k].ActPut? && actions[k].credential.id == id ==> id in states[k].table
    ensures id in states[j].table ==> states[j].table[id].suspended
    ensures forall a: Assertion :: a.id == id ==> Verdict(states[j].table, states[j].rp, states[j].clock, a) != Accepted
    decreases j - i
  {
    if i < j {
      SuspendedNeverSignsIn(states, actions, i, j - 1, id);
      assert states[j - 1 + 1] == Step(states[j - 1], actions[j - 1]);
    }
  }

  // ----- who is suspended, and who is let in

  /** The sign-in names the row's key and relying party. */
  predicate Names(s: State, x: Assertion, id: Id)
    requires id in s.table
  {
    x.id == id && x.key == s.table[id].key && (s.table[id].rp == None || s.table[id].rp == Some(s.rp))
  }

  /** How long ago the row's count was recorded. */
  function Age(s: State, id: Id): int
    requires id in s.table
  {
    s.clock - (match s.table[id].lastUsedAt case Some(at) => at case None => s.table[id].createdAt)
  }

  /** A count that only a copy of the key can present: below the stored one, or the
      stored one again after four minutes; a counter that is always zero says nothing. */
  predicate Copies(s: State, a: Action, id: Id)
    requires id in s.table
  {
    a.ActSignIn? && Names(s, a.assertion, id) && !s.table[id].eligible &&
    (a.assertion.count < s.table[id].count
     || (a.assertion.count == s.table[id].count && a.assertion.count != 0 && Age(s, id) >= 240))
  }

  /** An open row is suspended by exactly such a sign-in. */
  lemma SuspendedIffCopied(s: State, a: Action, id: Id)
    requires Enabled(s, a) && id in s.table && !s.table[id].suspended && id in Step(s, a).table
    ensures Step(s, a).table[id].suspended <==> Copies(s, a, id)
  {
  }

  /** The key was stored at or before step i and seen to be copied there. */
  ghost predicate CopiedAt(states: seq<State>, actions: seq<Action>, i: nat, id: Id)
    requires |states| == |actions| + 1
  {
    i < |actions| && id in states[i].table && !states[i].table[id].suspended && Copies(states[i], actions[i], id)
  }

  /** Every suspended row of a run was seen to be copied. */
  lemma {:induction false} SuspensionHasACause(states: seq<State>, actions: seq<Action>, j: nat, id: Id)
    requires IsRun(states, actions) && j < |states| && id in states[j].table && states[j].table[id].suspended
    ensures exists i: nat :: i < j && CopiedAt(states, actions, i, id)
  {
    assert j > 0;
    var s, a := states[j - 1], actions[j - 1];
    assert states[j - 1 + 1] == Step(s, a);
    if id in s.table && s.table[id].suspended {
      SuspensionHasACause(states, actions, j - 1, id);
    } else {
      assert id in s.table;
      SuspendedIffCopied(s, a, id);
      assert CopiedAt(states, actions, j - 1, id);
    }
  }

  /** The five answers of a sign-in, each exactly under its condition, and the row after
      each: recorded when accepted, suspended when copied, and otherwise as it was; no
      other row is touched. */
  lemma SignInIsAnswered(s: State, a: Action)
    requires a.ActSignIn?
    ensures var x, t, answer := a.assertion, Step(s, a).table, Verdict(s.table, s.rp, s.clock, a.assertion);
            var id := x.id;
            && (answer == NoCredential <==> id !in s.table || !Names(s, x, id))
            && (answer != NoCredential ==>
                  var row := s.table[id];
                  && (answer == AlreadySuspended <==> row.suspended)
                  && (answer == Copied <==> !row.suspended && Copies(s, a, id))
                  && (answer == Accepted <==>
                        !row.suspended && (row.eligible || x.count > row.count || (x.count == 0 && row.count == 0)))
                  && (answer == Repeated <==>
                        !row.suspended && !row.eligible && x.count == row.count && x.count != 0 && Age(s, id) < 240))
            && (answer == Accepted ==> RowRecords(s.table[id], t, x, s.clock))
            && (answer == Copied ==> id in t && t[id] == s.table[id].(suspended := true))
            && (answer != Accepted && answer != Copied ==> t == s.table)
            && t.Keys == s.table.Keys && forall k :: k in t && k != id ==> t[k] == s.table[k]
  {
  }

  predicate RowRecords(row: Row, t: Table, x: Assertion, now: int) {
    && x.id in t && t[x.id].count >= row.count && t[x.id].count >= x.count && t[x.id].count in {row.count, x.count}
    && t[x.id].lastUsedAt == Some(now) && t[x.id].synced == x.synced
    && (t[x.id].verified <==> row.verified || x.verified)
    && t[x.id].(count := 0, lastUsedAt := None, synced := false, verified := false)
       == row.(count := 0, lastUsedAt := None, synced := false, verified := false)
  }

  /** A key that counts upwards always signs in: as long as its row is open, a sign-in
      with the stored key and a count above the stored one is accepted and recorded. */
  lemma CountingUpSignsIn(states: seq<State>, actions: seq<Action>, n: nat)
    requires IsRun(states, actions) && n < |actions| && actions[n].ActSignIn?
    requires var x := actions[n].assertion;
             x.id in states[n].table && Names(states[n], x, x.id) && !states[n].table[x.id].suspended
             && x.count > states[n].table[x.id].count
    ensures var x := actions[n].assertion;
            && states[n + 1].signed == states[n].signed + [Signed(x.id, x.count, states[n].table[x.id].eligible)]
            && states[n + 1].table[x.id].count == x.count && !states[n + 1].table[x.id].suspended
  {
    assert states[n + 1] == Step(states[n], actions[n]);
  }

  /** A key stored for the first time signs its owner in at once with any count above the
      registered one, at the relying party that stored it and at no other. */
  lemma RegisteredSignsIn(s: State, customer: Customer, c: Credential, rp: string, now: int, count: nat, verified: bool)
    requires c.id !in s.table && count > c.count
    ensures var t := Step(s, ActPut(customer, c)).table;
            && c.id in t && t[c.id].customer == customer
            && (forall k :: k != c.id ==> (k in t <==> k in s.table) && (k in t ==> t[k] == s.table[k]))
            && Verdict(t, rp, now, Assertion(c.id, c.key, count, c.synced, verified)) ==
                 (if rp == s.rp then Accepted else NoCredential)
  {
  }

  // ----- the last way in

  /** Step l is the listing the request of that number, at step n, began with. */
  ghost predicate BeganAt(actions: seq<Action>, l: nat, n: nat, req: nat)
    requires n <= |actions|
  {
    && l < n && actions[l].ActList? && actions[l].req == req
    && forall k :: l < k < n ==> !(actions[k].ActList? && actions[k].req == req)
  }

  /** Between the listing and now the other module said there is another way in. */
  ghost predicate Confirmed(actions: seq<Action>, l: nat, n: nat, req: nat)
    requires n <= |actions|
  {
    exists m :: l < m < n && actions[m] == ActAnswer(req, Some(true))
  }

  ghost predicate AskedFor(s: State, actions: seq<Action>, n: nat, req: nat)
    requires n <= |actions| && req in s.requests
  {
    exists l: nat :: BeganAt(actions, l, n, req) && actions[l].customer == s.requests[req].customer
      && actions[l].id == s.requests[req].id
      && (s.requests[req].Ready? && s.requests[req].allowLast ==> Confirmed(actions, l, n, req))
  }

  lemma {:induction false} LeaveIsGiven(states: seq<State>, actions: seq<Action>, n: nat)
    requires IsRun(states, actions) && n < |states|
    ensures forall req :: req in states[n].requests ==> AskedFor(states[n], actions, n, req)
  {
    if n > 0 {
      LeaveIsGiven(states, actions, n - 1);
      assert states[n - 1 + 1] == Step(states[n - 1], actions[n - 1]);
      forall req | req in states[n].requests ensures AskedFor(states[n], actions, n, req) {
        StillAskedFor(states[n - 1], states[n], actions, n - 1, req);
      }
    }
  }

  lemma StillAskedFor(s: State, t: State, actions: seq<Action>, n: nat, req: nat)
    requires n < |actions| && Enabled(s, actions[n]) && t == Step(s, actions[n]) && req in t.requests
    requires req in s.requests ==> AskedFor(s, actions, n, req)
    ensures AskedFor(t, actions, n + 1, req)
  {
    if actions[n].ActList? && actions[n].req == req {
      assert BeganAt(actions, n, n + 1, req);
    } else {
      var l: nat :| BeganAt(actions, l, n, req) && actions[l].customer == s.requests[req].customer
        && actions[l].id == s.requests[req].id
        && (s.requests[req].Ready? && s.requests[req].allowLast ==> Confirmed(actions, l, n, req));
      assert BeganAt(actions, l, n + 1, req);
      if t.requests[req].Ready? && t.requests[req].allowLast {
        if s.requests[req] == t.requests[req] {
          var m :| l < m < n && actions[m] == ActAnswer(req, Some(true));
        } else {
          assert actions[n] == ActAnswer(req, Some(true));
        }
        assert Confirmed(actions, l, n + 1, req);
      }
    }
  }

  /** However stale the count a removal began with: it takes a customer's last way in
      only if, after this very request's listing, another way in was asked about and
      confirmed. */
  lemma LastWayInGoesOnlyKnowingly(states: seq<State>, actions: seq<Action>, n: nat, customer: Customer)
    requires IsRun(states, actions) && n < |actions| && actions[n].ActRemove?
    requires WaysIn(states[n].table, states[n].rp, customer) != {}
    requires WaysIn(states[n + 1].table, states[n + 1].rp, customer) == {}
    ensures exists l: nat :: BeganAt(actions, l, n, actions[n].req) && actions[l].customer == customer
              && Confirmed(actions, l, n, actions[n].req)
  {
    var s, r := states[n], states[n].requests[actions[n].req];
    assert states[n + 1] == Step(s, actions[n]);
    if r.customer != customer {
      RemovalSparesOthers(s.table, s.rp, r.customer, r.id, r.allowLast, customer);
    }
    if !r.allowLast {
      RemovalLeavesAWayIn(s.table, s.rp, r.customer, r.id, customer);
    }
    LeaveIsGiven(states, actions, n);
    assert AskedFor(s, actions, n, actions[n].req);
  }

  /** The two phases agree: a removal the listing had no question about is refused only
      where the locked rows show one way in, and then it is the target. */
  lemma UnaskedRefusalMeansTheLast(t: Table, rp: string, customer: Customer, id: Id)
    requires RemovalOf(t, rp, customer, id, false) == LastWayIn
    ensures WaysIn(t, rp, customer) == {id}
  {
    var ways := WaysIn(t, rp, customer);
    assert id in ways;
    assert |ways - {id}| == 0;
    assert ways == {id} + (ways - {id});
  }
}
