/** Whole runs of sign-ins, password replacements and revocations against the
    credential rows: which cookies still prove their customer. */
module SessionAnchors {
  import opened Options
  import SessionCookies

  type Customer = string

  const SECOND := SessionCookies.SECOND
  const MILLI := SessionCookies.MILLI

  /** A cookie as the verifier opens it; an older one carries no issue. */
  datatype Cookie = Cookie(customer: Customer, expiry: int, issued: Option<int>)

  /** A credential row; its anchor is NULL until the first move. */
  datatype Row = Row(anchor: Option<int>)

  /** A request between the moment it read and what it does with it. */
  datatype Request =
    | SigningIn(customer: Customer, readAt: int)
    | Ending(customer: Customer, moment: int, insert: bool)
    | Answering(customer: Customer)

  datatype State = State(clock: int, ttl: int, rows: map<Customer, Row>, requests: map<nat, Request>)

  datatype Action =
    | ActTick(d: nat)
    | ActRead(id: nat, customer: Customer)
    | ActSignIn(id: nat)
    | ActBegin(id: nat, customer: Customer, insert: bool)
    | ActWrite(id: nat)
    | ActIssue(id: nat)
    | ActPut(customer: Customer)
    | ActErase(customer: Customer)

  function Truncated(t: int, unit: int): int
    requires unit > 0
  {
    t / unit * unit
  }

  /** What seal writes and open reads back. */
  function Dated(customer: Customer, expiry: int, issued: int): Cookie {
    Cookie(customer, Truncated(expiry, SECOND), Some(Truncated(issued, MILLI)))
  }

  /** A zero or future reading dates the cookie now. */
  function IssueAsOf(s: State, customer: Customer, readAt: Option<int>): Cookie {
    var issued := if readAt.None? || readAt.value > s.clock then s.clock else readAt.value;
    Dated(customer, s.clock + s.ttl, issued)
  }

  /** GREATEST, which skips a NULL. */
  function Later(anchor: Option<int>, moment: int): Option<int> {
    if anchor.Some? && anchor.value > moment then anchor else Some(moment)
  }

  function AnchorOf(s: State, customer: Customer): Option<int> {
    if customer in s.rows then s.rows[customer].anchor else None
  }

  /** Compared at a millisecond; no issue is before any anchor. */
  predicate IssuedBefore(issued: Option<int>, anchor: Option<int>) {
    anchor.Some? && (issued.None? || Truncated(issued.value, MILLI) < Truncated(anchor.value, MILLI))
  }

  predicate Proves(s: State, c: Cookie) {
    s.clock < c.expiry && !IssuedBefore(c.issued, AnchorOf(s, c.customer))
  }

  predicate Enabled(s: State, a: Action) {
    match a
    case ActRead(id, _) => id !in s.requests
    case ActSignIn(id) => id in s.requests && s.requests[id].SigningIn?
    case ActBegin(id, _, _) => id !in s.requests
    case ActWrite(id) => id in s.requests && s.requests[id].Ending?
    case ActIssue(id) => id in s.requests && s.requests[id].Answering?
    case _ => true
  }

  /** A revocation of a customer without a row answers an error and ends there. */
  function Step(s: State, a: Action): State
    requires Enabled(s, a)
  {
    match a
    case ActTick(d) => s.(clock := s.clock + d)
    case ActRead(id, customer) => s.(requests := s.requests[id := SigningIn(customer, s.clock)])
    case ActSignIn(id) => s.(requests := s.requests - {id})
    case ActBegin(id, customer, insert) =>
      s.(requests := s.requests[id := Ending(customer, Truncated(s.clock, MILLI), insert)])
    case ActWrite(id) =>
      var r := s.requests[id];
      if r.customer in s.rows || r.insert then
        s.(rows := s.rows[r.customer := Row(Later(AnchorOf(s, r.customer), r.moment))],
           requests := s.requests[id := Answering(r.customer)])
      else s.(requests := s.requests - {id})
    case ActIssue(id) => s.(requests := s.requests - {id})
    case ActPut(customer) => if customer in s.rows then s else s.(rows := s.rows[customer := Row(None)])
    case ActErase(customer) => s.(rows := s.rows - {customer})
  }

  /** The cookie a step hands out. */
  function Handed(s: State, a: Action): Option<Cookie>
    requires Enabled(s, a)
  {
    match a
    case ActSignIn(id) => Some(IssueAsOf(s, s.requests[id].customer, Some(s.requests[id].readAt)))
    case ActIssue(id) => Some(IssueAsOf(s, s.requests[id].customer, None))
    case _ => None
  }

  /** No row's anchor is ahead of the clock. */
  ghost predicate AnchorsPast(s: State) {
    forall c :: c in s.rows && s.rows[c].anchor.Some? ==> s.rows[c].anchor.value <= s.clock
  }

  ghost predicate IsRun(states: seq<State>, actions: seq<Action>) {
    && |states| == |actions| + 1 && states[0].requests == map[] && AnchorsPast(states[0])
    && forall i :: 0 <= i < |actions| ==>
         Enabled(states[i], actions[i]) && states[i + 1] == Step(states[i], actions[i])
  }

  /** Step i moves the customer's anchor to the moment, or finds it later already. */
  ghost predicate Moves(states: seq<State>, actions: seq<Action>, i: nat, customer: Customer, moment: int)
    requires |states| == |actions| + 1 && i < |actions|
  {
    && Enabled(states[i], actions[i]) && actions[i].ActWrite?
    && var r := states[i].requests[actions[i].id];
       r.customer == customer && r.moment == moment && (r.customer in states[i].rows || r.insert)
  }

  ghost predicate Erases(actions: seq<Action>, i: nat, j: nat, customer: Customer)
    requires i <= j <= |actions|
  {
    exists k :: i <= k < j && actions[k] == ActErase(customer)
  }

  predicate NotBefore(a: Option<int>, b: Option<int>) {
    a.Some? ==> b.Some? && a.value <= b.value
  }

  /** The anchor never moves back, unless the credential itself is erased. */
  lemma {:induction false} AnchorsNeverMoveBack(states: seq<State>, actions: seq<Action>, i: nat, j: nat, customer: Customer)
    requires IsRun(states, actions) && i <= j < |states| && !Erases(actions, i, j, customer)
    ensures NotBefore(AnchorOf(states[i], customer), AnchorOf(states[j], customer))
    decreases j - i
  {
    if i < j {
      assert actions[j - 1] != ActErase(customer);
      AnchorsNeverMoveBack(states, actions, i, j - 1, customer);
      assert states[j - 1 + 1] == Step(states[j - 1], actions[j - 1]);
    }
  }

  /** After a replacement or revocation of moment m is written, no cookie dated in an
      earlier millisecond proves the customer, nor one without a date. */
  lemma EndedCookiesStayEnded(states: seq<State>, actions: seq<Action>, i: nat, j: nat, customer: Customer, moment: int, c: Cookie)
    requires IsRun(states, actions) && i < j < |states| && Moves(states, actions, i, customer, moment)
    requires c.customer == customer && (c.issued.None? || Truncated(c.issued.value, MILLI) < Truncated(moment, MILLI))
    ensures Proves(states[j], c) ==> Erases(actions, i + 1, j, customer)
  {
    assert states[i + 1] == Step(states[i], actions[i]);
    if !Erases(actions, i + 1, j, customer) {
      AnchorsNeverMoveBack(states, actions, i + 1, j, customer);
      TruncationKeepsOrder(moment, AnchorOf(states[i + 1], customer).value);
      TruncationKeepsOrder(AnchorOf(states[i + 1], customer).value, AnchorOf(states[j], customer).value);
    }
  }

  lemma TruncationKeepsOrder(a: int, b: int)
    requires a <= b
    ensures Truncated(a, MILLI) <= Truncated(b, MILLI)
  {
  }

  // ----- the cookies of the requests themselves

  /** A request's reading is never ahead of the clock. */
  ghost predicate ReadingsPast(s: State) {
    forall id :: id in s.requests ==>
      && (s.requests[id].SigningIn? ==> s.requests[id].readAt <= s.clock)
      && (s.requests[id].Ending? ==> s.requests[id].moment <= Truncated(s.clock, MILLI))
  }

  lemma {:induction false} ReadingsStayPast(states: seq<State>, actions: seq<Action>, n: nat)
    requires IsRun(states, actions) && n < |states|
    ensures ReadingsPast(states[n]) && AnchorsPast(states[n])
  {
    if n > 0 {
      ReadingsStayPast(states, actions, n - 1);
      var s, a := states[n - 1], actions[n - 1];
      assert states[n - 1 + 1] == Step(s, a);
      if a.ActTick? {
        TruncationKeepsOrder(s.clock, s.clock + a.d);
      }
    }
  }

  /** An anchor that ends a cookie not ended before was moved past it in between. */
  lemma {:induction false} EndedMeansMoved(states: seq<State>, actions: seq<Action>, i: nat, j: nat, c: Cookie)
    requires IsRun(states, actions) && i <= j < |states|
    requires !IssuedBefore(c.issued, AnchorOf(states[i], c.customer))
    requires IssuedBefore(c.issued, AnchorOf(states[j], c.customer))
    ensures exists k, m :: i <= k < j && Moves(states, actions, k, c.customer, m) && IssuedBefore(c.issued, Some(m))
    decreases j - i
  {
    if !IssuedBefore(c.issued, AnchorOf(states[j - 1], c.customer)) {
      var s, a := states[j - 1], actions[j - 1];
      assert states[j - 1 + 1] == Step(s, a);
      assert a.ActWrite? && s.requests[a.id].customer == c.customer;
      assert Moves(states, actions, j - 1, c.customer, s.requests[a.id].moment);
    } else {
      EndedMeansMoved(states, actions, i, j - 1, c);
    }
  }

  /** The write at step i ends the cookie: it is dated later. */
  ghost predicate Ends(states: seq<State>, actions: seq<Action>, i: nat, c: Cookie)
    requires |states| == |actions| + 1 && i < |actions|
  {
    exists m :: Moves(states, actions, i, c.customer, m) && IssuedBefore(c.issued, Some(m))
  }

  /** The credential was erased after step i, and nothing since has ended the cookie. */
  ghost predicate ErasedForGood(states: seq<State>, actions: seq<Action>, i: nat, j: nat, c: Cookie)
    requires |states| == |actions| + 1 && j <= |actions|
  {
    exists k: nat :: i < k < j && actions[k] == ActErase(c.customer)
      && forall w: nat :: k < w < j ==> !Ends(states, actions, w, c)
  }

  lemma {:induction false} LastErasure(actions: seq<Action>, i: nat, j: nat, customer: Customer) returns (k: nat)
    requires i <= j <= |actions| && Erases(actions, i, j, customer)
    ensures i <= k < j && actions[k] == ActErase(customer) && !Erases(actions, k + 1, j, customer)
    decreases j
  {
    if actions[j - 1] == ActErase(customer) {
      k := j - 1;
    } else {
      k := LastErasure(actions, i, j - 1, customer);
    }
  }

  /** A cookie that a write has ended, and that has not expired, proves its customer
      exactly if the credential, and its anchor with it, was erased after the write
      and no write since the erasure has ended the cookie again. */
  lemma EndedProvesIffErased(states: seq<State>, actions: seq<Action>, i: nat, j: nat, c: Cookie)
    requires IsRun(states, actions) && i < j < |states| && Ends(states, actions, i, c)
    requires states[j].clock < c.expiry
    ensures Proves(states[j], c) <==> ErasedForGood(states, actions, i, j, c)
  {
    if Proves(states[j], c) {
      var m :| Moves(states, actions, i, c.customer, m) && IssuedBefore(c.issued, Some(m));
      EndedCookiesStayEnded(states, actions, i, j, c.customer, m, c);
      var k := LastErasure(actions, i + 1, j, c.customer);
      forall w: nat | k < w < j ensures !Ends(states, actions, w, c) {
        if Ends(states, actions, w, c) {
          var m' :| Moves(states, actions, w, c.customer, m') && IssuedBefore(c.issued, Some(m'));
          EndedCookiesStayEnded(states, actions, w, j, c.customer, m', c);
        }
      }
    }
    if ErasedForGood(states, actions, i, j, c) {
      var k: nat :| i < k < j && actions[k] == ActErase(c.customer)
                    && forall w: nat :: k < w < j ==> !Ends(states, actions, w, c);
      assert states[k + 1] == Step(states[k], actions[k]);
      if IssuedBefore(c.issued, AnchorOf(states[j], c.customer)) {
        EndedMeansMoved(states, actions, k + 1, j, c);
        var w, m :| k + 1 <= w < j && Moves(states, actions, w, c.customer, m) && IssuedBefore(c.issued, Some(m));
        assert Ends(states, actions, w, c);
      }
    }
  }

  /** A run in which it does: a sign-in, a revocation a millisecond later that ends
      its cookie, and the erasure of the credential. */
  lemma ErasureRevives(customer: Customer) returns (states: seq<State>, actions: seq<Action>, c: Cookie)
    ensures IsRun(states, actions) && |actions| == 7 && Handed(states[2], actions[2]) == Some(c)
    ensures Ends(states, actions, 5, c) && !Proves(states[6], c) && Proves(states[7], c)
  {
    var row, ended := map[customer := Row(None)], map[customer := Row(Some(MILLI))];
    Dates();
    c := Cookie(customer, SECOND, Some(0));
    actions := [ActPut(customer), ActRead(0, customer), ActSignIn(0), ActTick(MILLI),
                ActBegin(1, customer, false), ActWrite(1), ActErase(customer)];
    states := [State(0, SECOND, map[], map[]),
               State(0, SECOND, row, map[]),
               State(0, SECOND, row, map[0 := SigningIn(customer, 0)]),
               State(0, SECOND, row, map[]),
               State(MILLI, SECOND, row, map[]),
               State(MILLI, SECOND, row, map[1 := Ending(customer, MILLI, false)]),
               State(MILLI, SECOND, ended, map[1 := Answering(customer)]),
               State(MILLI, SECOND, map[], map[1 := Answering(customer)])];
    assert Step(states[0], actions[0]) == states[1];
    assert Step(states[2], actions[2]) == states[3];
    assert Step(states[5], actions[5]) == states[6];
    assert Step(states[6], actions[6]) == states[7];
    assert Moves(states, actions, 5, customer, MILLI);
  }

  lemma Dates()
    ensures Truncated(SECOND, SECOND) == SECOND && Truncated(MILLI, MILLI) == MILLI
    ensures Truncated(0, MILLI) == 0 && MILLI < SECOND
  {
  }

  /** The cookie a request issues once it has written proves its customer until it
      expires or a later write moves past it: no anchor is ahead of the clock. */
  lemma IssuedCookieProves(states: seq<State>, actions: seq<Action>, j: nat, k: nat)
    requires IsRun(states, actions) && j < k < |states| && actions[j].ActIssue? && Enabled(states[j], actions[j])
    ensures var c := Handed(states[j], actions[j]).value;
            || Proves(states[k], c) || states[k].clock >= c.expiry
            || exists w, m :: j <= w < k && Moves(states, actions, w, c.customer, m) && IssuedBefore(c.issued, Some(m))
  {
    var c := Handed(states[j], actions[j]).value;
    ReadingsStayPast(states, actions, j);
    var anchor := AnchorOf(states[j], c.customer);
    if anchor.Some? {
      TruncationKeepsOrder(anchor.value, states[j].clock);
    }
    assert !IssuedBefore(c.issued, anchor);
    if IssuedBefore(c.issued, AnchorOf(states[k], c.customer)) {
      EndedMeansMoved(states, actions, j, k, c);
    }
  }

  /** A cookie is handed to the request's own customer, for a whole lifetime from now to
      the second, and dated at the reading of the credential, or now if nothing was
      read. From then on it proves its customer until it expires, unless its anchor was
      or is moved past that date. */
  lemma HandedCookieLasts(states: seq<State>, actions: seq<Action>, j: nat, k: nat)
    requires IsRun(states, actions) && j < k < |states| && (actions[j].ActIssue? || actions[j].ActSignIn?)
    requires Enabled(states[j], actions[j])
    ensures var s, r := states[j], states[j].requests[actions[j].id];
            var c, read := Handed(states[j], actions[j]).value, if r.SigningIn? then r.readAt else s.clock;
            && c.customer == r.customer && c.issued == Some(Truncated(read, MILLI)) && read <= s.clock
            && s.clock + s.ttl - SECOND < c.expiry <= s.clock + s.ttl
            && (Proves(states[k], c) || states[k].clock >= c.expiry || IssuedBefore(c.issued, AnchorOf(s, c.customer))
                || exists w :: j <= w < k && Ends(states, actions, w, c))
  {
    var c := Handed(states[j], actions[j]).value;
    ReadingsStayPast(states, actions, j);
    if !IssuedBefore(c.issued, AnchorOf(states[j], c.customer)) && IssuedBefore(c.issued, AnchorOf(states[k], c.customer)) {
      EndedMeansMoved(states, actions, j, k, c);
      var w, m :| j <= w < k && Moves(states, actions, w, c.customer, m) && IssuedBefore(c.issued, Some(m));
      assert Ends(states, actions, w, c);
    }
  }

  /** A sign-in that read the credential before a replacement was written keeps its
      session only if it read no earlier than the millisecond the replacement is
      dated in: the replacement dates itself before it writes. */
  lemma OldReadingSurvivesOnlyInTheGap(states: seq<State>, actions: seq<Action>, i: nat, j: nat, k: nat, customer: Customer, moment: int)
    requires IsRun(states, actions) && i < |actions| && Moves(states, actions, i, customer, moment)
    requires j < |actions| && actions[j].ActSignIn? && Enabled(states[j], actions[j])
    requires states[j].requests[actions[j].id].customer == customer
    requires i < k < |states| && !Erases(actions, i + 1, k, customer)
    requires Proves(states[k], Handed(states[j], actions[j]).value)
    ensures Truncated(states[j].requests[actions[j].id].readAt, MILLI) >= Truncated(moment, MILLI)
  {
    var c := Handed(states[j], actions[j]).value;
    ReadingsStayPast(states, actions, j);
    if Truncated(c.issued.value, MILLI) < Truncated(moment, MILLI) {
      EndedCookiesStayEnded(states, actions, i, k, customer, moment, c);
    }
  }
}
