/** How a delivery calls its handlers: at most three calls each, and the one
    outcome that keeps a message unacknowledged. */
module HandlerCalls {
  /** How one call ended. Every error whose kind is not "invalid" may pass. */
  datatype Outcome = Fine | MayPass | Invalid | Panicked

  /** A handler, by what its n-th call of one delivery answers. */
  type Handler = nat -> Outcome

  /** The waits between the calls, in milliseconds. */
  const RETRY_DELAYS := [250, 1000]

  /** The calls one handler received, and whether shutdown had begun when the
      last of them returned. */
  datatype Served = Served(outcomes: seq<Outcome>, stopping: bool)

  /** Calls of one handler: repeated only after a fault that may pass, never more
      often than the waits allow, and never given up while another call is due. */
  predicate Complete(outcomes: seq<Outcome>) {
    && 1 <= |outcomes| <= |RETRY_DELAYS| + 1
    && (forall k :: 0 <= k < |outcomes| - 1 ==> outcomes[k].MayPass?)
    && (|outcomes| <= |RETRY_DELAYS| ==> !outcomes[|outcomes| - 1].MayPass?)
  }

  predicate StillFailing(outcomes: seq<Outcome>) {
    |outcomes| == |RETRY_DELAYS| + 1 && outcomes[|outcomes| - 1].MayPass?
  }

  /** The only ending that leaves a message pending: a fault that may pass, met
      by a shutdown. */
  predicate Holds(e: Served) {
    StillFailing(e.outcomes) && e.stopping
  }

  /** Whether a delivery whose handlers ended like this is acknowledged. */
  predicate Settles(ends: seq<Served>) {
    forall i :: 0 <= i < |ends| ==> !Holds(ends[i])
  }

  /** A handler is called again after each of its first two faults that may pass, waiting
      a quarter of a second and then a second; three such faults are a failure. */
  method InvokeHandler(h: Handler) returns (failed: bool, outcomes: seq<Outcome>, slept: int)
    ensures Complete(outcomes)
    ensures forall k: nat :: k < |outcomes| ==> outcomes[k] == h(k)
    ensures failed <==> h(0).MayPass? && h(1).MayPass? && h(2).MayPass?
    ensures |outcomes| == if !h(0).MayPass? then 1 else if !h(1).MayPass? then 2 else 3
    ensures failed == StillFailing(outcomes)
    ensures slept == if |outcomes| == 1 then 0 else if |outcomes| == 2 then 250 else 1250
  {
    var attempt: nat := 1;
    outcomes, slept := [], 0;
    while true
      invariant 1 <= attempt <= |RETRY_DELAYS| + 1 && |outcomes| == attempt - 1
      invariant forall k: nat :: k < |outcomes| ==> outcomes[k] == h(k) && outcomes[k].MayPass?
      invariant slept == if attempt == 1 then 0 else if attempt == 2 then 250 else 1250
      decreases |RETRY_DELAYS| + 1 - attempt
    {
      var answer := h(attempt - 1);
      outcomes := outcomes + [answer];
      if answer.Fine? || answer.Panicked? {
        return false, outcomes, slept;
      }
      if answer.Invalid? || attempt > |RETRY_DELAYS| {
        return !answer.Invalid?, outcomes, slept;
      }
      slept := slept + RETRY_DELAYS[attempt - 1];
      attempt := attempt + 1;
    }
  }

  /** One delivery: `stopping[i]` is what the bus's context says once handler i's
      last call has returned. A message that cannot be decoded reaches nobody. */
  method Dispatch(decoded: bool, handlers: seq<Handler>, stopping: seq<bool>) returns (ack: bool, ends: seq<Served>)
    requires |stopping| == |handlers|
    ensures |ends| == if decoded then |handlers| else 0
    ensures forall i :: 0 <= i < |ends| ==> Complete(ends[i].outcomes) && ends[i].stopping == stopping[i]
    ensures forall i, k: nat :: 0 <= i < |ends| && k < |ends[i].outcomes| ==> ends[i].outcomes[k] == handlers[i](k)
    ensures ack == Settles(ends)
    ensures !ack <==>
              decoded && exists i :: 0 <= i < |handlers| && stopping[i] && AlwaysMayPass(handlers[i])
  {
    ack, ends := true, [];
    if !decoded {
      return;
    }
    for n := 0 to |handlers|
      invariant |ends| == n
      invariant forall i :: 0 <= i < n ==> Complete(ends[i].outcomes) && ends[i].stopping == stopping[i]
      invariant forall i, k: nat :: 0 <= i < n && k < |ends[i].outcomes| ==> ends[i].outcomes[k] == handlers[i](k)
      invariant forall i :: 0 <= i < n ==> (StillFailing(ends[i].outcomes) <==> AlwaysMayPass(handlers[i]))
      invariant ack == Settles(ends)
    {
      var failed, outcomes, _ := InvokeHandler(handlers[n]);
      ghost var before := ends;
      ends := ends + [Served(outcomes, stopping[n])];
      assert Settles(ends) <==> Settles(before) && !Holds(ends[n]) by {
        assert forall i :: 0 <= i < n ==> ends[i] == before[i];
      }
      if failed && stopping[n] {
        ack := false;
      }
    }
    assert forall i :: 0 <= i < |ends| ==> (Holds(ends[i]) <==> stopping[i] && AlwaysMayPass(handlers[i]));
  }

  predicate AlwaysMayPass(h: Handler) {
    h(0).MayPass? && h(1).MayPass? && h(2).MayPass?
  }

  /** The calls of one handler end with the first that needs no other, or with the third. */
  lemma ThreeCallsAtMost(outcomes: seq<Outcome>)
    ensures Complete(outcomes) <==>
              || (|outcomes| == 1 && !outcomes[0].MayPass?)
              || (|outcomes| == 2 && outcomes[0].MayPass? && !outcomes[1].MayPass?)
              || (|outcomes| == 3 && outcomes[0].MayPass? && outcomes[1].MayPass?)
    ensures StillFailing(outcomes) <==> |outcomes| == 3 && outcomes[2].MayPass?
  {
  }
}
