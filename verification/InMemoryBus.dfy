/** The in-process bus: publications, subscriptions, handlers that run on their own,
    and any number of shutdowns. */
module InMemoryBus {
  import Counting

  /** What the bus's lock and wait group protect. `started` and `ended` number every
      handler call ever begun; `wg` is the wait group's counter. */
  datatype Bus = Bus(closed: bool, handlers: map<string, nat>, wg: int, started: nat, ended: set<nat>)

  datatype Answer = Ok | Closed | Invalid

  function HandlersOf(b: Bus, name: string): nat {
    if name in b.handlers then b.handlers[name] else 0
  }

  /** Under the read lock: one running call for each handler, all counted at once. */
  function Publish(b: Bus, name: string): (Bus, Answer) {
    if name == "" then (b, Invalid)
    else if b.closed then (b, Closed)
    else
      var n := HandlersOf(b, name);
      (b.(wg := b.wg + n, started := b.started + n), Ok)
  }

  /** A nil handler is refused. */
  function Subscribe(b: Bus, name: string, present: bool): (Bus, Answer) {
    if name == "" || !present then (b, Invalid)
    else if b.closed then (b, Closed)
    else (b.(handlers := b.handlers[name := HandlersOf(b, name) + 1]), Ok)
  }

  function Close(b: Bus): Bus {
    b.(closed := true)
  }

  /** A handler call has returned and counts itself out. */
  function End(b: Bus, id: nat): Bus {
    b.(wg := b.wg - 1, ended := b.ended + {id})
  }

  class InMemory {
    var closed: bool
    var handlers: map<string, nat>
    var wg: int
    ghost var started: nat
    ghost var ended: set<nat>

    constructor ()
      ensures View() == Bus(false, map[], 0, 0, {})
    {
      closed, handlers, wg, started, ended := false, map[], 0, 0, {};
    }

    ghost function View(): Bus
      reads this
    {
      Bus(closed, handlers, wg, started, ended)
    }

    method PublishEvent(name: string) returns (r: Answer)
      modifies this
      ensures (View(), r) == Publish(old(View()), name)
    {
      if name == "" {
        return Invalid;
      }
      if closed {
        return Closed;
      }
      var n := if name in handlers then handlers[name] else 0;
      if n == 0 {
        return Ok;
      }
      wg := wg + n;
      for i := 0 to n
        invariant started == old(started) + i
        invariant wg == old(wg) + n && !closed && handlers == old(handlers) && ended == old(ended)
      {
        started := started + 1;
      }
      return Ok;
    }

    method SubscribeHandler(name: string, present: bool) returns (r: Answer)
      modifies this
      ensures (View(), r) == Subscribe(old(View()), name, present)
    {
      if name == "" {
        return Invalid;
      }
      if !present {
        return Invalid;
      }
      if closed {
        return Closed;
      }
      handlers := handlers[name := (if name in handlers then handlers[name] else 0) + 1];
      return Ok;
    }
  }

  // ----- runs

  /** `waiting` are the shutdowns inside awaitHandlers; `clean` counts those that
      returned nil. */
  datatype State = State(bus: Bus, waiting: set<nat>, clean: nat)

  datatype Action =
    | ActPublish(name: string)
    | ActSubscribe(name: string, present: bool)
    | ActEnd(id: nat)
    | ActShutdown(w: nat)
    | ActReturn(w: nat, budgetSpent: bool)

  predicate Enabled(s: State, a: Action) {
    match a
    case ActEnd(id) => id < s.bus.started && id !in s.bus.ended
    case ActShutdown(w) => w !in s.waiting
    case ActReturn(w, budgetSpent) => w in s.waiting && (budgetSpent || s.bus.wg == 0)
    case _ => true
  }

  function Step(s: State, a: Action): State
    requires Enabled(s, a)
  {
    match a
    case ActPublish(name) => s.(bus := Publish(s.bus, name).0)
    case ActSubscribe(name, present) => s.(bus := Subscribe(s.bus, name, present).0)
    case ActEnd(id) => s.(bus := End(s.bus, id))
    case ActShutdown(w) => s.(bus := Close(s.bus), waiting := s.waiting + {w})
    case ActReturn(w, budgetSpent) =>
      s.(waiting := s.waiting - {w}, clean := if budgetSpent then s.clean else s.clean + 1)
  }

  ghost predicate IsRun(states: seq<State>, actions: seq<Action>) {
    && |states| == |actions| + 1
    && states[0] == State(Bus(false, map[], 0, 0, {}), {}, 0)
    && forall i :: 0 <= i < |actions| ==>
         Enabled(states[i], actions[i]) && states[i + 1] == Step(states[i], actions[i])
  }

  function AllStarted(b: Bus): set<nat> {
    Counting.UpTo(b.started)
  }

  /** The counter is the number of calls still running; once a shutdown returned nil
      there are none. */
  ghost predicate Counted(s: State) {
    && s.bus.ended <= AllStarted(s.bus)
    && s.bus.wg == s.bus.started - |s.bus.ended|
    && (s.waiting != {} || s.clean > 0 ==> s.bus.closed)
    && (s.clean > 0 ==> s.bus.wg == 0)
  }

  /** The counter reaches zero exactly when every call has ended. */
  lemma ZeroMeansAllEnded(b: Bus)
    requires b.ended <= AllStarted(b) && b.wg == b.started - |b.ended|
    ensures b.wg >= 0 && (b.wg == 0 <==> b.ended == AllStarted(b))
  {
    var left := AllStarted(b) - b.ended;
    assert AllStarted(b) == b.ended + left;
    assert |AllStarted(b)| == |b.ended| + |left|;
    assert left == {} <==> b.ended == AllStarted(b);
  }

  lemma StepKeeps(s: State, a: Action)
    requires Enabled(s, a) && Counted(s)
    ensures Counted(Step(s, a))
    ensures s.bus.closed ==>
              Step(s, a).bus.closed && Step(s, a).bus.started == s.bus.started && Step(s, a).bus.wg <= s.bus.wg
  {
    ZeroMeansAllEnded(s.bus);
  }

  lemma {:induction false} RunKeeps(states: seq<State>, actions: seq<Action>, n: nat)
    requires IsRun(states, actions) && n < |states|
    ensures Counted(states[n])
  {
    if n > 0 {
      RunKeeps(states, actions, n - 1);
      StepKeeps(states[n - 1], actions[n - 1]);
      assert states[n - 1 + 1] == Step(states[n - 1], actions[n - 1]);
    }
  }

  // ----- who is called

  /** Some shutdown had begun by then. */
  predicate ClosedBy(actions: seq<Action>, n: nat)
    requires n <= |actions|
  {
    exists k :: 0 <= k < n && actions[k].ActShutdown?
  }

  /** How many handlers were subscribed to the name by then, before any shutdown. */
  function Bound(actions: seq<Action>, n: nat, name: string): nat
    requires n <= |actions|
  {
    if n == 0 then 0
    else
      var bound := actions[n - 1] == ActSubscribe(name, true) && name != "" && !ClosedBy(actions, n - 1);
      Bound(actions, n - 1, name) + (if bound then 1 else 0)
  }

  lemma {:induction false} HandlersAreBound(states: seq<State>, actions: seq<Action>, n: nat, name: string)
    requires IsRun(states, actions) && n < |states|
    ensures states[n].bus.closed <==> ClosedBy(actions, n)
    ensures HandlersOf(states[n].bus, name) == Bound(actions, n, name)
  {
    if n > 0 {
      HandlersAreBound(states, actions, n - 1, name);
      assert states[n - 1 + 1] == Step(states[n - 1], actions[n - 1]);
      assert ClosedBy(actions, n) <==> ClosedBy(actions, n - 1) || actions[n - 1].ActShutdown?;
    }
  }

  /** A publication before any shutdown calls every handler subscribed to the name so
      far, each counted in before it runs; after one, or without a name, it calls none. */
  lemma EveryHandlerIsCalled(states: seq<State>, actions: seq<Action>, n: nat)
    requires IsRun(states, actions) && n < |actions| && actions[n].ActPublish?
    ensures var b, t, name := states[n].bus, states[n + 1].bus, actions[n].name;
            var called := if name == "" || ClosedBy(actions, n) then 0 else Bound(actions, n, name);
            && t.started == b.started + called && t.wg == b.wg + called && t.ended == b.ended
            && (Publish(b, name).1 == Ok <==> name != "" && !ClosedBy(actions, n))
  {
    HandlersAreBound(states, actions, n, actions[n].name);
    assert states[n + 1] == Step(states[n], actions[n]);
  }

  /** Once the bus is closed nothing is counted in any more. */
  lemma {:induction false} NothingStartsAfterClosing(states: seq<State>, actions: seq<Action>, i: nat, j: nat)
    requires IsRun(states, actions) && i <= j < |states| && states[i].bus.closed
    ensures states[j].bus.closed && states[j].bus.started == states[i].bus.started
    ensures states[j].bus.wg <= states[i].bus.wg
    decreases j - i
  {
    if i < j {
      NothingStartsAfterClosing(states, actions, i, j - 1);
      RunKeeps(states, actions, j - 1);
      StepKeeps(states[j - 1], actions[j - 1]);
      StepAt(states, actions, j);
    }
  }

  lemma StepAt(states: seq<State>, actions: seq<Action>, n: nat)
    requires IsRun(states, actions) && 0 < n < |states|
    ensures Enabled(states[n - 1], actions[n - 1]) && states[n] == Step(states[n - 1], actions[n - 1])
  {
    assert states[n - 1 + 1] == Step(states[n - 1], actions[n - 1]);
  }

  /** A shutdown that returns nil leaves every handler call of every accepted event
      ended, then and for good. */
  lemma NilMeansAllEnded(states: seq<State>, actions: seq<Action>, i: nat, j: nat)
    requires IsRun(states, actions) && i < j < |states|
    requires actions[i].ActReturn? && !actions[i].budgetSpent
    ensures states[j].bus.ended == AllStarted(states[j].bus)
    ensures states[j].bus.started == states[i].bus.started && states[j].bus.closed
  {
    RunKeeps(states, actions, i);
    NothingStartsAfterClosing(states, actions, i, j);
    RunKeeps(states, actions, j);
    ZeroMeansAllEnded(states[j].bus);
  }
}
