/** Consumer loops of the Redis bus: how they start, end, and are waited for. */
module RedisBusClosing {
  import opened Options
  import Counting

  /** A subscription holding the setup lock: before its network call, after it, and
      after it was counted in. */
  datatype Setup =
    | Creating(name: string)
    | Committing(name: string, consuming: bool)
    | Launching(name: string)

  /** `launched` are the loops ever started, in order, `ended` those that returned,
      by their place in it. */
  datatype Bus = Bus(
    closed: bool, handlers: map<string, nat>, consuming: set<string>, setup: Option<Setup>,
    wg: int, launched: seq<string>, ended: set<nat>)

  datatype State = State(bus: Bus, waiting: set<nat>)

  datatype Action =
    | ActEnter(name: string)
    | ActGroup(ok: bool)
    | ActCommit
    | ActLaunch
    | ActLoopEnds(k: nat)
    | ActShutdown(w: nat)
    | ActReturn(w: nat, budgetSpent: bool)

  predicate Enabled(s: State, a: Action) {
    var b := s.bus;
    match a
    case ActEnter(name) => name != "" && b.setup.None?
    case ActGroup(_) => b.setup.Some? && b.setup.value.Creating?
    case ActCommit => b.setup.Some? && b.setup.value.Committing?
    case ActLaunch => b.setup.Some? && b.setup.value.Launching?
    case ActLoopEnds(k) => k < |b.launched| && k !in b.ended
    case ActShutdown(w) => w !in s.waiting
    case ActReturn(w, budgetSpent) => w in s.waiting && (budgetSpent || b.wg == 0)
  }

  function HandlersOf(b: Bus, name: string): nat {
    if name in b.handlers then b.handlers[name] else 0
  }

  function Step(s: State, a: Action): State
    requires Enabled(s, a)
  {
    var b := s.bus;
    match a
    case ActEnter(name) =>
      // A closed bus answers at once; a name that is consumed already needs no group.
      if b.closed then s
      else s.(bus := b.(setup := Some(if name in b.consuming then Committing(name, true) else Creating(name))))
    case ActGroup(ok) =>
      s.(bus := b.(setup := if ok then Some(Committing(b.setup.value.name, false)) else None))
    case ActCommit =>
      var name, consuming := b.setup.value.name, b.setup.value.consuming;
      if b.closed then s.(bus := b.(setup := None))
      else
        var c := b.(handlers := b.handlers[name := HandlersOf(b, name) + 1]);
        s.(bus := if consuming then c.(setup := None) else c.(wg := b.wg + 1, setup := Some(Launching(name))))
    case ActLaunch =>
      var name := b.setup.value.name;
      s.(bus := b.(consuming := b.consuming + {name}, launched := b.launched + [name], setup := None))
    case ActLoopEnds(k) => s.(bus := b.(wg := b.wg - 1, ended := b.ended + {k}))
    case ActShutdown(w) => s.(bus := b.(closed := true), waiting := s.waiting + {w})
    case ActReturn(w, _) => s.(waiting := s.waiting - {w})
  }

  ghost predicate IsRun(states: seq<State>, actions: seq<Action>) {
    && |states| == |actions| + 1
    && states[0] == State(Bus(false, map[], {}, None, 0, [], {}), {})
    && forall i :: 0 <= i < |actions| ==>
         Enabled(states[i], actions[i]) && states[i + 1] == Step(states[i], actions[i])
  }

  function Places(b: Bus): set<nat> {
    Counting.UpTo(|b.launched|)
  }

  predicate AboutToLaunch(b: Bus) {
    b.setup.Some? && b.setup.value.Launching?
  }

  /** The counter is the running loops and the one about to be launched. */
  ghost predicate Counted(b: Bus) {
    && b.ended <= Places(b)
    && b.wg == |b.launched| - |b.ended| + if AboutToLaunch(b) then 1 else 0
  }

  /** Loops and consumed names match, and a set-up under way is for a name without one. */
  ghost predicate OneLoopEach(b: Bus) {
    && (forall i, j :: 0 <= i < j < |b.launched| ==> b.launched[i] != b.launched[j])
    && (forall name :: name in b.launched <==> name in b.consuming)
    && (b.setup.Some? ==>
          (b.setup.value.name in b.consuming <==> b.setup.value.Committing? && b.setup.value.consuming))
  }

  lemma ZeroMeansAllEnded(b: Bus)
    requires Counted(b)
    ensures b.wg >= 0 && (b.wg == 0 <==> b.ended == Places(b) && !AboutToLaunch(b))
  {
    var left := Places(b) - b.ended;
    assert Places(b) == b.ended + left;
    assert |Places(b)| == |b.ended| + |left|;
    assert left == {} <==> b.ended == Places(b);
  }

  lemma StepKeeps(s: State, a: Action)
    requires Enabled(s, a) && Counted(s.bus) && OneLoopEach(s.bus)
    ensures Counted(Step(s, a).bus) && OneLoopEach(Step(s, a).bus)
  {
  }

  lemma {:induction false} RunKeeps(states: seq<State>, actions: seq<Action>, n: nat)
    requires IsRun(states, actions) && n < |states|
    ensures Counted(states[n].bus) && OneLoopEach(states[n].bus)
    ensures states[n].waiting != {} ==> states[n].bus.closed
  {
    if n > 0 {
      RunKeeps(states, actions, n - 1);
      StepKeeps(states[n - 1], actions[n - 1]);
      assert states[n - 1 + 1] == Step(states[n - 1], actions[n - 1]);
    }
  }

  /** However subscriptions race, no event name ever gets a second consumer loop. */
  lemma NeverTwoLoopsForAName(states: seq<State>, actions: seq<Action>, n: nat, i: nat, j: nat)
    requires IsRun(states, actions) && n < |states| && i < j < |states[n].bus.launched|
    ensures states[n].bus.launched[i] != states[n].bus.launched[j]
  {
    RunKeeps(states, actions, n);
  }

  /** A name with a handler has its consumer loop, or is about to get it, and a name
      without one has none. */
  lemma {:induction false} SubscribedIsConsumed(states: seq<State>, actions: seq<Action>, n: nat, name: string)
    requires IsRun(states, actions) && n < |states|
    ensures name in states[n].bus.handlers <==>
              name in states[n].bus.launched || states[n].bus.setup == Some(Launching(name))
  {
    RunKeeps(states, actions, n);
    if n > 0 {
      SubscribedIsConsumed(states, actions, n - 1, name);
      RunKeeps(states, actions, n - 1);
      ConsumedStep(states[n - 1], actions[n - 1], name);
      assert states[n - 1 + 1] == Step(states[n - 1], actions[n - 1]);
    }
  }

  lemma ConsumedStep(s: State, a: Action, name: string)
    requires Enabled(s, a) && OneLoopEach(s.bus)
    requires name in s.bus.handlers <==> name in s.bus.launched || s.bus.setup == Some(Launching(name))
    ensures name in Step(s, a).bus.handlers <==>
              name in Step(s, a).bus.launched || Step(s, a).bus.setup == Some(Launching(name))
  {
  }

  /** After closing nothing more is counted in: the only loop that may still start is
      the one already counted. */
  lemma {:induction false} NothingCountedAfterClosing(states: seq<State>, actions: seq<Action>, i: nat, j: nat)
    requires IsRun(states, actions) && i <= j < |states| && states[i].bus.closed
    ensures states[j].bus.closed && states[j].bus.wg <= states[i].bus.wg
    ensures AboutToLaunch(states[j].bus) ==> AboutToLaunch(states[i].bus)
    ensures !AboutToLaunch(states[i].bus) ==> states[j].bus.launched == states[i].bus.launched
    decreases j - i
  {
    if i < j {
      NothingCountedAfterClosing(states, actions, i, j - 1);
      assert states[j - 1 + 1] == Step(states[j - 1], actions[j - 1]);
    }
  }

  /** A shutdown that returns nil leaves every consumer loop ended, and none starts
      afterwards. */
  lemma NilMeansAllLoopsEnded(states: seq<State>, actions: seq<Action>, i: nat, j: nat)
    requires IsRun(states, actions) && i < j < |states|
    requires actions[i].ActReturn? && !actions[i].budgetSpent
    ensures states[j].bus.ended == Places(states[j].bus) && states[j].bus.launched == states[i].bus.launched
  {
    RunKeeps(states, actions, i);
    ZeroMeansAllEnded(states[i].bus);
    NothingCountedAfterClosing(states, actions, i, j);
    RunKeeps(states, actions, j);
    ZeroMeansAllEnded(states[j].bus);
  }
}
