/** Whole runs of the container: any number of callers and constructors, one
    shutdown, every lock-held section of ContainerSpec an atomic step. */
module ContainerRuns {
  import opened WaitGraph
  import opened ContainerSpec

  datatype Phase = Waiting | Running | Done(reply: Reply)

  /** One resolution: `maker` is the constructor whose code made it ("" for code
      outside any constructor), `owner` the one whose container it was made through. */
  datatype Call = Call(maker: Name, owner: Name, target: Name, phase: Phase)

  datatype Closing = NotBegun | Draining | Visiting(targets: seq<Name>, drained: bool, done: nat)

  datatype System = System(
    reg: Registry,
    calls: map<nat, Call>,
    starts: multiset<Name>,
    closing: Closing,
    visited: seq<Name>)

  datatype Action =
    | ActProvide(name: Name, arg: Arg)
    | ActEnter(id: nat, maker: Name, owner: Name, name: Name)
    | ActWake(id: nat)
    | ActFinish(id: nat, outcome: Outcome)
    | ActShutdown
    | ActSnapshot(budgetSpent: bool)
    | ActClose

  const START := System(EMPTY, map[], multiset{}, NotBegun, [])

  ghost predicate Enabled(s: System, a: Action) {
    match a
    case ActProvide(_, _) => true
    case ActEnter(id, maker, owner, name) => id !in s.calls
    case ActWake(id) =>
      id in s.calls && s.calls[id].phase.Waiting? && IsBuilt(s, s.calls[id].target)
    case ActFinish(id, _) =>
      id in s.calls && s.calls[id].phase.Running? && s.calls[id].target in s.reg.entries && s.reg.building > 0
    case ActShutdown => true
    case ActSnapshot(budgetSpent) => s.closing.Draining? && (budgetSpent || !s.reg.drain.Pending?)
    case ActClose => s.closing.Visiting? && s.closing.done < |s.closing.targets|
  }

  ghost predicate IsBuilt(s: System, n: Name) {
    n in s.reg.entries && s.reg.entries[n].Built?
  }

  ghost function Step(s: System, a: Action): System
    requires Enabled(s, a)
  {
    match a
    case ActProvide(name, arg) => s.(reg := Provide(s.reg, name, arg).0)
    case ActEnter(id, maker, owner, name) =>
      var (r, e) := Enter(s.reg, owner, name);
      var phase := match e case Answer(reply) => Done(reply) case Wait => Waiting case Run => Running;
      s.(reg := r,
         calls := s.calls[id := Call(maker, owner, name, phase)],
         starts := if e.Run? then s.starts + multiset{name} else s.starts)
    case ActWake(id) =>
      var c := s.calls[id];
      var (r, reply) := Wake(s.reg, c.owner, c.target);
      s.(reg := r, calls := s.calls[id := c.(phase := Done(reply))])
    case ActFinish(id, outcome) =>
      var c := s.calls[id];
      var (r, reply) := Finish(s.reg, c.owner, c.target, outcome);
      s.(reg := r, calls := s.calls[id := c.(phase := Done(reply))])
    case ActShutdown =>
      if s.reg.closed then s else s.(reg := BeginShutdown(s.reg), closing := Draining)
    case ActSnapshot(_) =>
      s.(closing := Visiting(Targets(s.reg, s.reg.order), s.reg.building == 0, 0))
    case ActClose =>
      // A close that fails or panics is logged and the next service follows.
      s.(visited := s.visited + [s.closing.targets[s.closing.done]],
         closing := s.closing.(done := s.closing.done + 1))
  }

  ghost predicate IsRun(states: seq<System>, actions: seq<Action>) {
    && |states| == |actions| + 1
    && states[0] == START
    && forall i :: 0 <= i < |actions| ==>
         Enabled(states[i], actions[i]) && states[i + 1] == Step(states[i], actions[i])
  }

  ghost predicate Reachable(s: System) {
    exists states, actions :: IsRun(states, actions) && states[|actions|] == s
  }

  // ----- the invariant

  ghost predicate Outstanding(s: System, id: nat) {
    id in s.calls && !s.calls[id].phase.Done? && !IsBuilt(s, s.calls[id].target)
  }

  /** Every outstanding call made through a constructor's container has its edge. */
  ghost predicate EdgesHeld(s: System) {
    forall id :: Outstanding(s, id) && s.calls[id].owner != "" ==>
      s.calls[id].target in Waits(s.reg.blocked, s.calls[id].owner)
  }

  /** The building entries and the calls that run a constructor match one to one. */
  ghost predicate Staffed(s: System) {
    && (forall id :: id in s.calls && !s.calls[id].phase.Done? ==>
          s.calls[id].target in s.reg.entries && !s.reg.entries[s.calls[id].target].Unbuilt?)
    && (forall id :: Runs(s, id) ==> s.reg.entries[s.calls[id].target].Building?)
    && (forall a, b :: Runs(s, a) && Runs(s, b) && s.calls[a].target == s.calls[b].target ==> a == b)
    && (forall n :: n in s.reg.entries && s.reg.entries[n].Building? ==> HasBuilder(s, n))
  }

  ghost predicate Runs(s: System, id: nat) {
    id in s.calls && s.calls[id].phase.Running?
  }

  ghost predicate HasBuilder(s: System, n: Name) {
    exists id :: Runs(s, id) && s.calls[id].target == n
  }

  ghost predicate StartedOnce(s: System) {
    forall n :: s.starts[n] <= (if n in s.reg.entries && !s.reg.entries[n].Unbuilt? then 1 else 0)
  }

  /** A reply carrying a result carries the one result that was cached. */
  ghost predicate Agreed(s: System) {
    forall id :: id in s.calls && s.calls[id].phase.Done? ==>
      Consistent(s, s.calls[id].target, s.calls[id].phase.reply)
  }

  ghost predicate Consistent(s: System, n: Name, reply: Reply) {
    match reply
    case Got(v) => IsBuilt(s, n) && s.reg.entries[n].outcome == Serves(v)
    case BuildFailed(f) => IsBuilt(s, n) && s.reg.entries[n].outcome == Fails(f)
    case _ => true
  }

  ghost predicate ClosingInOrder(s: System) {
    && (s.closing.NotBegun? <==> !s.reg.closed)
    && (!s.closing.Visiting? ==> s.visited == [])
    && (s.closing.Visiting? ==>
          s.closing.done <= |s.closing.targets| && s.visited == s.closing.targets[..s.closing.done])
    && (s.closing.Visiting? && s.closing.drained ==>
          s.reg.building == 0 && s.closing.targets == Targets(s.reg, s.reg.order))
  }

  ghost predicate Inv(s: System) {
    Valid(s.reg) && EdgesHeld(s) && Staffed(s) && StartedOnce(s) && Agreed(s) && ClosingInOrder(s)
  }

  // ----- the invariant holds in every reachable state

  lemma StartHolds()
    ensures Inv(START)
  {
    assert forall p :: IsCycle(EMPTY.blocked, p) ==> p[0 + 1] in Waits(EMPTY.blocked, p[0]);
    assert InFlight(EMPTY.entries) == {};
  }

  lemma NoneInFlight(r: Registry)
    requires Valid(r) && r.building == 0
    ensures forall n :: n in r.entries ==> !r.entries[n].Building?
  {
    assert InFlight(r.entries) == {};
    assert forall n :: n in r.entries && r.entries[n].Building? ==> n in InFlight(r.entries);
  }

  lemma {:induction false} SameTargets(r: Registry, s: Registry, order: seq<Name>)
    requires forall n :: n in order ==> (Closable(r, n) <==> Closable(s, n))
    ensures Targets(r, order) == Targets(s, order)
  {
    if order != [] {
      var n := |order| - 1;
      assert order[n] in order && forall m :: m in order[..n] ==> m in order;
      SameTargets(r, s, order[..n]);
    }
  }

  lemma ProvideStep(s: System, a: Action)
    requires Inv(s) && Enabled(s, a) && a.ActProvide?
    ensures Inv(Step(s, a))
  {
    ProvideKeeps(s.reg, a.name, a.arg);
    var t := Step(s, a);
    if t.reg != s.reg {
      GrownKeeps(s, t, a.name);
    }
  }

  /** A registration adds an entry and touches nothing that was there. */
  lemma GrownKeeps(s: System, t: System, name: Name)
    requires EdgesHeld(s) && Staffed(s) && StartedOnce(s) && Agreed(s) && ClosingInOrder(s)
    requires name !in s.reg.entries && name in t.reg.entries && !t.reg.entries[name].Building?
    requires t.reg.entries == s.reg.entries[name := t.reg.entries[name]]
    requires t == s.(reg := t.reg) && t.reg.blocked == s.reg.blocked && !s.reg.closed && !t.reg.closed
    ensures EdgesHeld(t) && Staffed(t) && StartedOnce(t) && Agreed(t) && ClosingInOrder(t)
  {
    assert forall id :: Outstanding(t, id) ==> Outstanding(s, id);
    assert forall id :: Runs(s, id) <==> Runs(t, id);
    forall n | n in t.reg.entries && t.reg.entries[n].Building? ensures HasBuilder(t, n) {
      assert HasBuilder(s, n);
    }
  }

  /** Only the call `id` moved, and only the entry it names may have changed. */
  ghost predicate OneMoved(s: System, t: System, id: nat) {
    && id in t.calls && t.calls.Keys == s.calls.Keys + {id}
    && (forall k :: k in s.calls && k != id ==> t.calls[k] == s.calls[k])
    && t.reg.entries.Keys == s.reg.entries.Keys
    && (forall n :: n in s.reg.entries && n != t.calls[id].target ==> t.reg.entries[n] == s.reg.entries[n])
    && (forall n :: IsBuilt(s, n) ==> t.reg.entries[n] == s.reg.entries[n])
    && (id in s.calls ==> t.calls[id].target == s.calls[id].target)
  }

  lemma EdgesKeep(s: System, t: System, id: nat)
    requires EdgesHeld(s) && OneMoved(s, t, id)
    requires forall n, m :: m in Waits(s.reg.blocked, n) && !IsBuilt(t, m) ==> m in Waits(t.reg.blocked, n)
    requires Outstanding(t, id) && t.calls[id].owner != "" ==>
               t.calls[id].target in Waits(t.reg.blocked, t.calls[id].owner)
    ensures EdgesHeld(t)
  {
    forall k | Outstanding(t, k) && t.calls[k].owner != ""
      ensures t.calls[k].target in Waits(t.reg.blocked, t.calls[k].owner)
    {
      if k != id {
        assert t.calls[k] == s.calls[k];
        if IsBuilt(s, s.calls[k].target) {
          assert IsBuilt(t, t.calls[k].target);
        }
        assert Outstanding(s, k);
      }
    }
  }

  lemma AgreedKeep(s: System, t: System, id: nat)
    requires Agreed(s) && OneMoved(s, t, id)
    requires t.calls[id].phase.Done? ==> Consistent(t, t.calls[id].target, t.calls[id].phase.reply)
    ensures Agreed(t)
  {
    forall k | k in t.calls && t.calls[k].phase.Done?
      ensures Consistent(t, t.calls[k].target, t.calls[k].phase.reply)
    {
      if k != id {
        assert t.calls[k] == s.calls[k];
        assert Consistent(s, s.calls[k].target, s.calls[k].phase.reply);
      }
    }
  }

  /** The entry `id` names is building afterwards exactly when somebody runs it. */
  lemma StaffedKeep(s: System, t: System, id: nat)
    requires Staffed(s) && OneMoved(s, t, id)
    requires var n := t.calls[id].target;
             && (!t.calls[id].phase.Done? ==> n in t.reg.entries)
             && (n in t.reg.entries ==> s.reg.entries[n].Unbuilt? || !t.reg.entries[n].Unbuilt?)
             && (!t.calls[id].phase.Done? ==> !t.reg.entries[n].Unbuilt?)
             && (Runs(t, id) ==> t.reg.entries[n].Building? && s.reg.entries[n].Unbuilt?)
             && (n in t.reg.entries && t.reg.entries[n].Building? && !Runs(t, id) ==>
                   s.reg.entries[n].Building? && !Runs(s, id))
             && (n in t.reg.entries && s.reg.entries[n].Building? && !Runs(s, id) ==> t.reg.entries[n].Building?)
    ensures Staffed(t)
  {
    var target := t.calls[id].target;
    forall k | Runs(t, k) && k != id
      ensures Runs(s, k) && t.calls[k] == s.calls[k] && t.reg.entries[t.calls[k].target].Building?
      ensures Runs(t, id) ==> t.calls[k].target != target
    {
      assert t.calls[k] == s.calls[k] && Runs(s, k);
    }
    forall n | n in t.reg.entries && t.reg.entries[n].Building? ensures HasBuilder(t, n) {
      if n == target && Runs(t, id) {
      } else {
        assert HasBuilder(s, n);
        var k :| Runs(s, k) && s.calls[k].target == n;
        assert k != id;
        assert Runs(t, k);
      }
    }
  }

  lemma EnterShape(s: System, a: Action)
    requires Valid(s.reg) && Staffed(s) && Enabled(s, a) && a.ActEnter?
    ensures var t := Step(s, a);
            && OneMoved(s, t, a.id)
            && t.closing == s.closing && t.visited == s.visited
            && t.reg.order == s.reg.order && t.reg.closed == s.reg.closed
            && (s.reg.closed ==> t.reg == s.reg && t.calls[a.id].phase == Done(Refused))
            && (t.calls[a.id].phase.Done? ==>
                  t.reg == s.reg && Consistent(s, a.name, t.calls[a.id].phase.reply))
            && (t.calls[a.id].phase.Waiting? ==>
                  t.reg.entries == s.reg.entries && a.name in s.reg.entries && s.reg.entries[a.name].Building?)
            && (t.calls[a.id].phase.Running? ==>
                  a.name in s.reg.entries && s.reg.entries[a.name].Unbuilt? &&
                  t.reg.entries == s.reg.entries[a.name := Building])
            && t.calls[a.id].target == a.name && t.calls[a.id].owner == a.owner
            && t.starts == (if Runs(t, a.id) then s.starts + multiset{a.name} else s.starts)
  {
    var t := Step(s, a);
    var e := Enter(s.reg, a.owner, a.name).1;
    assert t.calls[a.id].phase == match e case Answer(reply) => Done(reply) case Wait => Waiting case Run => Running;
  }

  lemma EnterWaits(s: System, a: Action)
    requires Enabled(s, a) && a.ActEnter?
    ensures forall n :: Waits(s.reg.blocked, n) <= Waits(Step(s, a).reg.blocked, n)
    ensures !Step(s, a).calls[a.id].phase.Done? && a.owner != "" ==>
              a.name in Waits(Step(s, a).reg.blocked, a.owner)
  {
  }

  lemma EnterStep(s: System, a: Action)
    requires Inv(s) && Enabled(s, a) && a.ActEnter?
    ensures Inv(Step(s, a))
  {
    EnterShape(s, a);
    EnterWaits(s, a);
    EnterKeeps(s.reg, a.owner, a.name);
    var t := Step(s, a);
    EdgesKeep(s, t, a.id);
    AgreedKeep(s, t, a.id);
    StaffedKeep(s, t, a.id);
    assert StartedOnce(t);
    assert ClosingInOrder(t);
  }

  lemma WakeStep(s: System, a: Action)
    requires Inv(s) && Enabled(s, a) && a.ActWake?
    ensures Inv(Step(s, a))
  {
    var c := s.calls[a.id];
    WakeKeeps(s.reg, c.owner, c.target);
    EdgesShrink(s.reg.blocked, c.owner, c.target);
    var t := Step(s, a);
    assert t.reg.entries == s.reg.entries && t.calls == s.calls[a.id := t.calls[a.id]];
    assert OneMoved(s, t, a.id);
    EdgesKeep(s, t, a.id);
    AgreedKeep(s, t, a.id);
    StaffedKeep(s, t, a.id);
    SameTargets(s.reg, t.reg, s.reg.order);
  }

  lemma FinishShape(s: System, a: Action)
    requires Staffed(s) && Enabled(s, a) && a.ActFinish?
    ensures var t := Step(s, a);
            && OneMoved(s, t, a.id) && Runs(s, a.id) && !Runs(t, a.id)
            && t.reg.entries == s.reg.entries[s.calls[a.id].target := Built(a.outcome)]
            && t.calls[a.id].phase.Done?
            && Consistent(t, s.calls[a.id].target, t.calls[a.id].phase.reply)
            && t.starts == s.starts && t.closing == s.closing && t.visited == s.visited
            && t.reg.order == s.reg.order && t.reg.closed == s.reg.closed
  {
    var c := s.calls[a.id];
    var t := Step(s, a);
    assert Runs(s, a.id);
    assert t.calls[a.id].phase == Done(Finish(s.reg, c.owner, c.target, a.outcome).1);
  }

  lemma FinishStep(s: System, a: Action)
    requires Inv(s) && Enabled(s, a) && a.ActFinish?
    ensures Inv(Step(s, a))
  {
    var c := s.calls[a.id];
    var t := Step(s, a);
    FinishShape(s, a);
    assert Valid(t.reg) by {
      FinishKeeps(s.reg, c.owner, c.target, a.outcome);
    }
    assert EdgesHeld(t) by {
      EdgesShrink(s.reg.blocked, c.owner, c.target);
      EdgesKeep(s, t, a.id);
    }
    AgreedKeep(s, t, a.id);
    StaffedKeep(s, t, a.id);
    NotDrained(s, a.id);
    assert StartedOnce(t);
  }

  lemma NotDrained(s: System, id: nat)
    requires Valid(s.reg) && Staffed(s) && ClosingInOrder(s) && Runs(s, id)
    ensures !(s.closing.Visiting? && s.closing.drained)
  {
    if s.reg.building == 0 {
      NoneInFlight(s.reg);
    }
  }

  lemma ClosingStep(s: System, a: Action)
    requires Inv(s) && Enabled(s, a) && (a.ActShutdown? || a.ActSnapshot? || a.ActClose?)
    ensures Inv(Step(s, a))
  {
    if a.ActShutdown? && !s.reg.closed {
      ShutdownKeeps(s.reg);
    }
    SameCalls(s, Step(s, a));
  }

  /** Closing moves no call and no entry. */
  lemma SameCalls(s: System, t: System)
    requires EdgesHeld(s) && Staffed(s) && StartedOnce(s) && Agreed(s)
    requires t.calls == s.calls && t.starts == s.starts && t.reg.entries == s.reg.entries && t.reg.blocked == s.reg.blocked
    ensures EdgesHeld(t) && Staffed(t) && StartedOnce(t) && Agreed(t)
  {
    assert forall id :: Runs(s, id) <==> Runs(t, id);
    forall n | n in t.reg.entries && t.reg.entries[n].Building? ensures HasBuilder(t, n) {
      assert HasBuilder(s, n);
    }
    assert forall id :: Outstanding(t, id) ==> Outstanding(s, id);
  }

  lemma StepKeeps(s: System, a: Action)
    requires Inv(s) && Enabled(s, a)
    ensures Inv(Step(s, a))
  {
    match a
    case ActProvide(_, _) => ProvideStep(s, a);
    case ActEnter(_, _, _, _) => EnterStep(s, a);
    case ActWake(_) => WakeStep(s, a);
    case ActFinish(_, _) => FinishStep(s, a);
    case ActShutdown => ClosingStep(s, a);
    case ActSnapshot(_) => ClosingStep(s, a);
    case ActClose => ClosingStep(s, a);
  }

  lemma {:induction false} RunKeeps(states: seq<System>, actions: seq<Action>, i: nat)
    requires IsRun(states, actions) && i <= |actions|
    ensures Inv(states[i])
  {
    if i == 0 {
      StartHolds();
    } else {
      RunKeeps(states, actions, i - 1);
      StepKeeps(states[i - 1], actions[i - 1]);
    }
  }

  lemma ReachableHolds(s: System)
    requires Reachable(s)
    ensures Inv(s)
  {
    var states, actions :| IsRun(states, actions) && states[|actions|] == s;
    RunKeeps(states, actions, |actions|);
  }

  // ----- no deadlock

  /** Every constructor resolves only through the container it was handed. */
  ghost predicate Disciplined(s: System) {
    forall id :: id in s.calls ==> s.calls[id].maker == s.calls[id].owner
  }

  /** Some code of n's constructor waits for a service that is not built. */
  ghost predicate Held(s: System, n: Name) {
    exists id :: Outstanding(s, id) && s.calls[id].maker == n
  }

  ghost predicate CanStep(s: System, n: Name) {
    n in s.reg.entries && s.reg.entries[n].Building? && HasBuilder(s, n) && !Held(s, n)
  }

  lemma {:induction false} FollowChain(s: System, p: seq<Name>)
    requires Inv(s) && Disciplined(s) && IsWalk(s.reg.blocked, p)
    requires p[|p| - 1] in s.reg.entries && s.reg.entries[p[|p| - 1]].Building?
    ensures exists n :: CanStep(s, n) && Reaches(s.reg.blocked, p[0], n)
    decreases |Nodes(s.reg.blocked) + {p[0]}| - |p|
  {
    var g := s.reg.blocked;
    var last := p[|p| - 1];
    if Held(s, last) {
      var id :| Outstanding(s, id) && s.calls[id].maker == last;
      var next := s.calls[id].target;
      assert s.calls[id].owner == last && next in Waits(g, last);
      assert s.reg.entries[next].Building?;
      WalkExtends(g, p, next);
      WalkStaysInNodes(g, p + [next]);
      DistinctIn(p + [next], Nodes(g) + {p[0]}, g);
      FollowChain(s, p + [next]);
    } else {
      assert CanStep(s, last) && Reaches(g, p[0], last);
    }
  }

  /** Freedom from deadlock: whoever waits for an unbuilt service, the chain of
      waits that starts there ends at a running constructor nothing holds up. */
  lemma SomeConstructorCanStep(s: System, id: nat)
    requires Reachable(s) && Disciplined(s) && Outstanding(s, id)
    ensures exists n :: CanStep(s, n) && Reaches(s.reg.blocked, s.calls[id].target, n)
  {
    ReachableHolds(s);
    var t := s.calls[id].target;
    assert s.reg.entries[t].Building?;
    assert IsWalk(s.reg.blocked, [t]);
    FollowChain(s, [t]);
  }

  /** The discipline is needed: a constructor that resolves its own name through
      the outer container leaves no edge, and waits for ever. */
  lemma OuterContainerDeadlocks()
    ensures exists s, id :: Reachable(s) && Outstanding(s, id) && forall n :: !CanStep(s, n)
  {
    var actions := [ActProvide("a", Lazy), ActEnter(0, "", "", "a"), ActEnter(1, "a", "", "a")];
    var s1 := Step(START, actions[0]);
    var s2 := Step(s1, actions[1]);
    var s3 := Step(s2, actions[2]);
    assert s2.reg.entries == map["a" := Building];
    assert s3.calls[1] == Call("a", "", "a", Waiting);
    assert Outstanding(s3, 1) && Held(s3, "a");
    var states := [START, s1, s2, s3];
    assert IsRun(states, actions) && states[|actions|] == s3;
    assert Reachable(s3);
  }

  // ----- built once, one answer

  /** No run starts a constructor twice, whether or not anyone is answered. */
  lemma StartedAtMostOnce(s: System)
    requires Reachable(s)
    ensures forall n :: s.starts[n] <= 1
  {
    ReachableHolds(s);
  }

  /** All who are answered with a constructor's result are answered with the same
      one, which is the one that is kept. */
  lemma BuiltOnceForAll(s: System, a: nat, b: nat)
    requires Reachable(s) && a in s.calls && b in s.calls && s.calls[a].target == s.calls[b].target
    requires s.calls[a].phase.Done? && (s.calls[a].phase.reply.Got? || s.calls[a].phase.reply.BuildFailed?)
    requires s.calls[b].phase.Done? && (s.calls[b].phase.reply.Got? || s.calls[b].phase.reply.BuildFailed?)
    ensures s.starts[s.calls[a].target] <= 1
    ensures s.calls[a].phase.reply == s.calls[b].phase.reply
    ensures IsBuilt(s, s.calls[a].target) && s.calls[a].phase.reply == ReplyOf(s.reg.entries[s.calls[a].target].outcome)
  {
    ReachableHolds(s);
    assert Consistent(s, s.calls[a].target, s.calls[a].phase.reply);
    assert Consistent(s, s.calls[b].target, s.calls[b].phase.reply);
  }

  // ----- what one step cannot undo

  ghost predicate Later(s: System, t: System) {
    && (forall n :: IsBuilt(s, n) ==> IsBuilt(t, n) && t.reg.entries[n] == s.reg.entries[n])
    && (forall id :: id in s.calls && s.calls[id].phase.Done? ==> id in t.calls && t.calls[id] == s.calls[id])
    && (s.reg.closed ==>
          && t.reg.closed && t.starts == s.starts && t.reg.order == s.reg.order
          && t.reg.entries.Keys == s.reg.entries.Keys && t.reg.building <= s.reg.building
          && forall id :: id in t.calls && t.calls[id].phase.Done? && t.calls[id].phase.reply.Got? ==>
               id in s.calls && s.calls[id] == t.calls[id])
    && (s.closing.Visiting? ==> t.closing.Visiting? && t.closing.targets == s.closing.targets)
  }

  lemma StepIsLater(s: System, a: Action)
    requires Inv(s) && Enabled(s, a)
    ensures Later(s, Step(s, a))
  {
    if a.ActEnter? {
      EnterIsLater(s, a);
    } else if a.ActFinish? {
      FinishIsLater(s, a);
    } else if a.ActWake? {
      WakeIsLater(s, a);
    } else {
      OtherIsLater(s, a);
    }
  }

  lemma OtherIsLater(s: System, a: Action)
    requires Inv(s) && Enabled(s, a) && !a.ActEnter? && !a.ActFinish? && !a.ActWake?
    ensures Later(s, Step(s, a))
  {
  }

  lemma EnterIsLater(s: System, a: Action)
    requires Inv(s) && Enabled(s, a) && a.ActEnter?
    ensures Later(s, Step(s, a))
  {
    EnterShape(s, a);
  }

  lemma FinishIsLater(s: System, a: Action)
    requires Inv(s) && Enabled(s, a) && a.ActFinish?
    ensures Later(s, Step(s, a))
  {
    FinishShape(s, a);
  }

  lemma WakeIsLater(s: System, a: Action)
    requires Inv(s) && Enabled(s, a) && a.ActWake?
    ensures Later(s, Step(s, a))
  {
  }

  lemma {:induction false} RunIsLater(states: seq<System>, actions: seq<Action>, i: nat, j: nat)
    requires IsRun(states, actions) && i <= j <= |actions|
    ensures Later(states[i], states[j])
    decreases j
  {
    if i < j {
      RunIsLater(states, actions, i, j - 1);
      RunKeeps(states, actions, j - 1);
      StepIsLater(states[j - 1], actions[j - 1]);
      assert Later(states[j - 1], states[j]);
    }
  }

  // ----- what each caller is told

  /** Some resolution made through that constructor's container is not answered yet. */
  ghost predicate Awaited(s: System, owner: Name, target: Name) {
    exists id :: id in s.calls && !s.calls[id].phase.Done? && s.calls[id].owner == owner && s.calls[id].target == target
  }

  /** Every edge of the wait graph is somebody's who is not answered yet. */
  ghost predicate WaitsAreReal(s: System) {
    forall n, m :: m in Waits(s.reg.blocked, n) ==> n != "" && Awaited(s, n, m)
  }

  lemma RealKeep(s: System, t: System, id: nat)
    requires WaitsAreReal(s) && id in t.calls
    requires forall k :: k in s.calls && k != id ==> k in t.calls && t.calls[k] == s.calls[k]
    requires forall n, m :: m in Waits(t.reg.blocked, n) ==>
               || (n == t.calls[id].owner != "" && m == t.calls[id].target && !t.calls[id].phase.Done?)
               || (m in Waits(s.reg.blocked, n)
                   && (id !in s.calls || n != s.calls[id].owner || m != s.calls[id].target))
    ensures WaitsAreReal(t)
  {
    forall n, m | m in Waits(t.reg.blocked, n) ensures n != "" && Awaited(t, n, m) {
      if !(n == t.calls[id].owner && m == t.calls[id].target && !t.calls[id].phase.Done?) {
        assert Awaited(s, n, m);
      }
    }
  }

  lemma Unwaited(g: Graph, owner: Name, name: Name)
    ensures owner != "" ==> name !in Waits(Unwait(g, owner, name), owner)
    ensures forall n, m :: m in Waits(Unwait(g, owner, name), n) ==> m in Waits(g, n)
  {
  }

  lemma RealStep(s: System, a: Action)
    requires WaitsAreReal(s) && Enabled(s, a)
    ensures WaitsAreReal(Step(s, a))
  {
    var t := Step(s, a);
    if a.ActEnter? || a.ActWake? || a.ActFinish? {
      if !a.ActEnter? {
        Unwaited(s.reg.blocked, s.calls[a.id].owner, s.calls[a.id].target);
      }
      RealKeep(s, t, a.id);
    } else {
      assert forall n, m :: Awaited(s, n, m) ==> Awaited(t, n, m);
    }
  }

  lemma {:induction false} RunIsReal(states: seq<System>, actions: seq<Action>, i: nat)
    requires IsRun(states, actions) && i <= |actions|
    ensures WaitsAreReal(states[i])
  {
    if i > 0 {
      RunIsReal(states, actions, i - 1);
      RealStep(states[i - 1], actions[i - 1]);
    }
  }

  /** The kept outcome, as a caller sees it. */
  ghost predicate Tells(o: Outcome, reply: Reply) {
    match o
    case Serves(v) => reply == Got(v)
    case Fails(f) => reply == BuildFailed(f)
  }

  /** A resolution that begins is refused exactly if the container is closed, told
      there is no such service exactly if there is none, handed what is kept exactly if
      something is, refused as a cycle exactly if what it asks for already waits for it,
      and else waits for the build or runs it. */
  lemma EnteringIsAnswered(s: System, a: Action)
    requires Reachable(s) && Enabled(s, a) && a.ActEnter?
    ensures var r, phase, n := s.reg, Step(s, a).calls[a.id].phase, a.name;
            var waitedFor := a.owner != "" && Reaches(r.blocked, n, a.owner);
            && (r.closed <==> phase == Done(Refused))
            && (!r.closed && n !in r.entries <==> phase == Done(Unknown))
            && (!r.closed && IsBuilt(s, n) <==> phase.Done? && (phase.reply.Got? || phase.reply.BuildFailed?))
            && (!r.closed && IsBuilt(s, n) ==> Tells(r.entries[n].outcome, phase.reply))
            && (!r.closed && n in r.entries && !IsBuilt(s, n) && waitedFor <==> phase == Done(Cyclic))
            && (!r.closed && n in r.entries && r.entries[n].Building? && !waitedFor <==> phase.Waiting?)
            && (!r.closed && n in r.entries && r.entries[n].Unbuilt? && !waitedFor <==> phase.Running?)
  {
    ReachableHolds(s);
    EnterTells(s.reg, a.owner, a.name);
    var e := Enter(s.reg, a.owner, a.name).1;
    assert Step(s, a).calls[a.id].phase == match e case Answer(reply) => Done(reply) case Wait => Waiting case Run => Running;
  }

  lemma EnterTells(r: Registry, owner: Name, n: Name)
    requires Acyclic(r.blocked)
    ensures var e := Enter(r, owner, n).1;
            var waitedFor := owner != "" && Reaches(r.blocked, n, owner);
            if r.closed then e == Answer(Refused)
            else if n !in r.entries then e == Answer(Unknown)
            else if r.entries[n].Built? then
              match r.entries[n].outcome
              case Serves(v) => e == Answer(Got(v))
              case Fails(f) => e == Answer(BuildFailed(f))
            else if waitedFor then e == Answer(Cyclic)
            else if r.entries[n].Building? then e == Wait
            else e == Run
  {
    EdgeClosesCycle(r.blocked, owner, n);
  }

  /** Whoever waited or built is told the kept outcome, except that a closed container
      hands out no service it was asked to wait for, nor one it has just built. */
  lemma LeavingIsAnswered(s: System, a: Action)
    requires Reachable(s) && Enabled(s, a) && (a.ActWake? || a.ActFinish?)
    ensures var t := Step(s, a);
            var target, phase := s.calls[a.id].target, t.calls[a.id].phase;
            && IsBuilt(t, target) && phase.Done?
            && (phase.reply == Refused <==> s.reg.closed && (a.ActWake? || a.outcome.Serves?))
            && (phase.reply != Refused ==> Tells(t.reg.entries[target].outcome, phase.reply))
            && (a.ActWake? ==> t.reg.entries == s.reg.entries)
            && (a.ActFinish? ==> t.reg.entries[target].outcome == a.outcome)
  {
  }

  lemma RunReaches(states: seq<System>, actions: seq<Action>, i: nat)
    requires IsRun(states, actions) && i <= |actions|
    ensures Reachable(states[i])
  {
    assert IsRun(states[..i + 1], actions[..i]);
  }

  /** Step i is where the call began. */
  ghost predicate EnteredAt(actions: seq<Action>, i: nat, id: nat, c: Call) {
    i < |actions| && actions[i] == ActEnter(id, c.maker, c.owner, c.target)
  }

  /** Why a caller was told what it was told: refused only by a closed container, told
      there is no such service only where there was none, and of a cycle only where what
      it asked for was waiting, over calls not answered yet, for the one that asked. */
  ghost predicate Reasoned(first: System, now: System, c: Call) {
    c.phase.Done? ==>
      match c.phase.reply
      case Refused => now.reg.closed
      case Unknown => !first.reg.closed && c.target !in first.reg.entries
      case Cyclic => c.owner != "" && Reaches(first.reg.blocked, c.target, c.owner) && WaitsAreReal(first)
      case reply => IsBuilt(now, c.target) && Tells(now.reg.entries[c.target].outcome, reply)
  }

  ghost predicate Explained(states: seq<System>, actions: seq<Action>, j: nat, id: nat)
    requires j < |states| && id in states[j].calls
  {
    exists i: nat :: i < j && EnteredAt(actions, i, id, states[j].calls[id])
                     && Reasoned(states[i], states[j], states[j].calls[id])
  }

  lemma EntersReasoned(s: System, a: Action)
    requires Reachable(s) && WaitsAreReal(s) && Enabled(s, a) && a.ActEnter?
    ensures Reasoned(s, Step(s, a), Step(s, a).calls[a.id])
  {
    ReachableHolds(s);
    StepIsLater(s, a);
    EnteringIsAnswered(s, a);
  }

  lemma StaysReasoned(first: System, s: System, a: Action, id: nat)
    requires Reachable(s) && Enabled(s, a) && id in s.calls && Reasoned(first, s, s.calls[id])
    ensures var t := Step(s, a);
            id in t.calls && Reasoned(first, t, t.calls[id]) && t.calls[id].(phase := Waiting) == s.calls[id].(phase := Waiting)
  {
    ReachableHolds(s);
    StepIsLater(s, a);
    if (a.ActWake? || a.ActFinish?) && a.id == id {
      LeavingIsAnswered(s, a);
    }
  }

  lemma {:induction false} EveryAnswerIsExplained(states: seq<System>, actions: seq<Action>, j: nat, id: nat)
    requires IsRun(states, actions) && j <= |actions| && id in states[j].calls
    ensures Explained(states, actions, j, id)
  {
    var s, a := states[j - 1], actions[j - 1];
    assert states[j - 1 + 1] == Step(s, a);
    RunReaches(states, actions, j - 1);
    if a.ActEnter? && a.id == id {
      RunIsReal(states, actions, j - 1);
      EntersReasoned(s, a);
      assert EnteredAt(actions, j - 1, id, states[j].calls[id]);
    } else {
      EveryAnswerIsExplained(states, actions, j - 1, id);
      var i: nat :| i < j - 1 && EnteredAt(actions, i, id, s.calls[id]) && Reasoned(states[i], s, s.calls[id]);
      StaysReasoned(states[i], s, a, id);
      assert EnteredAt(actions, i, id, states[j].calls[id]);
    }
  }

  /** What is built once is handed to everybody who asks an open container for it from
      then on, at once and as it was kept. */
  lemma BuiltIsHandedOut(states: seq<System>, actions: seq<Action>, i: nat, j: nat)
    requires IsRun(states, actions) && i <= j < |actions| && actions[j].ActEnter?
    requires IsBuilt(states[i], actions[j].name) && !states[j].reg.closed
    ensures var phase := states[j + 1].calls[actions[j].id].phase;
            phase.Done? && Tells(states[i].reg.entries[actions[j].name].outcome, phase.reply)
  {
    RunIsLater(states, actions, i, j);
    RunReaches(states, actions, j);
    EnteringIsAnswered(states[j], actions[j]);
  }

  /** A registration is accepted exactly if the name and the argument are usable, the
      container is open and the name free, and otherwise changes nothing. A service
      registered ready is handed out from then on. */
  lemma ProvidedIsHandedOut(states: seq<System>, actions: seq<Action>, i: nat, j: nat)
    requires IsRun(states, actions) && i < j < |actions| && actions[i].ActProvide? && actions[j].ActEnter?
    requires actions[j].name == actions[i].name && !states[j].reg.closed
    ensures var name, arg := actions[i].name, actions[i].arg;
            && (Provide(states[i].reg, name, arg).1 == Accepted <==>
                  name != "" && (arg.Ready? || arg.Lazy?) && !states[i].reg.closed && name !in states[i].reg.entries)
            && (Provide(states[i].reg, name, arg).1 != Accepted ==> states[i + 1] == states[i])
            && (Provide(states[i].reg, name, arg).1 == Accepted && arg.Ready? ==>
                  states[j + 1].calls[actions[j].id].phase == Done(Got(arg.service)))
  {
    assert states[i + 1] == Step(states[i], actions[i]);
    if Provide(states[i].reg, actions[i].name, actions[i].arg).1 == Accepted && actions[i].arg.Ready? {
      assert IsBuilt(states[i + 1], actions[i].name);
      BuiltIsHandedOut(states, actions, i + 1, j);
    }
  }

  // ----- shutdown

  /** Once the container is closed no constructor starts and nobody is handed a
      service any more, however long the run goes on. */
  lemma AfterCloseNothingStarts(states: seq<System>, actions: seq<Action>, i: nat, j: nat, id: nat)
    requires IsRun(states, actions) && i <= j <= |actions| && states[i].reg.closed
    ensures states[j].starts == states[i].starts
    ensures id in states[j].calls && states[j].calls[id].phase.Done? && states[j].calls[id].phase.reply.Got? ==>
              id in states[i].calls && states[i].calls[id].phase.Done?
  {
    RunIsLater(states, actions, i, j);
  }

  /** The counter is the number of building entries, and the channel Shutdown waits
      on is open exactly while there is one. */
  lemma DrainMeansNoneBuilding(s: System)
    requires Reachable(s) && s.reg.closed
    ensures s.reg.building == |InFlight(s.reg.entries)|
    ensures !s.reg.drain.Pending? <==> forall n :: n in s.reg.entries ==> !s.reg.entries[n].Building?
  {
    ReachableHolds(s);
    if s.reg.building == 0 {
      NoneInFlight(s.reg);
    } else {
      var n :| n in InFlight(s.reg.entries);
    }
  }

  /** A finished shutdown visited every service that was built when it took its
      snapshot, each once, a later registration before an earlier one; a service
      built by the end was missed exactly when it was not built yet at that moment.
      After a drain that finished in its budget none can have been. */
  lemma ShutdownVisits(states: seq<System>, actions: seq<Action>, i: nat, j: nat)
    requires IsRun(states, actions) && i < j <= |actions| && actions[i].ActSnapshot?
    requires states[j].closing.Visiting? && states[j].closing.done == |states[j].closing.targets|
    ensures forall n :: Closable(states[j].reg, n) ==> (n in states[j].visited <==> IsBuilt(states[i], n))
    ensures forall n :: n in states[j].visited ==> Closable(states[j].reg, n)
    ensures forall a, b :: 0 <= a < b < |states[j].visited| ==>
              states[j].visited[a] != states[j].visited[b] &&
              RegisteredBefore(states[i].reg.order, states[j].visited[b], states[j].visited[a])
    ensures !actions[i].budgetSpent ==> forall n :: Closable(states[j].reg, n) ==> n in states[j].visited
  {
    VisitedIsSnapshot(states, actions, i, j);
    RunKeeps(states, actions, i);
    var reg, visited := states[i].reg, states[j].visited;
    TargetsAreExact(reg, reg.order);
    RunIsLater(states, actions, i, j);
    forall n | Closable(states[j].reg, n) ensures n in visited <==> IsBuilt(states[i], n) {
      if IsBuilt(states[i], n) {
        assert Closable(reg, n) && n in reg.order;
      }
    }
    if !actions[i].budgetSpent {
      DrainedIsFinal(states, actions, i, j);
    }
  }

  lemma VisitedIsSnapshot(states: seq<System>, actions: seq<Action>, i: nat, j: nat)
    requires IsRun(states, actions) && i < j <= |actions| && actions[i].ActSnapshot?
    requires states[j].closing.Visiting? && states[j].closing.done == |states[j].closing.targets|
    ensures states[j].visited == Targets(states[i].reg, states[i].reg.order)
    ensures states[i].reg.closed && (!actions[i].budgetSpent ==> states[i].reg.building == 0)
  {
    RunKeeps(states, actions, i);
    RunKeeps(states, actions, j);
    RunIsLater(states, actions, i + 1, j);
    assert states[i + 1] == Step(states[i], actions[i]);
  }

  lemma StepAfterDrain(s: System, a: Action)
    requires Inv(s) && Enabled(s, a) && s.reg.closed && s.reg.building == 0
    ensures Step(s, a).reg.entries == s.reg.entries
    ensures Step(s, a).reg.closed && Step(s, a).reg.building == 0
  {
    if a.ActEnter? {
      EnterShape(s, a);
    }
  }

  /** With nothing in flight after the close, no entry changes any more. */
  lemma {:induction false} DrainedIsFinal(states: seq<System>, actions: seq<Action>, i: nat, j: nat)
    requires IsRun(states, actions) && i <= j <= |actions|
    requires states[i].reg.closed && states[i].reg.building == 0
    ensures states[j].reg.entries == states[i].reg.entries
    ensures states[j].reg.closed && states[j].reg.building == 0
    decreases j
  {
    if i < j {
      DrainedIsFinal(states, actions, i, j - 1);
      RunKeeps(states, actions, j - 1);
      StepAfterDrain(states[j - 1], actions[j - 1]);
    }
  }
}
