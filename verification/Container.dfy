/** The container's shared registry and its lock-held sections, written the way
    the source writes them: fields updated in place. Each method computes exactly
    the function of the same name in ContainerSpec. */
module Container {
  import opened Options
  import opened WaitGraph
  import opened CycleSearch
  import opened ContainerSpec

  /** Taking back the edge that closed a cycle restores the graph it was added to:
      over an acyclic graph such an edge cannot have been there before, so no other
      wait loses its edge. */
  lemma UndoEdge(g: Graph, from: Name, to: Name)
    requires Acyclic(g) && Compact(g) && !Acyclic(WithEdge(g, from, to))
    ensures to !in Waits(g, from)
    ensures WithoutEdge(WithEdge(g, from, to), from, to) == g
  {
    var h := WithEdge(g, from, to);
    if to in Waits(g, from) {
      assert Waits(g, from) + {to} == Waits(g, from);
      SmallerGraph(g, h);
    }
    assert Waits(h, from) - {to} == Waits(g, from);
    if from in g {
      assert WithoutEdge(h, from, to) == g[from := g[from]];
    } else {
      assert WithoutEdge(h, from, to) == h - {from} == g;
    }
  }

  class Container {
    var entries: map<Name, Entry>
    var order: seq<Name>
    var blocked: Graph
    var building: nat
    var closed: bool
    var drain: Drain

    function View(): Registry
      reads this
    {
      Registry(entries, order, blocked, building, closed, drain)
    }

    constructor ()
      ensures View() == EMPTY && Valid(View())
    {
      entries, order, blocked, building, closed, drain := map[], [], map[], 0, false, NoSignal;
      new;
      assert InFlight(entries) == {};
      assert forall p :: IsCycle(blocked, p) ==> p[0 + 1] in Waits(blocked, p[0]);
    }

    method Provide(name: Name, arg: Arg) returns (answer: Provided)
      requires Valid(View())
      modifies this
      ensures Valid(View())
      ensures (View(), answer) == ContainerSpec.Provide(old(View()), name, arg)
    {
      ProvideKeeps(View(), name, arg);
      if name == "" {
        return InvalidName;
      }
      if arg.Nil? {
        return InvalidCtor;
      }
      if closed {
        return ProvideClosed;
      }
      if name in entries {
        return Duplicate;
      }
      var e := Unbuilt;
      match arg {
        case Lazy =>
        case Misused => return InvalidCtor;
        case Ready(service) => e := Built(Serves(service));
        case Nil => assert false;
      }
      entries := entries[name := e];
      order := order + [name];
      return Accepted;
    }

    /** Nothing is added when the edge would close a cycle, and a cycle really
        made of waits is handed back; otherwise exactly the edge is added. */
    method AddEdge(from: Name, to: Name) returns (path: Option<seq<Name>>)
      requires from != "" && Acyclic(blocked) && Compact(blocked)
      modifies this`blocked
      ensures path.None? <==> Acyclic(WithEdge(old(blocked), from, to))
      ensures blocked == if path.None? then WithEdge(old(blocked), from, to) else old(blocked)
      ensures path.Some? ==> IsCycle(WithEdge(old(blocked), from, to), path.value)
    {
      ghost var before := blocked;
      var edges := if from in blocked then blocked[from] else {};
      blocked := blocked[from := edges + {to}];
      NewCycleIsReachable(before, from, to);
      path := CyclePath(blocked, to);
      if path.Some? {
        UndoEdge(before, from, to);
        RemoveEdge(from, to);
      }
    }

    method RemoveEdge(from: Name, to: Name)
      modifies this`blocked
      ensures blocked == Unwait(old(blocked), from, to)
    {
      if from == "" {
        return;
      }
      var edges := (if from in blocked then blocked[from] else {}) - {to};
      if |edges| == 0 {
        blocked := blocked - {from};
      } else {
        blocked := blocked[from := edges];
      }
    }

    /** A resolution up to the point where it answers, waits, or runs the constructor. */
    method Enter(owner: Name, name: Name) returns (entered: Entered)
      requires Valid(View())
      modifies this
      ensures Valid(View())
      ensures (View(), entered) == ContainerSpec.Enter(old(View()), owner, name)
    {
      ghost var before := View();
      EnterKeeps(before, owner, name);
      if closed {
        return Answer(Refused);
      }
      if name !in entries {
        return Answer(Unknown);
      }
      if entries[name].Built? {
        return Answer(ReplyOf(entries[name].outcome));
      }
      var cyclic := NoteWait(owner, name);
      if cyclic {
        return Answer(Cyclic);
      }
      if entries[name].Building? {
        return Wait;
      }
      entries := entries[name := Building];
      building := building + 1;
      return Run;
    }

    /** Code outside any constructor leaves no edge. */
    method NoteWait(owner: Name, name: Name) returns (cyclic: bool)
      requires Acyclic(blocked) && Compact(blocked)
      modifies this`blocked
      ensures cyclic <==> owner != "" && !Acyclic(WithEdge(old(blocked), owner, name))
      ensures blocked == if owner == "" || cyclic then old(blocked) else WithEdge(old(blocked), owner, name)
    {
      if owner == "" {
        return false;
      }
      var path := AddEdge(owner, name);
      return path.Some?;
    }

    /** A waiter whose ready channel was closed. */
    method Wake(owner: Name, name: Name) returns (reply: Reply)
      requires Valid(View()) && name in entries && entries[name].Built?
      modifies this
      ensures Valid(View())
      ensures (View(), reply) == ContainerSpec.Wake(old(View()), owner, name)
    {
      WakeKeeps(View(), owner, name);
      RemoveEdge(owner, name);
      if closed {
        return Refused;
      }
      return ReplyOf(entries[name].outcome);
    }

    /** The builder, once its constructor has returned. */
    method Finish(owner: Name, name: Name, outcome: Outcome) returns (reply: Reply)
      requires Valid(View()) && name in entries && entries[name].Building? && building > 0
      modifies this
      ensures Valid(View())
      ensures (View(), reply) == ContainerSpec.Finish(old(View()), owner, name, outcome)
    {
      FinishKeeps(View(), owner, name, outcome);
      entries := entries[name := Built(outcome)];
      assert InFlight(old(entries)) == InFlight(entries) + {name};
      RemoveEdge(owner, name);
      BuildFinished();
      if outcome.Fails? {
        return BuildFailed(outcome.failure);
      }
      if closed {
        return Refused;
      }
      return Got(outcome.service);
    }

    /** Called between a build's result being kept and the lock being released, when
        the counter still counts it: the counter is right again, and the signal is
        outstanding exactly while a shutdown has a build left to wait for. */
    method BuildFinished()
      requires building == |InFlight(entries)| + 1
      requires drain.Pending? <==> closed
      modifies this`building, this`drain
      ensures building == |InFlight(entries)|
      ensures drain.Pending? <==> closed && InFlight(entries) != {}
      ensures drain == old(drain) || (old(drain).Pending? && drain.Signalled?)
    {
      building := building - 1;
      if building == 0 && drain.Pending? {
        drain := Signalled;
      }
    }

    /** Shutdown's first section; `wait` is whether it has a channel to wait on. */
    method BeginShutdown() returns (already: bool, wait: bool)
      requires Valid(View())
      modifies this
      ensures Valid(View()) && already == old(closed)
      ensures already ==> View() == old(View())
      ensures !already ==> View() == ContainerSpec.BeginShutdown(old(View()))
      ensures !already ==> (wait <==> InFlight(entries) != {})
    {
      if closed {
        return true, false;
      }
      closed := true;
      if building == 0 {
        return false, false;
      }
      drain := Pending;
      return false, true;
    }

    /** Shutdown's second section: what it is going to close, in the order it will. */
    method Snapshot() returns (targets: seq<Name>)
      requires Valid(View())
      ensures targets == Targets(View(), order)
    {
      targets := [];
      var i := |order|;
      assert order[..i] == order;
      while i > 0
        invariant 0 <= i <= |order|
        invariant targets + Targets(View(), order[..i]) == Targets(View(), order)
      {
        i := i - 1;
        assert order[..i + 1][..i] == order[..i];
        if order[i] in entries && entries[order[i]].Built? && entries[order[i]].outcome.Serves? {
          targets := targets + [order[i]];
        }
      }
    }
  }
}
