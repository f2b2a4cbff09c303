/** The lock-held sections of the container as functions on the registry's state. */
module ContainerSpec {
  import opened WaitGraph

  type Service = int
  type Failure = int

  /** What a constructor's one run leaves behind: a service, or its error (a panic
      and a nil service are errors here, as runCtor makes them). */
  datatype Outcome = Serves(service: Service) | Fails(failure: Failure)

  datatype Entry = Unbuilt | Building | Built(outcome: Outcome)

  /** The channel Shutdown waits on: never made, open, or closed by the last build. */
  datatype Drain = NoSignal | Pending | Signalled

  datatype Registry = Registry(
    entries: map<Name, Entry>,
    order: seq<Name>,
    blocked: Graph,
    building: nat,
    closed: bool,
    drain: Drain)

  /** What Provide is handed, by the shape the container tells apart. */
  datatype Arg = Nil | Misused | Ready(service: Service) | Lazy

  datatype Provided = Accepted | InvalidName | InvalidCtor | ProvideClosed | Duplicate

  /** A finished resolution. */
  datatype Reply = Got(service: Service) | BuildFailed(failure: Failure) | Refused | Unknown | Cyclic

  /** How a resolution leaves its first lock-held section. */
  datatype Entered = Answer(reply: Reply) | Wait | Run

  function ReplyOf(o: Outcome): Reply {
    match o
    case Serves(s) => Got(s)
    case Fails(f) => BuildFailed(f)
  }

  const EMPTY := Registry(map[], [], map[], 0, false, NoSignal)

  function InFlight(entries: map<Name, Entry>): set<Name> {
    set n | n in entries && entries[n].Building?
  }

  /** What every lock-held section finds and leaves. */
  ghost predicate Valid(r: Registry) {
    && Acyclic(r.blocked) && Compact(r.blocked)
    && "" !in r.entries
    && (forall n :: n in r.order <==> n in r.entries)
    && (forall i, j :: 0 <= i < j < |r.order| ==> r.order[i] != r.order[j])
    && r.building == |InFlight(r.entries)|
    && (r.drain.Pending? <==> r.closed && r.building > 0)
    && (r.drain.Signalled? ==> r.closed)
  }

  // ----- the sections

  function Provide(r: Registry, name: Name, arg: Arg): (Registry, Provided) {
    if name == "" then (r, InvalidName)
    else if arg.Nil? then (r, InvalidCtor)
    else if r.closed then (r, ProvideClosed)
    else if name in r.entries then (r, Duplicate)
    else if arg.Misused? then (r, InvalidCtor)
    else
      var e := if arg.Ready? then Built(Serves(arg.service)) else Unbuilt;
      (r.(entries := r.entries[name := e], order := r.order + [name]), Accepted)
  }

  ghost function Enter(r: Registry, owner: Name, name: Name): (Registry, Entered) {
    if r.closed then (r, Answer(Refused))
    else if name !in r.entries then (r, Answer(Unknown))
    else if r.entries[name].Built? then (r, Answer(ReplyOf(r.entries[name].outcome)))
    else if owner != "" && !Acyclic(WithEdge(r.blocked, owner, name)) then (r, Answer(Cyclic))
    else
      var waiting := if owner == "" then r else r.(blocked := WithEdge(r.blocked, owner, name));
      if r.entries[name].Building? then
        (waiting, Wait)
      else
        (waiting.(entries := r.entries[name := Building], building := r.building + 1), Run)
  }

  function Unwait(g: Graph, owner: Name, name: Name): Graph {
    if owner == "" then g else WithoutEdge(g, owner, name)
  }

  function Wake(r: Registry, owner: Name, name: Name): (Registry, Reply)
    requires name in r.entries && r.entries[name].Built?
  {
    (r.(blocked := Unwait(r.blocked, owner, name)),
     if r.closed then Refused else ReplyOf(r.entries[name].outcome))
  }

  function Finish(r: Registry, owner: Name, name: Name, outcome: Outcome): (Registry, Reply)
    requires name in r.entries && r.building > 0
  {
    (r.(entries := r.entries[name := Built(outcome)],
        blocked := Unwait(r.blocked, owner, name),
        building := r.building - 1,
        drain := if r.building == 1 && r.drain.Pending? then Signalled else r.drain),
     if outcome.Serves? && r.closed then Refused else ReplyOf(outcome))
  }

  function BeginShutdown(r: Registry): Registry {
    r.(closed := true, drain := if r.building == 0 then r.drain else Pending)
  }

  predicate Closable(r: Registry, n: Name) {
    n in r.entries && r.entries[n].Built? && r.entries[n].outcome.Serves?
  }

  /** The services Shutdown visits: the built ones, last registered first. */
  function Targets(r: Registry, order: seq<Name>): seq<Name> {
    if order == [] then []
    else
      var rest := Targets(r, order[..|order| - 1]);
      var last := order[|order| - 1];
      if Closable(r, last) then [last] + rest else rest
  }

  // ----- every section keeps Valid

  lemma EdgesShrink(g: Graph, owner: Name, name: Name)
    requires Acyclic(g) && Compact(g)
    ensures Acyclic(Unwait(g, owner, name)) && Compact(Unwait(g, owner, name))
    ensures forall n :: Waits(Unwait(g, owner, name), n) <= Waits(g, n)
    ensures forall n, m :: m in Waits(g, n) && m != name ==> m in Waits(Unwait(g, owner, name), n)
  {
    SmallerGraph(g, Unwait(g, owner, name));
  }

  lemma ProvideKeeps(r: Registry, name: Name, arg: Arg)
    requires Valid(r)
    ensures Valid(Provide(r, name, arg).0)
  {
    var s := Provide(r, name, arg).0;
    assert InFlight(s.entries) == InFlight(r.entries);
  }

  lemma EnterKeeps(r: Registry, owner: Name, name: Name)
    requires Valid(r)
    ensures Valid(Enter(r, owner, name).0)
  {
    var (s, e) := Enter(r, owner, name);
    if !e.Answer? {
      var g := if owner == "" then r.blocked else WithEdge(r.blocked, owner, name);
      assert Acyclic(g) && Compact(g);
      if e.Run? {
        RunKeeps(r, g, name);
      } else {
        assert s == r.(blocked := g);
      }
    }
  }

  lemma RunKeeps(r: Registry, g: Graph, name: Name)
    requires Valid(r) && Acyclic(g) && Compact(g) && !r.closed && name in r.entries && r.entries[name].Unbuilt?
    ensures Valid(r.(blocked := g, entries := r.entries[name := Building], building := r.building + 1))
  {
    assert InFlight(r.entries[name := Building]) == InFlight(r.entries) + {name};
  }

  lemma WakeKeeps(r: Registry, owner: Name, name: Name)
    requires Valid(r) && name in r.entries && r.entries[name].Built?
    ensures Valid(Wake(r, owner, name).0)
  {
    EdgesShrink(r.blocked, owner, name);
  }

  lemma FinishKeeps(r: Registry, owner: Name, name: Name, outcome: Outcome)
    requires Valid(r) && name in r.entries && r.entries[name].Building? && r.building > 0
    ensures Valid(Finish(r, owner, name, outcome).0)
  {
    EdgesShrink(r.blocked, owner, name);
    OneFewer(r.entries, name, outcome);
  }

  lemma OneFewer(entries: map<Name, Entry>, name: Name, outcome: Outcome)
    requires name in entries && entries[name].Building?
    ensures |InFlight(entries)| == |InFlight(entries[name := Built(outcome)])| + 1
  {
    assert InFlight(entries) == InFlight(entries[name := Built(outcome)]) + {name};
  }

  lemma ShutdownKeeps(r: Registry)
    requires Valid(r) && !r.closed
    ensures Valid(BeginShutdown(r))
  {
  }

  // ----- the snapshot

  ghost predicate RegisteredBefore(order: seq<Name>, a: Name, b: Name) {
    exists i, j :: 0 <= i < j < |order| && order[i] == a && order[j] == b
  }

  /** The snapshot lists each closable service once, and always a later
      registration before an earlier one. */
  lemma {:induction false} TargetsAreExact(r: Registry, order: seq<Name>)
    requires forall i, j :: 0 <= i < j < |order| ==> order[i] != order[j]
    ensures forall n :: n in Targets(r, order) <==> n in order && Closable(r, n)
    ensures forall i, j :: 0 <= i < j < |Targets(r, order)| ==>
              Targets(r, order)[i] != Targets(r, order)[j] &&
              RegisteredBefore(order, Targets(r, order)[j], Targets(r, order)[i])
  {
    if order != [] {
      var n := |order| - 1;
      var rest, last := order[..n], order[n];
      TargetsAreExact(r, rest);
      assert order == rest + [last];
      var all, tail := Targets(r, order), Targets(r, rest);
      forall i, j | 0 <= i < j < |all|
        ensures all[i] != all[j] && RegisteredBefore(order, all[j], all[i])
      {
        if Closable(r, last) && i == 0 {
          assert all[j] == tail[j - 1] && tail[j - 1] in tail;
          var k :| 0 <= k < n && rest[k] == all[j];
          assert order[k] == all[j] && order[n] == all[i];
        } else {
          var d := if Closable(r, last) then 1 else 0;
          assert all[i] == tail[i - d] && all[j] == tail[j - d];
          var x, y :| 0 <= x < y < |rest| && rest[x] == all[j] && rest[y] == all[i];
          assert order[x] == all[j] && order[y] == all[i];
        }
      }
    }
  }
}
