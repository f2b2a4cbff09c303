/** The whole field resolution: level by level over a type graph that may be cyclic,
    then one winner per name. */
module FieldSearch {
  import opened Options
  import opened JsonTypes
  import opened Shadowing
  import opened FieldCollector

  /** Walked at its depth, `t` was reached by more than one embedding. */
  ghost predicate Doubled(g: Graph, root: TypeId, t: TypeId) {
    exists d :: At(g, root, t, d) && Repeated(g, root, t, d)
  }

  /** How often a field of the structs walked so far was gathered. */
  ghost function Times(g: Graph, root: TypeId, seen: set<TypeId>, s: Site): nat {
    if s.owner in seen && IsSite(g, s) && Plain(g, DeclAt(g, s)) then
      (if Doubled(g, root, s.owner) then 2 else 1)
    else 0
  }

  /** A gathered entry belongs to its site, at the site's own depth. */
  ghost predicate Origin(g: Graph, root: TypeId, s: Site, f: Field) {
    IsSite(g, s) && At(g, root, s.owner, f.depth) && f == FieldOf(g, DeclAt(g, s), f.depth)
  }

  ghost predicate Origins(g: Graph, root: TypeId, from: seq<Site>, found: seq<Field>) {
    |from| == |found| && forall k :: 0 <= k < |from| ==> Origin(g, root, from[k], found[k])
  }

  ghost predicate Tallied(g: Graph, root: TypeId, seen: set<TypeId>, from: seq<Site>) {
    forall s :: multiset(from)[s] == Times(g, root, seen, s)
  }

  lemma OriginsGrow(g: Graph, root: TypeId, t: TypeId, depth: nat, twice: bool, from: seq<Site>, found: seq<Field>)
    requires t in g.types && At(g, root, t, depth) && Origins(g, root, from, found)
    ensures Origins(g, root, PlainSites(from, t, PlainAt(g, t), |g.types[t]|, twice),
                    Entries(found, FieldsOf(g, t, depth), PlainAt(g, t), |g.types[t]|, twice))
  {
    var marks, fields, n := PlainAt(g, t), FieldsOf(g, t, depth), |g.types[t]|;
    EntriesMatch(from, found, t, fields, marks, n, twice);
    var sites, entries := PlainSites(from, t, marks, n, twice), Entries(found, fields, marks, n, twice);
    forall k | 0 <= k < |sites| ensures Origin(g, root, sites[k], entries[k]) {
      if k < |from| {
        assert sites[k] == from[k] && entries[k] == found[k];
      } else {
        assert entries[k] == fields[sites[k].index];
      }
    }
  }

  lemma TallyGrows(g: Graph, root: TypeId, t: TypeId, twice: bool, seen: set<TypeId>, from: seq<Site>)
    requires t in g.types && t !in seen && Tallied(g, root, seen, from)
    requires twice <==> Doubled(g, root, t)
    ensures Tallied(g, root, seen + {t}, PlainSites(from, t, PlainAt(g, t), |g.types[t]|, twice))
  {
    var marks, n := PlainAt(g, t), |g.types[t]|;
    forall s ensures multiset(PlainSites(from, t, marks, n, twice))[s] == Times(g, root, seen + {t}, s) {
      PlainSitesCount(from, t, marks, n, twice, s);
    }
  }

  // ----- one level

  function Count(count: map<TypeId, nat>, t: TypeId): nat {
    if t in count then count[t] else 0
  }

  /** What holds when the walk of depth d begins. */
  ghost predicate LevelStart(g: Graph, root: TypeId, d: nat, seen: set<TypeId>, next: seq<TypeId>, count: map<TypeId, nat>) {
    && (forall t :: t in seen <==> Within(g, root, t, d - 1))
    && (forall t :: At(g, root, t, d) <==> t in next && t !in seen)
    && (forall t :: t in next ==> t in g.types)
    && (forall t :: At(g, root, t, d) ==> (Count(count, t) > 1 <==> Doubled(g, root, t)))
  }

  /** The embeddings of a level's structs. */
  ghost function LevelSites(g: Graph, root: TypeId, d: nat): iset<Site> {
    iset s: Site | Target(g, s).Some? && At(g, root, s.owner, d)
  }

  lemma FirstLevel(g: Graph, root: TypeId)
    requires root in g.types
    ensures LevelStart(g, root, 0, {}, [root], map[])
  {
    forall t ensures (At(g, root, t, 0) <==> t == root) && !Within(g, root, t, -1) {
      RootLevel(g, root, t);
    }
  }

  lemma EmbeddedOnce(g: Graph, root: TypeId, d: nat, t: TypeId)
    ensures Once(g, LevelSites(g, root, d), t) <==> exists u :: At(g, root, u, d) && LeadsTo(g, u, t)
  {
    if Once(g, LevelSites(g, root, d), t) {
      var s :| s in LevelSites(g, root, d) && Target(g, s) == Some(t);
      assert s == Site(s.owner, s.index);
      assert LeadsTo(g, s.owner, t);
    }
    if u :| At(g, root, u, d) && LeadsTo(g, u, t) {
      var i: nat :| Target(g, Site(u, i)) == Some(t);
      assert Site(u, i) in LevelSites(g, root, d);
    }
  }

  lemma EmbeddedTwice(g: Graph, root: TypeId, d: nat, t: TypeId)
    requires At(g, root, t, d + 1)
    ensures Twice(g, LevelSites(g, root, d), t) <==> Doubled(g, root, t)
  {
    if Twice(g, LevelSites(g, root, d), t) {
      var a, b :| a in LevelSites(g, root, d) && b in LevelSites(g, root, d) && a != b
                  && Target(g, a) == Some(t) == Target(g, b);
      assert Feeds(g, root, a, t, d + 1) && Feeds(g, root, b, t, d + 1);
    }
    if Doubled(g, root, t) {
      var e :| At(g, root, t, e) && Repeated(g, root, t, e);
      AtIsUnique(g, root, t, d + 1, e);
      var a, b :| a != b && Feeds(g, root, a, t, e) && Feeds(g, root, b, t, e);
      assert a in LevelSites(g, root, d) && b in LevelSites(g, root, d);
    }
  }

  /** Walking one level prepares the next. */
  lemma NextStart(g: Graph, root: TypeId, d: nat, seen: set<TypeId>, valid: seq<TypeId>, wider: set<TypeId>,
                  next: seq<TypeId>, count: map<TypeId, nat>)
    requires Closed(g) && (forall t :: t in seen <==> Within(g, root, t, d - 1))
    requires forall t :: At(g, root, t, d) <==> t in valid && t !in seen
    requires forall t :: t in wider <==> t in seen || t in valid
    requires Counted(g, LevelSites(g, root, d), next, count)
    ensures LevelStart(g, root, d + 1, wider, next, count)
  {
    forall t ensures t in wider <==> Within(g, root, t, d) {
      if Within(g, root, t, d - 1) {
        Wider(g, root, t, d - 1, d);
      }
    }
    forall t ensures At(g, root, t, d + 1) <==> t in next && t !in wider {
      NextLevel(g, root, t, d + 1);
      EmbeddedOnce(g, root, d, t);
    }
    forall t | t in next ensures t in g.types {
      var s :| s in LevelSites(g, root, d) && Target(g, s) == Some(t);
    }
    forall t | At(g, root, t, d + 1) ensures Count(count, t) > 1 <==> Doubled(g, root, t) {
      EmbeddedTwice(g, root, d, t);
      assert t in next;
    }
  }

  lemma LevelMember(g: Graph, root: TypeId, d: nat, seen: set<TypeId>, next: seq<TypeId>, count: map<TypeId, nat>, t: TypeId)
    requires LevelStart(g, root, d, seen, next, count) && t in next && t !in seen
    ensures t in g.types && At(g, root, t, d) && (Count(count, t) > 1 <==> Doubled(g, root, t))
  {
  }

  method WalkType(g: Graph, ghost root: TypeId, depth: nat, ghost seen: set<TypeId>, typ: TypeId, repeats: nat,
                  collector: Collector)
    requires typ in g.types && typ !in seen && At(g, root, typ, depth) && (repeats > 1 <==> Doubled(g, root, typ))
    requires collector.Counts(g)
    requires Walked(g, root, depth, seen, collector.embedded, collector.from, collector.found)
    modifies collector
    ensures collector.Counts(g)
    ensures Walked(g, root, depth, seen + {typ}, collector.embedded, collector.from, collector.found)
  {
    WalkedGrows(g, root, depth, seen, typ, repeats > 1, collector.embedded, collector.from, collector.found);
    collector.Walk(g, typ, depth, repeats);
  }

  /** One turn of the outer loop: the types not seen yet are walked, each once. */
  method WalkLevel(g: Graph, ghost root: TypeId, depth: nat, valid: seq<TypeId>, count: map<TypeId, nat>,
                   before: set<TypeId>, collector: Collector) returns (seen: set<TypeId>)
    requires LevelStart(g, root, depth, before, valid, count)
    requires collector.Counts(g)
    requires Walked(g, root, depth, before, collector.embedded, collector.from, collector.found)
    modifies collector
    ensures forall t :: t in seen <==> t in before || t in valid
    ensures collector.Counts(g)
    ensures Walked(g, root, depth, seen, collector.embedded, collector.from, collector.found)
  {
    seen := before;
    for v := 0 to |valid|
      invariant forall t :: t in seen <==> t in before || t in valid[..v]
      invariant collector.Counts(g)
      invariant Walked(g, root, depth, seen, collector.embedded, collector.from, collector.found)
    {
      var typ := valid[v];
      assert valid[..v + 1] == valid[..v] + [typ];
      if typ in seen {
        continue;
      }
      LevelMember(g, root, depth, before, valid, count, typ);
      WalkType(g, root, depth, seen, typ, Count(count, typ), collector);
      seen := seen + {typ};
    }
  }

  /** The embeddings of the level's structs that were walked so far. */
  ghost predicate Met(g: Graph, root: TypeId, d: nat, seen: set<TypeId>, embedded: iset<Site>) {
    forall s: Site :: s in embedded <==> Target(g, s).Some? && At(g, root, s.owner, d) && s.owner in seen
  }

  lemma MetAll(g: Graph, root: TypeId, d: nat, seen: set<TypeId>, embedded: iset<Site>)
    requires Met(g, root, d, seen, embedded) && forall t :: At(g, root, t, d) ==> t in seen
    ensures embedded == LevelSites(g, root, d)
  {
  }

  /** What the level's walk has gathered, after the types of `seen`. */
  ghost predicate Walked(g: Graph, root: TypeId, d: nat, seen: set<TypeId>,
                         embedded: iset<Site>, from: seq<Site>, found: seq<Field>)
  {
    Met(g, root, d, seen, embedded) && Origins(g, root, from, found) && Tallied(g, root, seen, from)
  }

  lemma WalkedGrows(g: Graph, root: TypeId, d: nat, seen: set<TypeId>, t: TypeId, twice: bool,
                    embedded: iset<Site>, from: seq<Site>, found: seq<Field>)
    requires Walked(g, root, d, seen, embedded, from, found)
    requires t in g.types && t !in seen && At(g, root, t, d) && (twice <==> Doubled(g, root, t))
    ensures |from| == |found| && forall s :: s in embedded ==> s.owner != t
    ensures Walked(g, root, d, seen + {t},
                   Embeddings(embedded, g, t, |g.types[t]|),
                   PlainSites(from, t, PlainAt(g, t), |g.types[t]|, twice),
                   Entries(found, FieldsOf(g, t, d), PlainAt(g, t), |g.types[t]|, twice))
  {
    OriginsGrow(g, root, t, d, twice, from, found);
    TallyGrows(g, root, t, twice, seen, from);
    MetGrows(g, root, d, seen, t, embedded);
  }

  lemma MetGrows(g: Graph, root: TypeId, d: nat, seen: set<TypeId>, t: TypeId, embedded: iset<Site>)
    requires Met(g, root, d, seen, embedded) && t in g.types && At(g, root, t, d)
    ensures Met(g, root, d, seen + {t}, Embeddings(embedded, g, t, |g.types[t]|))
  {
    forall s: Site ensures s in Embeddings(embedded, g, t, |g.types[t]|) <==>
                           Target(g, s).Some? && At(g, root, s.owner, d) && s.owner in seen + {t}
    {
      EmbeddingsAre(embedded, g, t, |g.types[t]|, s);
    }
  }

  /** Either a new struct was walked, or nothing was embedded and the walk ends. */
  lemma Shrinks(g: Graph, root: TypeId, d: nat, seen: set<TypeId>, valid: seq<TypeId>, wider: set<TypeId>,
                next: seq<TypeId>, count: map<TypeId, nat>)
    requires forall t :: At(g, root, t, d) <==> t in valid && t !in seen
    requires forall t :: t in valid ==> t in g.types
    requires forall t :: t in wider <==> t in seen || t in valid
    requires Counted(g, LevelSites(g, root, d), next, count)
    ensures g.types.Keys - wider < g.types.Keys - seen || (g.types.Keys - wider == g.types.Keys - seen && next == [])
  {
    if next != [] {
      assert next[0] in next && Once(g, LevelSites(g, root, d), next[0]);
    }
    if t :| t in valid && t !in seen {
      assert t in g.types.Keys - seen && t !in g.types.Keys - wider;
    } else {
      assert wider == seen;
    }
  }

  // ----- the rule

  /** With every level walked, winning among the gathered entries is the dominance rule. */
  lemma WinnersAreWritten(g: Graph, root: TypeId, seen: set<TypeId>, from: seq<Site>, found: seq<Field>, f: Field)
    requires Origins(g, root, from, found) && Tallied(g, root, seen, from)
    requires forall t, d :: At(g, root, t, d) ==> t in seen
    ensures Wins(found, f) <==> Written(g, root, f)
  {
    if Wins(found, f) {
      var k: nat :| k < |found| && found[k] == f && WinsAt(found, k);
      WinnerDominates(g, root, seen, from, found, k);
    }
    if Written(g, root, f) {
      var s, d :| Dominates(g, root, s, d) && f == FieldOf(g, DeclAt(g, s), d);
      DominantWins(g, root, seen, from, found, s, d);
    }
  }

  lemma Gathered(g: Graph, root: TypeId, seen: set<TypeId>, from: seq<Site>, found: seq<Field>, s: Site, d: nat) returns (k: nat)
    requires Origins(g, root, from, found) && Tallied(g, root, seen, from)
    requires Candidate(g, root, s, d) && s.owner in seen
    ensures k < |from| && from[k] == s && found[k] == FieldOf(g, DeclAt(g, s), d)
  {
    assert multiset(from)[s] >= 1;
    assert s in from;
    k :| 0 <= k < |from| && from[k] == s;
    assert Origin(g, root, from[k], found[k]);
    AtIsUnique(g, root, s.owner, d, found[k].depth);
  }

  lemma WinnerDominates(g: Graph, root: TypeId, seen: set<TypeId>, from: seq<Site>, found: seq<Field>, k: nat)
    requires Origins(g, root, from, found) && Tallied(g, root, seen, from)
    requires forall t, d :: At(g, root, t, d) ==> t in seen
    requires k < |found| && WinsAt(found, k)
    ensures Dominates(g, root, from[k], found[k].depth) && found[k] == FieldOf(g, DeclAt(g, from[k]), found[k].depth)
  {
    var s, d := from[k], found[k].depth;
    assert Origin(g, root, s, found[k]);
    assert s in multiset(from) && multiset(from)[s] == Times(g, root, seen, s);
    assert Candidate(g, root, s, d);
    forall j | 0 <= j < |from| && j != k ensures from[j] != s {
      assert Origin(g, root, from[j], found[j]) && Loses(found[k], found[j]);
      if from[j] == s {
        AtIsUnique(g, root, s.owner, d, found[j].depth);
      }
    }
    OnlyOnce(from, k);
    forall r, e | Candidate(g, root, r, e) && r != s
      ensures Loses(FieldOf(g, DeclAt(g, s), d), FieldOf(g, DeclAt(g, r), e))
    {
      var j := Gathered(g, root, seen, from, found, r, e);
      assert Loses(found[k], found[j]);
    }
  }

  lemma DominantWins(g: Graph, root: TypeId, seen: set<TypeId>, from: seq<Site>, found: seq<Field>, s: Site, d: nat)
    requires Origins(g, root, from, found) && Tallied(g, root, seen, from)
    requires forall t, e :: At(g, root, t, e) ==> t in seen
    requires Dominates(g, root, s, d)
    ensures Wins(found, FieldOf(g, DeclAt(g, s), d))
  {
    var k := Gathered(g, root, seen, from, found, s, d);
    if Doubled(g, root, s.owner) {
      var e :| At(g, root, s.owner, e) && Repeated(g, root, s.owner, e);
      AtIsUnique(g, root, s.owner, d, e);
    }
    assert multiset(from)[s] == Times(g, root, seen, s) == 1;
    OnlyOnce(from, k);
    forall j | 0 <= j < |found| && j != k ensures Loses(found[k], found[j]) {
      assert Origin(g, root, from[j], found[j]);
      assert multiset(from)[from[j]] == Times(g, root, seen, from[j]);
      assert from[j] in multiset(from);
      assert Candidate(g, root, from[j], found[j].depth);
    }
    assert WinsAt(found, k);
  }

  lemma AllSeen(g: Graph, root: TypeId, d: nat, seen: set<TypeId>)
    requires forall t :: t in seen <==> Within(g, root, t, d - 1)
    requires forall t :: !At(g, root, t, d)
    ensures forall t, e :: At(g, root, t, e) ==> t in seen
  {
    forall t, e | At(g, root, t, e) ensures t in seen {
      var p :| ChainTo(g, root, t, p) && |p| <= e + 1;
      LevelsEnd(g, root, d, t, p);
    }
  }

  /** Ends on every closed type graph, cyclic or not; what it returns is decided by the
      rule alone, one field per name, names ascending. */
  method JsonFields(g: Graph, root: TypeId) returns (result: seq<Field>)
    requires Closed(g) && root in g.types
    ensures forall f :: f in result <==> Written(g, root, f)
    ensures NamesAscend(result)
  {
    var collector := new Collector();
    var seen: set<TypeId> := {};
    var next := [root];
    var depth := 0;
    FirstLevel(g, root);
    while |next| > 0
      invariant LevelStart(g, root, depth, seen, next, collector.nextCount)
      invariant Origins(g, root, collector.from, collector.found) && Tallied(g, root, seen, collector.from)
      invariant fresh(collector)
      decreases g.types.Keys - seen, |next|
    {
      var valid, count := next, collector.nextCount;
      ghost var before := seen;
      collector.StartLevel(g);
      assert Met(g, root, depth, seen, collector.embedded);
      seen := WalkLevel(g, root, depth, valid, count, seen, collector);
      MetAll(g, root, depth, seen, collector.embedded);
      NextStart(g, root, depth, before, valid, seen, collector.next, collector.nextCount);
      Shrinks(g, root, depth, before, valid, seen, collector.next, collector.nextCount);
      next := collector.next;
      depth := depth + 1;
    }
    AllSeen(g, root, depth, seen);
    result := Unshadowed(collector.found);
    forall f ensures f in result <==> Written(g, root, f) {
      WinnersAreWritten(g, root, seen, collector.from, collector.found, f);
      assert f in result <==> Wins(collector.found, f);
    }
  }
}
