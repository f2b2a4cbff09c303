/** The walk that gathers the candidates: each struct once, at its shortest depth. */
module FieldCollector {
  import opened Options
  import opened JsonTypes

  // ----- what one struct contributes

  function PlainAt(g: Graph, t: TypeId): (marks: seq<bool>)
    requires t in g.types
    ensures |marks| == |g.types[t]|
    ensures forall i :: 0 <= i < |marks| ==> marks[i] == Plain(g, g.types[t][i])
  {
    seq(|g.types[t]|, i requires 0 <= i < |g.types[t]| => Plain(g, g.types[t][i]))
  }

  function FieldsOf(g: Graph, t: TypeId, depth: nat): (fields: seq<Field>)
    requires t in g.types
    ensures |fields| == |g.types[t]|
    ensures forall i :: 0 <= i < |fields| ==> fields[i] == FieldOf(g, g.types[t][i], depth)
  {
    seq(|g.types[t]|, i requires 0 <= i < |g.types[t]| => FieldOf(g, g.types[t][i], depth))
  }

  /** A plain field is there once, twice if the struct was reached twice. */
  function Picked(s: Site, plain: bool, twice: bool): seq<Site> {
    if !plain then [] else if twice then [s, s] else [s]
  }

  /** `to`, and the plain fields among the first n. */
  function PlainSites(to: seq<Site>, t: TypeId, marks: seq<bool>, n: nat, twice: bool): seq<Site>
    requires n <= |marks|
  {
    if n == 0 then to else PlainSites(to, t, marks, n - 1, twice) + Picked(Site(t, n - 1), marks[n - 1], twice)
  }

  function Copies(t: TypeId, marks: seq<bool>, n: nat, twice: bool, s: Site): nat
    requires n <= |marks|
  {
    if s.owner == t && s.index < n && marks[s.index] then (if twice then 2 else 1) else 0
  }

  lemma {:induction false} PlainSitesCount(to: seq<Site>, t: TypeId, marks: seq<bool>, n: nat, twice: bool, s: Site)
    requires n <= |marks|
    ensures multiset(PlainSites(to, t, marks, n, twice))[s] == multiset(to)[s] + Copies(t, marks, n, twice, s)
  {
    if n > 0 {
      assert s == Site(t, n - 1) <==> s.owner == t && s.index == n - 1;
      PlainSitesCount(to, t, marks, n - 1, twice, s);
      var before := PlainSites(to, t, marks, n - 1, twice);
      assert PlainSites(to, t, marks, n, twice) == before + Picked(Site(t, n - 1), marks[n - 1], twice);
      PickedCount(before, Site(t, n - 1), marks[n - 1], twice, s);
    }
  }

  lemma PickedCount(to: seq<Site>, p: Site, plain: bool, twice: bool, s: Site)
    ensures multiset(to + Picked(p, plain, twice))[s] ==
            multiset(to)[s] + if s == p && plain then (if twice then 2 else 1) else 0
  {
    var tail := Picked(p, plain, twice);
    assert multiset(to + tail) == multiset(to) + multiset(tail);
  }

  // ----- the collector

  /** One embedding among `sites` leads to t; two do. */
  ghost predicate Once(g: Graph, sites: iset<Site>, t: TypeId) {
    exists s :: s in sites && Target(g, s) == Some(t)
  }

  ghost predicate Twice(g: Graph, sites: iset<Site>, t: TypeId) {
    exists s, r :: s in sites && r in sites && s != r && Target(g, s) == Some(t) == Target(g, r)
  }

  /** `next` lists every type the embeddings lead to once, and `nextCount` says which
      of them several embeddings lead to. */
  ghost predicate Counted(g: Graph, embedded: iset<Site>, next: seq<TypeId>, nextCount: map<TypeId, nat>) {
    && (forall i, j :: 0 <= i < j < |next| ==> next[i] != next[j])
    && (forall t :: t in next <==> Once(g, embedded, t))
    && (forall t :: t in next <==> t in nextCount && nextCount[t] >= 1)
    && (forall t :: t in nextCount ==> (nextCount[t] > 1 <==> Twice(g, embedded, t)))
  }

  class Collector {
    var found: seq<Field>
    var next: seq<TypeId>
    var nextCount: map<TypeId, nat>

    /** Where each entry of `found` comes from, and the embeddings met at this level. */
    ghost var from: seq<Site>
    ghost var embedded: iset<Site>

    constructor ()
      ensures found == [] && next == [] && nextCount == map[] && from == [] && embedded == iset{}
    {
      found, next, nextCount, from, embedded := [], [], map[], [], iset{};
    }

    ghost predicate Counts(g: Graph)
      reads this
    {
      Counted(g, embedded, next, nextCount)
    }

    method StartLevel(ghost g: Graph)
      modifies this`next, this`nextCount, this`embedded
      ensures next == [] && nextCount == map[] && embedded == iset{} && Counts(g)
    {
      next, nextCount, embedded := [], map[], iset{};
    }

    method Embed(ghost g: Graph, ghost s: Site, t: TypeId)
      requires Counts(g) && s !in embedded && Target(g, s) == Some(t)
      modifies this`next, this`nextCount, this`embedded
      ensures Counts(g) && embedded == old(embedded) + iset{s}
    {
      CountedGrows(g, embedded, s, t, next, nextCount);
      embedded := embedded + iset{s};
      nextCount := nextCount[t := (if t in nextCount then nextCount[t] else 0) + 1];
      if nextCount[t] == 1 {
        next := next + [t];
      }
    }

    /** Field i of `t`, in hand: a plain one is gathered, an embedded one queued. */
    method Gather(g: Graph, t: TypeId, i: nat, depth: nat, repeats: nat, ghost plain: bool, ghost entry: Field)
      requires t in g.types && i < |g.types[t]| && Counts(g) && Site(t, i) !in embedded && |from| == |found|
      requires plain == Plain(g, g.types[t][i]) && entry == FieldOf(g, g.types[t][i], depth)
      modifies this
      ensures Counts(g) && |from| == |found|
      ensures embedded == old(embedded) + (if Target(g, Site(t, i)).Some? then iset{Site(t, i)} else iset{})
      ensures from == old(from) + Picked(Site(t, i), plain, repeats > 1)
      ensures found == old(found) + Twin(entry, plain, repeats > 1)
    {
      var f := g.types[t][i];
      if Skipped(f) {
        return;
      }
      var name := TagName(g, f);
      if name == "" && f.anonymous && f.under.Some? {
        Embed(g, Site(t, i), f.under.value);
        return;
      }
      var omitEmpty := HasOption(Cut(f.tag).1, "omitempty");
      var omitZero := HasOption(Cut(f.tag).1, "omitzero");
      var field := Field(if name == "" then f.goName else name, f.typ, depth, name != "", omitEmpty || omitZero);
      assert field == entry;
      found, from := found + [field], from + [Site(t, i)];
      if repeats > 1 {
        found, from := found + [found[|found| - 1]], from + [Site(t, i)];
      }
    }

    /** One turn of the loop over `t`'s fields. */
    method Turn(g: Graph, t: TypeId, i: nat, depth: nat, repeats: nat, ghost marks: seq<bool>, ghost fields: seq<Field>,
                ghost embedded0: iset<Site>, ghost from0: seq<Site>, ghost found0: seq<Field>)
      requires t in g.types && i < |g.types[t]| == |marks| == |fields| && Counts(g) && |from| == |found|
      requires marks[i] == Plain(g, g.types[t][i]) && fields[i] == FieldOf(g, g.types[t][i], depth)
      requires forall s :: s in embedded0 ==> s.owner != t
      requires embedded == Embeddings(embedded0, g, t, i)
      requires from == PlainSites(from0, t, marks, i, repeats > 1)
      requires found == Entries(found0, fields, marks, i, repeats > 1)
      modifies this
      ensures Counts(g) && |from| == |found|
      ensures embedded == Embeddings(embedded0, g, t, i + 1)
      ensures from == PlainSites(from0, t, marks, i + 1, repeats > 1)
      ensures found == Entries(found0, fields, marks, i + 1, repeats > 1)
    {
      EmbeddingsAre(embedded0, g, t, i, Site(t, i));
      Gather(g, t, i, depth, repeats, marks[i], fields[i]);
    }

    /** Gathers one struct's fields and queues the structs it embeds. */
    method Walk(g: Graph, t: TypeId, depth: nat, repeats: nat)
      requires t in g.types && Counts(g)
      requires |from| == |found| && forall s :: s in embedded ==> s.owner != t
      modifies this
      ensures Counts(g) && |from| == |found|
      ensures embedded == Embeddings(old(embedded), g, t, |g.types[t]|)
      ensures from == PlainSites(old(from), t, PlainAt(g, t), |g.types[t]|, repeats > 1)
      ensures found == Entries(old(found), FieldsOf(g, t, depth), PlainAt(g, t), |g.types[t]|, repeats > 1)
    {
      ghost var marks, fields := PlainAt(g, t), FieldsOf(g, t, depth);
      for i := 0 to |g.types[t]|
        invariant Counts(g) && |from| == |found|
        invariant embedded == Embeddings(old(embedded), g, t, i)
        invariant from == PlainSites(old(from), t, marks, i, repeats > 1)
        invariant found == Entries(old(found), fields, marks, i, repeats > 1)
      {
        Turn(g, t, i, depth, repeats, marks, fields, old(embedded), old(from), old(found));
      }
    }
  }

  /** `to`, and the embeddings among the first n fields. */
  ghost function Embeddings(to: iset<Site>, g: Graph, t: TypeId, n: nat): iset<Site> {
    if n == 0 then to
    else Embeddings(to, g, t, n - 1) + (if Target(g, Site(t, n - 1)).Some? then iset{Site(t, n - 1)} else iset{})
  }

  lemma {:induction false} EmbeddingsAre(to: iset<Site>, g: Graph, t: TypeId, n: nat, s: Site)
    ensures s in Embeddings(to, g, t, n) <==> s in to || (s.owner == t && s.index < n && Target(g, s).Some?)
  {
    if n > 0 {
      EmbeddingsAre(to, g, t, n - 1, s);
      assert s.owner == t && s.index == n - 1 ==> s == Site(t, n - 1);
    }
  }

  function Twin(f: Field, plain: bool, twice: bool): seq<Field> {
    if !plain then [] else if twice then [f, f] else [f]
  }

  function Entries(to: seq<Field>, fields: seq<Field>, marks: seq<bool>, n: nat, twice: bool): seq<Field>
    requires n <= |marks| == |fields|
  {
    if n == 0 then to else Entries(to, fields, marks, n - 1, twice) + Twin(fields[n - 1], marks[n - 1], twice)
  }

  /** Past the first `m`, entry and origin go together. */
  ghost predicate Aligned(t: TypeId, fields: seq<Field>, m: nat, sites: seq<Site>, entries: seq<Field>) {
    && m <= |sites| == |entries|
    && forall k :: m <= k < |sites| ==>
         sites[k].owner == t && sites[k].index < |fields| && entries[k] == fields[sites[k].index]
  }

  lemma {:induction false} EntriesMatch(from: seq<Site>, found: seq<Field>, t: TypeId, fields: seq<Field>,
                                        marks: seq<bool>, n: nat, twice: bool)
    requires n <= |marks| == |fields| && |from| == |found|
    ensures Aligned(t, fields, |from|, PlainSites(from, t, marks, n, twice), Entries(found, fields, marks, n, twice))
    ensures from <= PlainSites(from, t, marks, n, twice) && found <= Entries(found, fields, marks, n, twice)
  {
    if n > 0 {
      EntriesMatch(from, found, t, fields, marks, n - 1, twice);
    }
  }

  lemma Embedded(g: Graph, was: iset<Site>, s: Site, t: TypeId)
    requires s !in was && Target(g, s) == Some(t)
    ensures Once(g, was + iset{s}, t) && (Twice(g, was + iset{s}, t) <==> Once(g, was, t))
    ensures forall u :: u != t ==> (Once(g, was + iset{s}, u) <==> Once(g, was, u))
    ensures forall u :: u != t ==> (Twice(g, was + iset{s}, u) <==> Twice(g, was, u))
  {
    assert s in was + iset{s};
    if r :| r in was && Target(g, r) == Some(t) {
      assert r in was + iset{s} && r != s;
    }
    forall u | u != t ensures Once(g, was + iset{s}, u) <==> Once(g, was, u) {
      if r :| r in was && Target(g, r) == Some(u) {
        assert r in was + iset{s};
      }
    }
    forall u | u != t ensures Twice(g, was + iset{s}, u) <==> Twice(g, was, u) {
      if r, q :| r in was && q in was && r != q && Target(g, r) == Some(u) == Target(g, q) {
        assert r in was + iset{s} && q in was + iset{s};
      }
    }
  }

  /** One more embedding, of t, is counted. */
  lemma CountedGrows(g: Graph, was: iset<Site>, s: Site, t: TypeId, next: seq<TypeId>, count: map<TypeId, nat>)
    requires Counted(g, was, next, count) && s !in was && Target(g, s) == Some(t)
    ensures var n := (if t in count then count[t] else 0) + 1;
            Counted(g, was + iset{s}, if n == 1 then next + [t] else next, count[t := n])
  {
    Embedded(g, was, s, t);
    var n := (if t in count then count[t] else 0) + 1;
    var wider := if n == 1 then next + [t] else next;
    assert n == 1 <==> t !in next;
    assert forall u :: u in wider <==> u in next || u == t;
  }
}
