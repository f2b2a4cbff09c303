/** Struct types, their json tags and the embedding graph they span, with the rule
    that says which field a JSON name belongs to. */
module JsonTypes {
  import opened Options

  type TypeId = nat

  /** One struct field. `typ` is its declared type; `under` the struct it or its
      pointer stands for, None when that is not a struct. */
  datatype FieldDecl = FieldDecl(goName: string, anonymous: bool, exported: bool, typ: int, under: Option<TypeId>, tag: string)

  /** `letter` says which characters are letters or digits. */
  datatype Graph = Graph(types: map<TypeId, seq<FieldDecl>>, letter: char -> bool)

  /** Every struct a field stands for is a type of the graph. */
  ghost predicate Closed(g: Graph) {
    forall t, i :: t in g.types && 0 <= i < |g.types[t]| && g.types[t][i].under.Some? ==>
      g.types[t][i].under.value in g.types
  }

  /** A field by the type that declares it and its place there. */
  datatype Site = Site(owner: TypeId, index: nat)

  predicate IsSite(g: Graph, s: Site) {
    s.owner in g.types && s.index < |g.types[s.owner]|
  }

  function DeclAt(g: Graph, s: Site): FieldDecl
    requires IsSite(g, s)
  {
    g.types[s.owner][s.index]
  }

  // ----- json tags

  /** What stands before the first comma, and what after it. */
  function Cut(s: string): (string, string) {
    if s == "" then ("", "")
    else if s[0] == ',' then ("", s[1..])
    else ([s[0]] + Cut(s[1..]).0, Cut(s[1..]).1)
  }

  const PUNCTUATION := "!#$%&()*+-./:;<=>?@[]^_{|}~ "

  predicate ValidTagName(g: Graph, s: string) {
    s != "" && forall c :: c in s ==> c in PUNCTUATION || g.letter(c)
  }

  /** The name the tag gives, "" when it gives none. */
  function TagName(g: Graph, f: FieldDecl): string {
    var name := Cut(f.tag).0;
    if ValidTagName(g, name) then name else ""
  }

  function CutShorter(s: string): (rest: string)
    requires s != ""
    ensures |rest| < |s|
  {
    CutRest(s);
    Cut(s).1
  }

  lemma {:induction false} CutRest(s: string)
    requires s != ""
    ensures |Cut(s).1| < |s|
  {
    if s[0] != ',' && s[1..] != "" {
      CutRest(s[1..]);
    }
  }

  /** The comma-separated parts. */
  function Parts(options: string): seq<string>
    decreases |options|
  {
    if options == "" then [] else
      var rest := CutShorter(options);
      [Cut(options).0] + Parts(rest)
  }

  method HasOption(options: string, name: string) returns (found: bool)
    ensures found <==> name in Parts(options)
  {
    var rest := options;
    while rest != ""
      invariant name in Parts(options) <==> name in Parts(rest)
      decreases |rest|
    {
      var part := Cut(rest).0;
      if part == name {
        return true;
      }
      rest := CutShorter(rest);
    }
    return false;
  }

  predicate Optional(f: FieldDecl) {
    var options := Parts(Cut(f.tag).1);
    "omitempty" in options || "omitzero" in options
  }

  // ----- what a field contributes

  predicate Visible(f: FieldDecl) {
    if f.anonymous then f.exported || f.under.Some? else f.exported
  }

  predicate Skipped(f: FieldDecl) {
    !Visible(f) || f.tag == "-"
  }

  /** Written under its own name. */
  predicate Plain(g: Graph, f: FieldDecl) {
    !Skipped(f) && (TagName(g, f) != "" || !f.anonymous || f.under.None?)
  }

  /** Flattened: its struct's fields are written instead. */
  predicate Embeds(g: Graph, f: FieldDecl) {
    !Skipped(f) && !Plain(g, f)
  }

  /** The struct an embedding site leads to. */
  function Target(g: Graph, s: Site): Option<TypeId> {
    if IsSite(g, s) && Embeds(g, DeclAt(g, s)) then DeclAt(g, s).under else None
  }

  datatype Field = Field(name: string, typ: int, depth: nat, tagged: bool, optional: bool)

  function FieldOf(g: Graph, f: FieldDecl, depth: nat): Field {
    var tag := TagName(g, f);
    Field(if tag != "" then tag else f.goName, f.typ, depth, tag != "", Optional(f))
  }

  // ----- depths

  /** A way from the root by embeddings: p[0] is the root. */
  ghost predicate IsChain(g: Graph, root: TypeId, p: seq<TypeId>) {
    && p != [] && p[0] == root
    && forall k :: 0 <= k < |p| - 1 ==> LeadsTo(g, p[k], p[k + 1])
  }

  ghost predicate LeadsTo(g: Graph, u: TypeId, t: TypeId) {
    exists i: nat :: Target(g, Site(u, i)) == Some(t)
  }

  ghost predicate ChainTo(g: Graph, root: TypeId, t: TypeId, p: seq<TypeId>) {
    IsChain(g, root, p) && p[|p| - 1] == t
  }

  ghost predicate Within(g: Graph, root: TypeId, t: TypeId, d: int) {
    exists p :: ChainTo(g, root, t, p) && |p| <= d + 1
  }

  /** `d` is the shortest embedding depth of `t`. */
  ghost predicate At(g: Graph, root: TypeId, t: TypeId, d: int) {
    Within(g, root, t, d) && !Within(g, root, t, d - 1)
  }

  /** Two embeddings one level up lead to `t`, so its fields count twice. */
  ghost predicate Repeated(g: Graph, root: TypeId, t: TypeId, d: int) {
    exists a, b :: a != b && Feeds(g, root, a, t, d) && Feeds(g, root, b, t, d)
  }

  ghost predicate Feeds(g: Graph, root: TypeId, s: Site, t: TypeId, d: int) {
    Target(g, s) == Some(t) && At(g, root, s.owner, d - 1)
  }

  // ----- the dominance rule

  /** Shallower, or as shallow and the only one of the two with a tag. */
  predicate Better(a: Field, b: Field) {
    a.depth < b.depth || (a.depth == b.depth && a.tagged && !b.tagged)
  }

  predicate Loses(winner: Field, other: Field) {
    winner.name == other.name ==> Better(winner, other)
  }

  /** `s` is a plain field of a type at depth `d`. */
  ghost predicate Candidate(g: Graph, root: TypeId, s: Site, d: nat) {
    IsSite(g, s) && Plain(g, DeclAt(g, s)) && At(g, root, s.owner, d)
  }

  /** `s` beats every other candidate for its name, and is not there twice itself. */
  ghost predicate Dominates(g: Graph, root: TypeId, s: Site, d: nat) {
    && Candidate(g, root, s, d) && !Repeated(g, root, s.owner, d)
    && forall r, e :: Candidate(g, root, r, e) && r != s ==> Loses(FieldOf(g, DeclAt(g, s), d), FieldOf(g, DeclAt(g, r), e))
  }

  /** The field encoding/json writes. */
  ghost predicate Written(g: Graph, root: TypeId, f: Field) {
    exists s, d :: Dominates(g, root, s, d) && f == FieldOf(g, DeclAt(g, s), d)
  }

  // ----- levels follow one another

  lemma AtIsUnique(g: Graph, root: TypeId, t: TypeId, d: int, e: int)
    requires At(g, root, t, d) && At(g, root, t, e)
    ensures d == e
  {
  }

  lemma ChainPrefix(g: Graph, root: TypeId, p: seq<TypeId>, n: nat)
    requires IsChain(g, root, p) && 0 < n <= |p|
    ensures IsChain(g, root, p[..n])
  {
    forall k | 0 <= k < n - 1 ensures LeadsTo(g, p[..n][k], p[..n][k + 1]) {
      assert LeadsTo(g, p[k], p[k + 1]);
    }
  }

  lemma Longer(g: Graph, root: TypeId, u: TypeId, t: TypeId, d: int)
    requires Within(g, root, u, d) && LeadsTo(g, u, t)
    ensures Within(g, root, t, d + 1)
  {
    var p :| ChainTo(g, root, u, p) && |p| <= d + 1;
    var q := p + [t];
    forall k | 0 <= k < |q| - 1 ensures LeadsTo(g, q[k], q[k + 1]) {
      if k < |p| - 1 {
        assert LeadsTo(g, p[k], p[k + 1]);
      }
    }
    assert ChainTo(g, root, t, q);
  }

  lemma Wider(g: Graph, root: TypeId, t: TypeId, d: int, e: int)
    requires Within(g, root, t, d) && d <= e
    ensures Within(g, root, t, e)
  {
    var p :| ChainTo(g, root, t, p) && |p| <= d + 1;
    assert |p| <= e + 1;
  }

  /** Below the root, a type first appears one level under a type it is embedded in. */
  lemma Parent(g: Graph, root: TypeId, t: TypeId, d: int) returns (u: TypeId)
    requires At(g, root, t, d) && d > 0
    ensures At(g, root, u, d - 1) && LeadsTo(g, u, t)
  {
    var p :| ChainTo(g, root, t, p) && |p| <= d + 1;
    assert |p| > d;
    u := p[|p| - 2];
    var q := p[..|p| - 1];
    ChainPrefix(g, root, p, |p| - 1);
    assert LeadsTo(g, p[|p| - 2], p[|p| - 2 + 1]);
    if Within(g, root, u, d - 2) {
      Longer(g, root, u, t, d - 2);
    }
  }

  lemma RootLevel(g: Graph, root: TypeId, t: TypeId)
    ensures At(g, root, t, 0) <==> t == root
    ensures !Within(g, root, t, -1)
  {
    assert ChainTo(g, root, root, [root]);
    if Within(g, root, t, 0) {
      var p :| ChainTo(g, root, t, p) && |p| <= 1;
      assert p == [root];
    }
  }

  /** The types first reached at depth `d` are the ones a level above embeds and no
      earlier level reaches. */
  lemma NextLevel(g: Graph, root: TypeId, t: TypeId, d: int)
    requires d > 0
    ensures At(g, root, t, d) <==> !Within(g, root, t, d - 1) && exists u :: At(g, root, u, d - 1) && LeadsTo(g, u, t)
  {
    if At(g, root, t, d) {
      var u := Parent(g, root, t, d);
    }
    if u :| At(g, root, u, d - 1) && LeadsTo(g, u, t) {
      Longer(g, root, u, t, d - 1);
    }
  }

  /** Once a level is empty so are all below it. */
  lemma {:induction false} LevelsEnd(g: Graph, root: TypeId, d: nat, t: TypeId, p: seq<TypeId>)
    requires forall u :: !At(g, root, u, d)
    requires ChainTo(g, root, t, p)
    ensures Within(g, root, t, d - 1)
    decreases |p|
  {
    if |p| <= d {
      assert |p| <= d - 1 + 1;
    } else if |p| == 1 {
      RootLevel(g, root, t);
    } else {
      var u, q := p[|p| - 2], p[..|p| - 1];
      ChainPrefix(g, root, p, |p| - 1);
      assert LeadsTo(g, p[|p| - 2], p[|p| - 2 + 1]);
      LevelsEnd(g, root, d, u, q);
      Longer(g, root, u, t, d - 1);
      assert !At(g, root, t, d);
    }
  }
}
