/** The choice among struct fields that want the same name. */
module Shadowing {
  import opened Options
  import opened JsonTypes
  import opened Lexicographic

  // ----- choosing among candidates

  /** The sort's comparison: by name, shallow before deep, tagged before untagged. */
  predicate Less(a: Field, b: Field) {
    if a.name != b.name then Before(a.name, b.name) else Better(a, b)
  }

  ghost predicate Sorted(s: seq<Field>) {
    forall i, j :: 0 <= i < j < |s| ==> !Less(s[j], s[i])
  }

  method Insert(s: seq<Field>, x: Field) returns (r: seq<Field>)
    requires Sorted(s)
    ensures Sorted(r) && multiset(r) == multiset(s) + multiset{x}
  {
    var i := |s|;
    while i > 0 && Less(x, s[i - 1])
      invariant 0 <= i <= |s|
      invariant forall j :: i <= j < |s| ==> Less(x, s[j])
    {
      i := i - 1;
    }
    InsertSorted(s, i, x);
    InsertAdds(s, i, x);
    r := s[..i] + [x] + s[i..];
  }

  lemma InsertAdds(s: seq<Field>, i: nat, x: Field)
    requires i <= |s|
    ensures multiset(s[..i] + [x] + s[i..]) == multiset(s) + multiset{x}
  {
    assert s == s[..i] + s[i..];
  }

  lemma InsertSorted(s: seq<Field>, i: nat, x: Field)
    requires Sorted(s) && i <= |s|
    requires i > 0 ==> !Less(x, s[i - 1])
    requires forall j :: i <= j < |s| ==> Less(x, s[j])
    ensures Sorted(s[..i] + [x] + s[i..])
  {
    var r := s[..i] + [x] + s[i..];
    forall j | 0 <= j < i ensures !Less(x, s[j]) {
      if Less(x, s[j]) && j < i - 1 {
        NotLessChain(x, s[j], s[i - 1]);
      }
    }
    forall j | i <= j < |s| ensures !Less(s[j], x) {
      LessAsymmetric(x, s[j]);
    }
    forall a, b | 0 <= a < b < |r| ensures !Less(r[b], r[a]) {
      Placed(s, i, x, a);
      Placed(s, i, x, b);
    }
  }

  lemma Placed(s: seq<Field>, i: nat, x: Field, k: nat)
    requires i <= |s| && k <= |s|
    ensures (s[..i] + [x] + s[i..])[k] == if k < i then s[k] else if k == i then x else s[k - 1]
  {
  }

  lemma LessAsymmetric(a: Field, b: Field)
    requires Less(a, b)
    ensures !Less(b, a)
  {
    if a.name != b.name && Less(b, a) {
      BeforeTransitive(a.name, b.name, a.name);
      BeforeIrreflexive(a.name);
    }
  }

  lemma NotLessChain(x: Field, a: Field, b: Field)
    requires Less(x, a) && !Less(b, a)
    ensures Less(x, b)
  {
    BeforeTotal(b.name, a.name);
    if x.name != a.name && a.name != b.name {
      BeforeTransitive(x.name, a.name, b.name);
      if x.name == b.name {
        BeforeIrreflexive(x.name);
      }
    }
  }

  /** The library sort is not stable: all a caller may use is that the result is a
      sorted arrangement of the input. */
  method Sort(found: seq<Field>) returns (sorted: seq<Field>)
    ensures Sorted(sorted) && multiset(sorted) == multiset(found)
  {
    sorted := [];
    for i := 0 to |found|
      invariant Sorted(sorted) && multiset(sorted) == multiset(found[..i])
    {
      assert found[..i + 1] == found[..i] + [found[i]];
      sorted := Insert(sorted, found[i]);
    }
    assert found[..|found|] == found;
  }

  /** Entry k beats every other entry for its name. */
  ghost predicate WinsAt(s: seq<Field>, k: nat)
    requires k < |s|
  {
    forall j :: 0 <= j < |s| && j != k ==> Loses(s[k], s[j])
  }

  ghost predicate Wins(s: seq<Field>, f: Field) {
    exists k: nat :: k < |s| && s[k] == f && WinsAt(s, k)
  }

  /** The first of its name, and not tied with the second. */
  predicate LeadsGroup(s: seq<Field>, k: nat)
    requires k < |s|
  {
    && (k == 0 || s[k - 1].name != s[k].name)
    && (k + 1 == |s| || s[k + 1].name != s[k].name || s[k + 1].depth != s[k].depth || s[k + 1].tagged != s[k].tagged)
  }

  lemma SameNamesTogether(s: seq<Field>, i: nat, j: nat, k: nat)
    requires Sorted(s) && i <= j <= k < |s| && s[i].name == s[k].name
    ensures s[j].name == s[i].name
  {
    if i < j < k && s[j].name != s[i].name {
      assert !Less(s[j], s[i]) && !Less(s[k], s[j]);
      BeforeTotal(s[i].name, s[j].name);
    }
  }

  lemma SortedWinner(s: seq<Field>, k: nat)
    requires Sorted(s) && k < |s|
    ensures LeadsGroup(s, k) <==> WinsAt(s, k)
  {
    if LeadsGroup(s, k) {
      forall j | 0 <= j < |s| && j != k ensures Loses(s[k], s[j]) {
        if s[j].name == s[k].name {
          if j < k {
            SameNamesTogether(s, j, k - 1, k);
            assert false;
          } else {
            SameNamesTogether(s, k, k + 1, j);
            assert !Less(s[k + 1], s[k]);
            assert j == k + 1 || !Less(s[j], s[k + 1]);
          }
        }
      }
    }
    if WinsAt(s, k) {
      assert k > 0 ==> Loses(s[k], s[k - 1]) && !Less(s[k], s[k - 1]);
      if k + 1 < |s| && s[k + 1].name == s[k].name {
        assert Loses(s[k], s[k + 1]);
      }
    }
  }

  lemma OnlyOnce<T>(s: seq<T>, k: nat)
    requires k < |s|
    ensures multiset(s)[s[k]] == 1 <==> forall j :: 0 <= j < |s| && j != k ==> s[j] != s[k]
  {
    var x, a, b := s[k], s[..k], s[k + 1..];
    assert s == a + [x] + b;
    assert multiset(s)[x] == multiset(a)[x] + 1 + multiset(b)[x];
    if multiset(s)[x] == 1 {
      forall j | 0 <= j < |s| && j != k ensures s[j] != x {
        if j < k {
          assert a[j] in multiset(a);
        } else {
          assert b[j - k - 1] in multiset(b);
        }
      }
    } else if x in a {
      var j :| 0 <= j < |a| && a[j] == x;
      assert s[j] == x;
    } else {
      assert x in multiset(b) && x in b;
      var j :| 0 <= j < |b| && b[j] == x;
      assert s[k + 1 + j] == x;
    }
  }

  /** Winning does not depend on the order of the entries. */
  lemma WinsInAnyOrder(s: seq<Field>, t: seq<Field>, f: Field)
    requires multiset(s) == multiset(t) && Wins(s, f)
    ensures Wins(t, f)
  {
    var k: nat :| k < |s| && s[k] == f && WinsAt(s, k);
    assert f in multiset(t) && f in t;
    var m: nat :| m < |t| && t[m] == f;
    forall j | 0 <= j < |s| && j != k ensures s[j] != s[k] {
      assert Loses(s[k], s[j]);
    }
    OnlyOnce(s, k);
    OnlyOnce(t, m);
    forall j | 0 <= j < |t| && j != m ensures Loses(t[m], t[j]) {
      assert t[j] in multiset(s) && t[j] in s;
      var i :| 0 <= i < |s| && s[i] == t[j];
      assert i != k;
    }
    assert WinsAt(t, m);
  }

  ghost predicate NamesAscend(s: seq<Field>) {
    forall i, j :: 0 <= i < j < |s| ==> Before(s[i].name, s[j].name)
  }

  lemma NamesGrow(s: seq<Field>, i: nat, j: nat)
    requires Sorted(s) && i < j < |s| && s[i].name != s[j].name
    ensures Before(s[i].name, s[j].name)
  {
    assert !Less(s[j], s[i]);
    BeforeTotal(s[i].name, s[j].name);
  }

  ghost predicate OneName(s: seq<Field>) {
    forall i, j :: 0 <= i < |s| && 0 <= j < |s| ==> s[i].name == s[j].name
  }

  lemma GroupWinner(s: seq<Field>, f: Field)
    requires Sorted(s) && OneName(s) && s != []
    ensures Wins(s, f) <==> LeadsGroup(s, 0) && s[0] == f
  {
    if Wins(s, f) {
      var k: nat :| k < |s| && s[k] == f && WinsAt(s, k);
      SortedWinner(s, k);
    }
    if LeadsGroup(s, 0) {
      SortedWinner(s, 0);
    }
  }

  /** Looking at the first two of a sorted group of one name finds the field that
      beats every other one of the group, and finds none exactly if none does. */
  method DominantField(candidates: seq<Field>) returns (winner: Option<Field>)
    requires candidates != [] && Sorted(candidates) && OneName(candidates)
    ensures forall f :: winner == Some(f) <==> Wins(candidates, f)
  {
    forall f ensures Wins(candidates, f) <==> LeadsGroup(candidates, 0) && candidates[0] == f {
      GroupWinner(candidates, f);
    }
    if |candidates| > 1 && candidates[0].depth == candidates[1].depth && candidates[0].tagged == candidates[1].tagged {
      return None;
    }
    return Some(candidates[0]);
  }

  /** The winners of the groups before index i, in order. */
  ghost predicate Chosen(s: seq<Field>, i: nat, result: seq<Field>)
    requires i <= |s|
  {
    && (forall f :: f in result <==> LeadsBelow(s, i, f))
    && NamesAscend(result)
  }

  ghost predicate LeadsBelow(s: seq<Field>, i: nat, f: Field)
    requires i <= |s|
  {
    exists k: nat :: k < i && LeadsGroup(s, k) && s[k] == f
  }

  /** Only the first of a group can lead it. */
  lemma GroupLeads(s: seq<Field>, i: nat, j: nat, f: Field)
    requires i < j <= |s|
    requires forall k :: i <= k < j ==> s[k].name == s[i].name
    ensures LeadsBelow(s, j, f) <==> LeadsBelow(s, i, f) || (LeadsGroup(s, i) && s[i] == f)
  {
    if LeadsBelow(s, j, f) {
      var k: nat :| k < j && LeadsGroup(s, k) && s[k] == f;
      assert k < i ==> LeadsBelow(s, i, f);
    }
    if LeadsBelow(s, i, f) {
      var k: nat :| k < i && LeadsGroup(s, k) && s[k] == f;
    }
  }

  /** The names of earlier groups come before this one's. */
  lemma EarlierName(s: seq<Field>, i: nat, k: nat)
    requires Sorted(s) && k < i < |s| && s[i - 1].name != s[i].name
    ensures Before(s[k].name, s[i].name)
  {
    if s[k].name == s[i].name {
      SameNamesTogether(s, k, i - 1, i);
    }
    NamesGrow(s, k, i);
  }

  lemma AddGroup(s: seq<Field>, i: nat, j: nat, result: seq<Field>, wider: seq<Field>)
    requires Sorted(s) && i < j <= |s| && Chosen(s, i, result)
    requires i > 0 ==> s[i - 1].name != s[i].name
    requires forall k :: i <= k < j ==> s[k].name == s[i].name
    requires wider == if LeadsGroup(s, i) then result + [s[i]] else result
    ensures Chosen(s, j, wider)
  {
    forall f ensures f in wider <==> LeadsBelow(s, j, f) {
      GroupLeads(s, i, j, f);
      assert f in result <==> LeadsBelow(s, i, f);
    }
    forall k | 0 <= k < |result| ensures Before(result[k].name, s[i].name) {
      assert result[k] in result && LeadsBelow(s, i, result[k]);
      var m: nat :| m < i && LeadsGroup(s, m) && s[m] == result[k];
      EarlierName(s, i, m);
    }
  }

  method Unshadowed(found: seq<Field>) returns (result: seq<Field>)
    ensures forall f :: f in result <==> Wins(found, f)
    ensures NamesAscend(result)
  {
    var sorted := Sort(found);
    result := [];
    var i := 0;
    while i < |sorted|
      invariant 0 <= i <= |sorted|
      invariant 0 < i < |sorted| ==> sorted[i - 1].name != sorted[i].name
      invariant Chosen(sorted, i, result)
    {
      var j := i + 1;
      while j < |sorted| && sorted[j].name == sorted[i].name
        invariant i < j <= |sorted|
        invariant forall k :: i <= k < j ==> sorted[k].name == sorted[i].name
      {
        j := j + 1;
      }
      var winner := DominantField(sorted[i..j]);
      GroupWinner(sorted[i..j], sorted[i]);
      assert LeadsGroup(sorted, i) <==> LeadsGroup(sorted[i..j], 0);
      if winner.Some? {
        GroupWinner(sorted[i..j], winner.value);
      }
      ghost var before := result;
      if winner.Some? {
        result := result + [winner.value];
      }
      AddGroup(sorted, i, j, before, result);
      i := j;
    }
    forall f ensures f in result <==> Wins(found, f) {
      assert f in result <==> LeadsBelow(sorted, |sorted|, f);
      SortedWinners(sorted, f);
      if Wins(sorted, f) {
        WinsInAnyOrder(sorted, found, f);
      }
      if Wins(found, f) {
        WinsInAnyOrder(found, sorted, f);
      }
    }
  }

  lemma SortedWinners(s: seq<Field>, f: Field)
    requires Sorted(s)
    ensures Wins(s, f) <==> LeadsBelow(s, |s|, f)
  {
    if Wins(s, f) {
      var k: nat :| k < |s| && s[k] == f && WinsAt(s, k);
      SortedWinner(s, k);
    }
    if k: nat :| k < |s| && LeadsGroup(s, k) && s[k] == f {
      SortedWinner(s, k);
    }
  }
}
