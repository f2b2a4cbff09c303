/** The strings the idempotency store and the callback guard use as keys, and the
    request text the fingerprint hashes. */
module StoreKeys {
  import opened Decimal

  const NUL := 0 as char

  /** The bucket's length comes first. */
  function StoreKey(bucket: string, key: string): string {
    Digits(|bucket|) + ":" + bucket + ":" + key
  }

  /** A length-prefixed join. */
  function Joined(parts: seq<string>): string {
    if parts == [] then "" else Digits(|parts[0]|) + ":" + parts[0] + Joined(parts[1..])
  }

  lemma NumberEnds(m: nat, x: string, n: nat, y: string)
    requires Digits(m) + ":" + x == Digits(n) + ":" + y
    ensures m == n && x == y
  {
    var s := Digits(m) + ":" + x;
    assert s[|Digits(m)|] == ':' && s[|Digits(n)|] == ':';
    assert forall k :: 0 <= k < |Digits(m)| ==> s[k] == Digits(m)[k] && Digits(m)[k] in Digits(m);
    assert forall k :: 0 <= k < |Digits(n)| ==> s[k] == Digits(n)[k] && Digits(n)[k] in Digits(n);
    assert |Digits(m)| == |Digits(n)|;
    assert s[..|Digits(m)|] == Digits(m) && (Digits(n) + ":" + y)[..|Digits(n)|] == Digits(n);
    assert s[|Digits(m)| + 1..] == x && (Digits(n) + ":" + y)[|Digits(n)| + 1..] == y;
    ValueOfDigits(m);
    ValueOfDigits(n);
  }

  lemma SameHead(a: string, x: string, b: string, y: string)
    requires a + x == b + y && |a| == |b|
    ensures a == b && x == y
  {
    assert (a + x)[..|a|] == a && (b + y)[..|b|] == b;
    assert (a + x)[|a|..] == x && (b + y)[|b|..] == y;
  }

  /** Two clients' keys meet only if bucket and key are the same. */
  lemma StoreKeyIsInjective(b: string, k: string, c: string, l: string)
    ensures StoreKey(b, k) == StoreKey(c, l) <==> b == c && k == l
  {
    if StoreKey(b, k) == StoreKey(c, l) {
      assert StoreKey(b, k) == Digits(|b|) + ":" + (b + (":" + k));
      assert StoreKey(c, l) == Digits(|c|) + ":" + (c + (":" + l));
      NumberEnds(|b|, b + (":" + k), |c|, c + (":" + l));
      SameHead(b, ":" + k, c, ":" + l);
      SameHead(":", k, ":", l);
    }
  }

  lemma {:induction false} JoinedIsInjective(p: seq<string>, q: seq<string>)
    ensures Joined(p) == Joined(q) <==> p == q
    decreases |p|
  {
    if Joined(p) == Joined(q) && p != [] && q != [] {
      assert Joined(p) == Digits(|p[0]|) + ":" + (p[0] + Joined(p[1..]));
      assert Joined(q) == Digits(|q[0]|) + ":" + (q[0] + Joined(q[1..]));
      NumberEnds(|p[0]|, p[0] + Joined(p[1..]), |q[0]|, q[0] + Joined(q[1..]));
      SameHead(p[0], Joined(p[1..]), q[0], Joined(q[1..]));
      JoinedIsInjective(p[1..], q[1..]);
      assert p == [p[0]] + p[1..] && q == [q[0]] + q[1..];
    }
  }

  // ----- callbacks

  /** `hash` is SHA-256 with its hexadecimal text. */
  ghost predicate Ideal(hash: string -> string) {
    forall x, y :: hash(x) == hash(y) ==> x == y
  }

  method HashTuple(hash: string -> string, parts: seq<string>) returns (r: string)
    ensures r == hash(Joined(parts))
  {
    var written := "";
    for i := 0 to |parts|
      invariant written + Joined(parts[i..]) == Joined(parts)
    {
      assert parts[i..][1..] == parts[i + 1..];
      assert written + (Digits(|parts[i]|) + ":" + parts[i] + Joined(parts[i + 1..]))
          == written + (Digits(|parts[i]|) + ":" + parts[i]) + Joined(parts[i + 1..]);
      written := written + (Digits(|parts[i]|) + ":" + parts[i]);
    }
    assert written == Joined(parts);
    r := hash(written);
  }

  datatype CallbackKeys = CallbackKeys(key: string, fingerprint: string)

  function Bucket(source: string): string {
    "callback:" + source
  }

  function CallbackKeysOf(hash: string -> string, source: string, path: string,
                          identity: seq<string>, content: seq<string>): CallbackKeys {
    CallbackKeys(StoreKey(Bucket(source), hash(Joined(identity))), hash(Joined([Bucket(source), path] + content)))
  }

  /** Two callbacks share a key only when source and identity are the same, and a
      fingerprint only when source, path and content are. */
  lemma CallbacksMeetOnlyAsOne(hash: string -> string, s: string, p: string, i: seq<string>, c: seq<string>,
                               t: string, q: string, j: seq<string>, d: seq<string>)
    requires Ideal(hash)
    ensures CallbackKeysOf(hash, s, p, i, c).key == CallbackKeysOf(hash, t, q, j, d).key <==> s == t && i == j
    ensures CallbackKeysOf(hash, s, p, i, c).fingerprint == CallbackKeysOf(hash, t, q, j, d).fingerprint <==>
              s == t && p == q && c == d
  {
    assert Bucket(s)[9..] == s && Bucket(t)[9..] == t;
    StoreKeyIsInjective(Bucket(s), hash(Joined(i)), Bucket(t), hash(Joined(j)));
    JoinedIsInjective(i, j);
    var x, y := [Bucket(s), p] + c, [Bucket(t), q] + d;
    JoinedIsInjective(x, y);
    if x == y {
      assert x[0] == y[0] && x[1] == y[1] && x[2..] == c && y[2..] == d;
    }
  }

  // ----- the request text

  datatype Request = Request(bucket: string, verb: string, path: string, query: string, body: string)

  /** What the fingerprint hashes. */
  function Text(r: Request): string {
    r.bucket + [NUL] + r.verb + [NUL] + r.path + [NUL] + r.query + [NUL] + r.body
  }

  /** A bucket, a method and a raw query hold no NUL; a decoded path may. */
  predicate Plausible(r: Request) {
    NUL !in r.bucket && NUL !in r.verb && NUL !in r.query
  }

  lemma FirstNul(a: string, x: string, b: string, y: string)
    requires NUL !in a && NUL !in b && a + [NUL] + x == b + [NUL] + y
    ensures a == b && x == y
  {
    var s := a + [NUL] + x;
    assert s[|a|] == NUL && s[|b|] == NUL;
    assert forall k :: 0 <= k < |a| ==> s[k] == a[k];
    assert forall k :: 0 <= k < |b| ==> s[k] == b[k];
    assert |a| == |b|;
    assert a + [NUL] + x == a + ([NUL] + x) && b + [NUL] + y == b + ([NUL] + y);
    SameHead(a, [NUL] + x, b, [NUL] + y);
    SameHead([NUL], x, [NUL], y);
  }

  function Tail(r: Request): string {
    r.path + [NUL] + (r.query + [NUL] + r.body)
  }

  lemma TextSplits(x: Request, y: Request)
    requires Plausible(x) && Plausible(y) && Text(x) == Text(y)
    ensures x.bucket == y.bucket && x.verb == y.verb && Tail(x) == Tail(y)
  {
    assert Text(x) == x.bucket + [NUL] + (x.verb + [NUL] + Tail(x));
    assert Text(y) == y.bucket + [NUL] + (y.verb + [NUL] + Tail(y));
    FirstNul(x.bucket, x.verb + [NUL] + Tail(x), y.bucket, y.verb + [NUL] + Tail(y));
    FirstNul(x.verb, Tail(x), y.verb, Tail(y));
  }

  /** Requests whose paths hold no NUL are told apart. */
  lemma PlainPathsAreToldApart(x: Request, y: Request)
    requires Plausible(x) && Plausible(y) && NUL !in x.path && NUL !in y.path && Text(x) == Text(y)
    ensures x == y
  {
    TextSplits(x, y);
    FirstNul(x.path, x.query + [NUL] + x.body, y.path, y.query + [NUL] + y.body);
    FirstNul(x.query, x.body, y.query, y.body);
  }

  // ----- exactly which requests share their text

  /** What the request line's parser lets into a raw query. */
  predicate ControlFree(s: string) {
    forall k :: 0 <= k < |s| ==> s[k] >= ' ' && s[k] != 0x7f as char
  }

  /** A parsed request: the path was absolute, and its escapes are decoded. */
  predicate Parsed(r: Request) {
    NUL !in r.bucket && NUL !in r.verb && r.path != "" && r.path[0] == '/' && ControlFree(r.query)
  }

  ghost predicate Alone(x: Request) {
    forall y :: Parsed(y) && Text(y) == Text(x) ==> y == x
  }

  predicate AfterNul(p: string, i: int, j: int) {
    0 <= i < j <= |p| && p[i] == NUL && (j < |p| ==> p[j] == NUL) && ControlFree(p[i + 1..j])
  }

  predicate BeforeNul(b: string, i: int, j: int) {
    0 <= i <= j < |b| && b[j] == NUL && (i > 0 ==> b[i - 1] == NUL) && ControlFree(b[i..j])
  }

  /** The path holds a NUL, and what follows up to the next one or the end could be a query. */
  predicate QueryInPath(p: string) {
    exists i, j | 0 <= i < j <= |p| :: AfterNul(p, i, j)
  }

  /** The body holds a NUL, and what is before it, from the previous one or the start on,
      could be a query. */
  predicate QueryInBody(b: string) {
    exists i, j | 0 <= i <= j < |b| :: BeforeNul(b, i, j)
  }

  /** Two NULs of the text after the method, with a possible query in between. */
  predicate Window(t: string, i: int, j: int) {
    0 <= i < j < |t| && t[i] == NUL && t[j] == NUL && ControlFree(t[i + 1..j])
  }

  lemma TailParts(r: Request)
    ensures var t, i, j := Tail(r), |r.path|, |r.path| + 1 + |r.query|;
            && j < |t| && t[..i] == r.path && t[i + 1..j] == r.query && t[j + 1..] == r.body
            && t[i] == NUL && t[j] == NUL
  {
  }

  /** A window at the end of the path is the request's own query. */
  lemma OwnWindow(x: Request, i: int, j: int)
    requires Parsed(x) && Window(Tail(x), i, j) && i == |x.path|
    ensures j == |x.path| + 1 + |x.query|
  {
    TailParts(x);
    assert Window(Tail(x), i, |x.path| + 1 + |x.query|);
  }

  lemma NoNulInside(t: string, i: int, j: int, k: int)
    requires Window(t, i, j) && i < k < |t| && t[k] == NUL
    ensures j <= k
  {
  }

  lemma OtherWindow(x: Request, i: int, j: int)
    requires Parsed(x) && Window(Tail(x), i, j) && i != |x.path|
    ensures QueryInPath(x.path) || QueryInBody(x.body)
  {
    TailParts(x);
    var t, p, k := Tail(x), |x.path|, |x.path| + 1 + |x.query|;
    if i < p {
      NoNulInside(t, i, j, p);
      assert x.path[i + 1..j] == t[i + 1..j];
      assert x.path[i] == t[i] && (j < p ==> x.path[j] == t[j]);
      assert AfterNul(x.path, i, j);
    } else {
      var a, b := i - k, j - k - 1;
      assert x.body[a..b] == t[i + 1..j];
      assert x.body[b] == t[j] && (a > 0 ==> x.body[a - 1] == t[i]);
      assert BeforeNul(x.body, a, b);
    }
  }

  lemma WindowInPath(x: Request) returns (i: int, j: int)
    requires QueryInPath(x.path)
    ensures Window(Tail(x), i, j) && i != |x.path|
  {
    TailParts(x);
    i, j :| 0 <= i < j <= |x.path| && AfterNul(x.path, i, j);
    assert Tail(x)[i + 1..j] == x.path[i + 1..j];
    assert x.path[i] == Tail(x)[i] && (j < |x.path| ==> x.path[j] == Tail(x)[j]);
  }

  lemma WindowInBody(x: Request) returns (i: int, j: int)
    requires QueryInBody(x.body)
    ensures Window(Tail(x), i, j) && i != |x.path|
  {
    TailParts(x);
    var a, b :| 0 <= a <= b < |x.body| && BeforeNul(x.body, a, b);
    var k := |x.path| + 1 + |x.query|;
    i, j := k + a, k + 1 + b;
    assert Tail(x)[i + 1..j] == x.body[a..b];
    assert x.body[b] == Tail(x)[j] && (a > 0 ==> x.body[a - 1] == Tail(x)[i]);
  }

  /** The request a window cuts out of another's text. */
  lemma Twin(x: Request, i: int, j: int) returns (y: Request)
    requires Parsed(x) && Window(Tail(x), i, j) && i != |x.path|
    ensures Parsed(y) && Text(y) == Text(x) && y != x
  {
    var t := Tail(x);
    assert t[0] == '/';
    y := x.(path := t[..i], query := t[i + 1..j], body := t[j + 1..]);
    assert Tail(y) == t;
    assert Text(x) == x.bucket + [NUL] + x.verb + [NUL] + t;
    assert Text(y) == x.bucket + [NUL] + x.verb + [NUL] + t;
    assert |y.path| == i;
  }

  /** No parsed request shares its text with another exactly when neither its path nor
      its body holds, next to a NUL, what could be a query. */
  lemma AloneUnlessAnotherQueryFits(x: Request)
    requires Parsed(x)
    ensures Alone(x) <==> !QueryInPath(x.path) && !QueryInBody(x.body)
  {
    if QueryInPath(x.path) || QueryInBody(x.body) {
      var i, j;
      if QueryInPath(x.path) {
        i, j := WindowInPath(x);
      } else {
        i, j := WindowInBody(x);
      }
      var y := Twin(x, i, j);
    } else {
      forall y | Parsed(y) && Text(y) == Text(x) ensures y == x {
        TextSplits(x, y);
        OnlyOwnWindow(x, y);
      }
    }
  }

  lemma OnlyOwnWindow(x: Request, y: Request)
    requires Parsed(x) && Parsed(y) && Tail(y) == Tail(x) && !QueryInPath(x.path) && !QueryInBody(x.body)
    ensures y.path == x.path && y.query == x.query && y.body == x.body
  {
    TailParts(x);
    TailParts(y);
    var i, j := |y.path|, |y.path| + 1 + |y.query|;
    assert Window(Tail(x), i, j);
    if i != |x.path| {
      OtherWindow(x, i, j);
    } else {
      OwnWindow(x, i, j);
    }
  }

  /** Two such requests, alike in nothing but bucket and method. */
  lemma TwoRequestsOneText()
    ensures exists x, y :: Parsed(x) && Parsed(y) && x != y && Text(x) == Text(y)
              && x.bucket == y.bucket && x.verb == y.verb
              && x.path != y.path && x.query != y.query && x.body != y.body
  {
    var x := Request("b", "POST", "/a" + [NUL] + "q", "", "c");
    var y := Request("b", "POST", "/a", "q", [NUL] + "c");
    assert Text(x) == x.bucket + [NUL] + x.verb + [NUL] + (x.path + [NUL] + x.query + [NUL] + x.body);
    assert Text(y) == y.bucket + [NUL] + y.verb + [NUL] + (y.path + [NUL] + y.query + [NUL] + y.body);
    assert x.path + [NUL] + x.query + [NUL] + x.body == y.path + [NUL] + y.query + [NUL] + y.body;
  }
}
