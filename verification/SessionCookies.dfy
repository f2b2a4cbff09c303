/** The sealed session cookie and the sealed short-lived value: what opens, under
    which keys, and as what. Strings are byte strings; times are nanoseconds. */
module SessionCookies {
  import opened Options
  import opened Decimal
  import Base64Url

  type Bytes = seq<Base64Url.Byte>
  type Key = seq<int>

  const SECOND := 1_000_000_000
  const MILLI := 1_000_000

  const PURPOSE_SESSION := "s1"
  const PURPOSE_VALUE := "v1"

  /** `mac` is HMAC-SHA-256. */
  datatype Signer = Signer(secret: Key, retired: seq<Key>, mac: (Key, string) -> Bytes)

  /** The idealisation: no two keys or texts share a MAC. */
  ghost predicate Ideal(mac: (Key, string) -> Bytes) {
    forall k, m, l, n :: mac(k, m) == mac(l, n) ==> k == l && m == n
  }

  datatype Opened = Opened(id: string, expiry: int, issued: Option<int>)

  // ----- cutting

  /** At the first dot. */
  function Cut(s: string): Option<(string, string)> {
    if s == "" then None
    else if s[0] == '.' then Some(("", s[1..]))
    else
      match Cut(s[1..])
      case None => None
      case Some((a, b)) => Some(([s[0]] + a, b))
  }

  /** At the last dot. */
  function CutLast(s: string): Option<(string, string)> {
    if s == "" then None
    else
      var last := s[|s| - 1];
      if last == '.' then Some((s[..|s| - 1], ""))
      else
        match CutLast(s[..|s| - 1])
        case None => None
        case Some((a, b)) => Some((a, b + [last]))
  }

  lemma {:induction false} CutJoins(a: string, b: string)
    requires '.' !in a
    ensures Cut(a + "." + b) == Some((a, b))
  {
    var s := a + "." + b;
    if a == "" {
      assert s[1..] == b;
    } else {
      assert s[1..] == a[1..] + "." + b && a == [a[0]] + a[1..];
      assert forall c :: c in a[1..] ==> c in a;
      CutJoins(a[1..], b);
    }
  }

  lemma {:induction false} CutLastJoins(a: string, b: string)
    requires '.' !in b
    ensures CutLast(a + "." + b) == Some((a, b))
  {
    var s := a + "." + b;
    if b == "" {
      assert s[..|s| - 1] == a && s[|s| - 1] == '.';
    } else {
      var c := b[..|b| - 1];
      assert s[..|s| - 1] == a + "." + c && s[|s| - 1] == b[|b| - 1] && b == c + [b[|b| - 1]];
      assert forall x :: x in c ==> x in b;
      CutLastJoins(a, c);
    }
  }

  lemma {:induction false} CutLastIsSplit(s: string)
    ensures match CutLast(s)
            case None => '.' !in s
            case Some((a, b)) => s == a + "." + b && '.' !in b
  {
    if s != "" && s[|s| - 1] != '.' {
      CutLastIsSplit(s[..|s| - 1]);
      assert s == s[..|s| - 1] + [s[|s| - 1]];
    }
  }

  // ----- sealing and opening

  function MacText(purpose: string, payload: string): string {
    purpose + [0 as char] + payload
  }

  /** The current key signs, every key verifies. */
  predicate Verifies(s: Signer, purpose: string, payload: string, mac: Bytes) {
    mac == s.mac(s.secret, MacText(purpose, payload))
    || exists k :: k in s.retired && mac == s.mac(k, MacText(purpose, payload))
  }

  predicate Accepts(s: Signer, key: Key) {
    key == s.secret || key in s.retired
  }

  function Sealed(s: Signer, purpose: string, payload: string): string {
    payload + "." + Base64Url.Encode(s.mac(s.secret, MacText(purpose, payload)))
  }

  function SessionPayload(id: string, expiry: int, issued: int): string {
    id + "." + FormatInt(expiry / SECOND) + "." + FormatInt(issued / MILLI)
  }

  function Seal(s: Signer, id: string, expiry: int, issued: int): string {
    Sealed(s, PURPOSE_SESSION, SessionPayload(id, expiry, issued))
  }

  /** What the session's payload says; a payload without an issue is an older cookie's. */
  function ReadSession(payload: string): Option<Opened> {
    match Cut(payload)
    case None => None
    case Some((id, stamps)) =>
      if id == "" then None
      else
        var cut := Cut(stamps);
        var stamp := if cut.Some? then cut.value.0 else stamps;
        match ParseInt(stamp)
        case None => None
        case Some(seconds) =>
          if cut.None? then Some(Opened(id, seconds * SECOND, None))
          else
            match ParseInt(cut.value.1)
            case None => None
            case Some(millis) => Some(Opened(id, seconds * SECOND, Some(millis * MILLI)))
  }

  /** The payload some key of the signer sealed for the purpose. */
  function Payload(s: Signer, purpose: string, value: string): Option<string> {
    match CutLast(value)
    case None => None
    case Some((payload, signature)) =>
      var raw := Base64Url.Decode(signature);
      if raw.None? || !Verifies(s, purpose, payload, raw.value) then None else Some(payload)
  }

  function Open(s: Signer, value: string): Option<Opened> {
    match Payload(s, PURPOSE_SESSION, value)
    case None => None
    case Some(payload) => ReadSession(payload)
  }

  function ValuePayload(value: Bytes, expiry: int): string {
    Base64Url.Encode(value) + "." + FormatInt(expiry / SECOND)
  }

  function SealValue(s: Signer, value: Bytes, now: int, ttl: int): string {
    Sealed(s, PURPOSE_VALUE, ValuePayload(value, now + ttl))
  }

  function OpenValue(s: Signer, sealed: string, now: int): Option<Bytes> {
    match Payload(s, PURPOSE_VALUE, sealed)
    case None => None
    case Some(payload) =>
      match Cut(payload)
      case None => None
      case Some((encoded, stamp)) =>
        var seconds := ParseInt(stamp);
        if seconds.None? || now >= seconds.value * SECOND then None
        else
          match Base64Url.Decode(encoded)
          case None => None
          case Some(value) => Some(value)
  }

  // ----- which payload a sealed text gives back

  /** The separator keeps the purposes' texts apart, whatever the payload. */
  lemma MacTextIsInjective(p: string, x: string, q: string, y: string)
    requires 0 as char !in p && 0 as char !in q
    ensures MacText(p, x) == MacText(q, y) ==> p == q && x == y
  {
    if MacText(p, x) == MacText(q, y) {
      var m := MacText(p, x);
      assert m[|p|] == 0 as char && m[|q|] == 0 as char;
      assert forall k :: 0 <= k < |p| ==> m[k] == p[k];
      assert forall k :: 0 <= k < |q| ==> MacText(q, y)[k] == q[k];
      assert m[..|p|] == p && MacText(q, y)[..|q|] == q;
      assert m[|p| + 1..] == x && MacText(q, y)[|q| + 1..] == y;
    }
  }

  predicate IsPurpose(p: string) {
    p == PURPOSE_SESSION || p == PURPOSE_VALUE
  }

  /** A sealed text opens exactly for its own purpose and under a signer that still
      accepts the key it was sealed with. */
  lemma SealedOpens(s: Signer, t: Signer, p: string, q: string, payload: string)
    requires Ideal(s.mac) && t.mac == s.mac && IsPurpose(p) && IsPurpose(q)
    ensures Payload(t, q, Sealed(s, p, payload)) == if p == q && Accepts(t, s.secret) then Some(payload) else None
  {
    var mac := s.mac(s.secret, MacText(p, payload));
    Base64Url.NoDot(mac);
    Base64Url.DecodeUndoesEncode(mac);
    CutLastJoins(payload, Base64Url.Encode(mac));
    MacTextIsInjective(p, payload, q, payload);
    assert Verifies(t, q, payload, mac) <==> p == q && Accepts(t, s.secret) by {
      if Verifies(t, q, payload, mac) {
        var k :| Accepts(t, k) && mac == t.mac(k, MacText(q, payload));
        assert k == s.secret && MacText(p, payload) == MacText(q, payload);
      }
    }
  }

  /** A signature vouches for one payload: put under another, it opens as nothing. */
  lemma EditedTextIsRefused(s: Signer, t: Signer, p: string, q: string, payload: string, other: string)
    requires Ideal(s.mac) && t.mac == s.mac && IsPurpose(p) && IsPurpose(q)
    ensures Payload(t, q, other + "." + Base64Url.Encode(s.mac(s.secret, MacText(p, payload)))) ==
            if p == q && other == payload && Accepts(t, s.secret) then Some(payload) else None
  {
    var mac := s.mac(s.secret, MacText(p, payload));
    if other == payload {
      SealedOpens(s, t, p, q, payload);
    } else {
      Base64Url.NoDot(mac);
      Base64Url.DecodeUndoesEncode(mac);
      CutLastJoins(other, Base64Url.Encode(mac));
      MacTextIsInjective(p, payload, q, other);
      forall k | Accepts(t, k) ensures mac != t.mac(k, MacText(q, other)) {
      }
    }
  }

  /** Whatever opens is a payload with a MAC some accepted key made for the purpose. */
  lemma OnlySealedTextsOpen(t: Signer, q: string, value: string)
    requires Payload(t, q, value).Some?
    ensures var payload := Payload(t, q, value).value;
            exists k, signature :: Accepts(t, k) && value == payload + "." + signature
              && Base64Url.Decode(signature) == Some(t.mac(k, MacText(q, payload)))
  {
    CutLastIsSplit(value);
    var (payload, signature) := CutLast(value).value;
    var raw := Base64Url.Decode(signature).value;
    var k :| Accepts(t, k) && raw == t.mac(k, MacText(q, payload));
    assert value == payload + "." + signature;
  }

  // ----- the round trips

  predicate InRange(expiry: int, issued: int) {
    Int64(expiry / SECOND) && Int64(issued / MILLI)
  }

  lemma StampsRead(id: string, expiry: int, issued: int)
    requires id != "" && '.' !in id && InRange(expiry, issued)
    ensures ReadSession(SessionPayload(id, expiry, issued)) ==
            Some(Opened(id, expiry / SECOND * SECOND, Some(issued / MILLI * MILLI)))
  {
    var stamp, millis := FormatInt(expiry / SECOND), FormatInt(issued / MILLI);
    NoDot(expiry / SECOND);
    assert SessionPayload(id, expiry, issued) == id + "." + (stamp + "." + millis);
    CutJoins(id, stamp + "." + millis);
    CutJoins(stamp, millis);
    ParseUndoesFormat(expiry / SECOND);
    ParseUndoesFormat(issued / MILLI);
  }

  /** An identifier with a dot in it pushes the stamps out of their places. */
  lemma DottedIdIsUnreadable(id: string, expiry: int, issued: int)
    requires id == "" || '.' in id
    ensures ReadSession(SessionPayload(id, expiry, issued)) == None
  {
    var stamp, millis := FormatInt(expiry / SECOND), FormatInt(issued / MILLI);
    assert SessionPayload(id, expiry, issued) == id + "." + (stamp + "." + millis);
    DottedIdReadsNothing(id, stamp, millis);
  }

  lemma DottedIdReadsNothing(id: string, stamp: string, millis: string)
    requires id == "" || '.' in id
    ensures ReadSession(id + "." + (stamp + "." + millis)) == None
  {
    var tail := stamp + "." + millis;
    if id == "" {
      CutJoins(id, tail);
    } else {
      CutIsSplit(id);
      var (a, b) := Cut(id).value;
      var stamps := b + "." + tail;
      assert id + "." + tail == a + "." + stamps;
      CutJoins(a, stamps);
      CutIsSplit(stamps);
      var (c, d) := Cut(stamps).value;
      TwoDotsRemain(b, stamp, millis, c, d);
      DotIsNoNumber(d);
    }
  }

  lemma {:induction false} CutIsSplit(s: string)
    ensures match Cut(s)
            case None => '.' !in s
            case Some((a, b)) => s == a + "." + b && '.' !in a
  {
    if s != "" && s[0] != '.' {
      CutIsSplit(s[1..]);
      assert s == [s[0]] + s[1..];
    }
  }

  lemma TwoDotsRemain(b: string, stamp: string, millis: string, c: string, d: string)
    requires b + "." + (stamp + "." + millis) == c + "." + d && '.' !in c
    ensures '.' in d
  {
    var s := b + "." + (stamp + "." + millis);
    assert s[|b|] == '.' && s[|b| + 1 + |stamp|] == '.';
    assert forall k :: 0 <= k < |c| ==> s[k] == c[k];
    assert |c| <= |b|;
    assert d == s[|c| + 1..];
    assert d[|b| + 1 + |stamp| - |c| - 1] == '.';
  }

  /** A session's cookie opens as it was issued, its expiry to the second and its
      issue to the millisecond, under every signer that accepts its key: the same
      one, or one its key was retired to. It opens as nothing under any other, and
      an empty or dotted identifier makes a cookie nobody can open. */
  lemma SessionRoundTrip(s: Signer, t: Signer, id: string, expiry: int, issued: int)
    requires Ideal(s.mac) && t.mac == s.mac && InRange(expiry, issued)
    ensures Open(t, Seal(s, id, expiry, issued)) ==
            if id != "" && '.' !in id && Accepts(t, s.secret) then
              Some(Opened(id, expiry / SECOND * SECOND, Some(issued / MILLI * MILLI)))
            else None
  {
    SealedOpens(s, t, PURPOSE_SESSION, PURPOSE_SESSION, SessionPayload(id, expiry, issued));
    if id != "" && '.' !in id {
      StampsRead(id, expiry, issued);
    } else {
      DottedIdIsUnreadable(id, expiry, issued);
    }
  }

  /** Any value comes back, bytes and all, until its expiry's second begins. */
  lemma ValueRoundTrip(s: Signer, t: Signer, value: Bytes, sealedAt: int, ttl: int, now: int)
    requires Ideal(s.mac) && t.mac == s.mac && Int64((sealedAt + ttl) / SECOND)
    ensures OpenValue(t, SealValue(s, value, sealedAt, ttl), now) ==
            if Accepts(t, s.secret) && now < (sealedAt + ttl) / SECOND * SECOND then Some(value) else None
  {
    var seconds := (sealedAt + ttl) / SECOND;
    SealedOpens(s, t, PURPOSE_VALUE, PURPOSE_VALUE, ValuePayload(value, sealedAt + ttl));
    Base64Url.NoDot(value);
    CutJoins(Base64Url.Encode(value), FormatInt(seconds));
    ParseUndoesFormat(seconds);
    Base64Url.DecodeUndoesEncode(value);
  }

  /** A value is never a session, nor a session a value, whoever chose its content. */
  lemma PurposesNeverCross(s: Signer, t: Signer, value: Bytes, sealedAt: int, ttl: int,
                           id: string, expiry: int, issued: int, now: int)
    requires Ideal(s.mac) && t.mac == s.mac
    ensures Open(t, SealValue(s, value, sealedAt, ttl)) == None
    ensures OpenValue(t, Seal(s, id, expiry, issued), now) == None
  {
    assert PURPOSE_SESSION[0] != PURPOSE_VALUE[0];
    SealedOpens(s, t, PURPOSE_VALUE, PURPOSE_SESSION, ValuePayload(value, sealedAt + ttl));
    SealedOpens(s, t, PURPOSE_SESSION, PURPOSE_VALUE, SessionPayload(id, expiry, issued));
  }
}
