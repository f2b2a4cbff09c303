/** The wrapper that sends a response to the client and keeps a copy of it, and what
    the idempotency rings make of the copy. */
module Recording {
  import opened Options
  import opened IdempotencyRows

  const MAX_BODY: nat := 0x10_0000
  const STATUS_OK := 200
  const RETRY_AFTER := "Retry-After"

  /** What a handler does with its response writer. */
  datatype Op =
    | SetHeader(name: string, values: seq<string>)
    | DelHeader(name: string)
    | WriteHeader(status: int)
    | Write(bytes: seq<bv8>)

  /** Changes the headers and sends nothing. */
  predicate Touches(op: Op) {
    op.SetHeader? || op.DelHeader?
  }

  /** The client's ring looks at Retry-After on a refusal; the callbacks' ring does not. */
  datatype Ring = ClientRing | CallbackRing

  // ----- the three things an observer can say about a run of operations

  function Headers(ops: seq<Op>): Header {
    if ops == [] then map[]
    else
      var before := Headers(ops[..|ops| - 1]);
      match ops[|ops| - 1]
      case SetHeader(name, values) => before[name := values]
      case DelHeader(name) => before - {name}
      case _ => before
  }

  function Body(ops: seq<Op>): seq<bv8> {
    if ops == [] then []
    else Body(ops[..|ops| - 1]) + (match ops[|ops| - 1] case Write(b) => b case _ => [])
  }

  /** Up to where nothing has been sent: the operations before the first write. */
  function Uncommitted(ops: seq<Op>): (n: nat)
    ensures n <= |ops| && (n < |ops| ==> !Touches(ops[n]))
    ensures forall i :: 0 <= i < n ==> Touches(ops[i])
  {
    if ops == [] || !Touches(ops[0]) then 0 else 1 + Uncommitted(ops[1..])
  }

  /** What the client is sent: the first status, the headers of that moment, every
      byte. A handler that writes nothing is answered 200 when it returns. */
  function Sent(ops: seq<Op>): Response {
    var n := Uncommitted(ops);
    Response(if n < |ops| && ops[n].WriteHeader? then ops[n].status else STATUS_OK, Headers(ops[..n]), Body(ops), "")
  }

  function HeaderValue(h: Header, name: string): string {
    if name in h && h[name] != [] then h[name][0] else ""
  }

  /** Whether an answer may be kept, by what it was. */
  predicate Keepable(ring: Ring, ops: seq<Op>) {
    && Sent(ops).status < 500
    && !(ring.ClientRing? && Sent(ops).status >= 400 && HeaderValue(Headers(ops), RETRY_AFTER) != "")
    && |Body(ops)| <= MAX_BODY
  }

  /** The record of a run, or none: the key is left free. */
  function Recorded(ring: Ring, digest: string, ops: seq<Op>): Option<Response> {
    if Keepable(ring, ops) then
      Some(Response(Sent(ops).status, Headers(ops), Body(ops), digest))
    else
      None
  }

  /** What is not kept: an answer of the server's own failing; for a client, a refusal
      that asks to be tried again; and more bytes than a mebibyte. All else is kept, as
      it was answered. */
  lemma WhatIsKept(ring: Ring, digest: string, ops: seq<Op>)
    ensures Recorded(ring, digest, ops).None? <==>
              || Sent(ops).status >= 500
              || (ring == ClientRing && 400 <= Sent(ops).status < 500 && AsksForRetry(Headers(ops)))
              || |Sent(ops).body| > 1024 * 1024
    ensures Recorded(ring, digest, ops).Some? ==>
              Recorded(ring, digest, ops).value == Response(Sent(ops).status, Headers(ops), Sent(ops).body, digest)
  {
  }

  /** The header is there with a first value that is not empty. */
  predicate AsksForRetry(h: Header) {
    "Retry-After" in h && h["Retry-After"] != [] && h["Retry-After"][0] != ""
  }

  lemma {:induction false} BodyAppend(ops: seq<Op>, op: Op)
    ensures Body(ops + [op]) == Body(ops) + (match op case Write(b) => b case _ => [])
    ensures Headers(ops + [op]) == (match op case SetHeader(n, v) => Headers(ops)[n := v] case DelHeader(n) => Headers(ops) - {n} case _ => Headers(ops))
  {
    assert (ops + [op])[..|ops|] == ops;
  }

  lemma {:induction false} CommitStays(ops: seq<Op>, op: Op)
    ensures Uncommitted(ops) < |ops| ==> Uncommitted(ops + [op]) == Uncommitted(ops)
    ensures Uncommitted(ops) == |ops| ==> Uncommitted(ops + [op]) == |ops| + if Touches(op) then 1 else 0
  {
    if ops == [] {
      assert [op][1..] == [];
    } else if Touches(ops[0]) {
      CommitStays(ops[1..], op);
      assert (ops + [op])[1..] == ops[1..] + [op];
    }
  }

  lemma StatusAppend(ops: seq<Op>, op: Op)
    ensures Sent(ops + [op]).status ==
              if Uncommitted(ops) == |ops| && op.WriteHeader? then op.status else Sent(ops).status
    ensures Uncommitted(ops + [op]) < |ops| + 1 <==> Uncommitted(ops) < |ops| || !Touches(op)
  {
    CommitStays(ops, op);
  }

  /** The ring's own copy, field by field as the wrapper keeps it. */
  class RecordingWriter {
    var status: int
    var wroteHeader: bool
    var overflowed: bool
    var buf: seq<bv8>
    var header: Header
    ghost var done: seq<Op>

    ghost predicate Valid()
      reads this
    {
      && wroteHeader == (Uncommitted(done) < |done|)
      && status == Sent(done).status
      && header == Headers(done)
      && overflowed == (|Body(done)| > MAX_BODY)
      && buf == if overflowed then [] else Body(done)
    }

    constructor ()
      ensures Valid() && done == []
    {
      status, wroteHeader, overflowed, buf, header := STATUS_OK, false, false, [], map[];
      done := [];
    }

    method SetHeader(name: string, values: seq<string>)
      requires Valid()
      modifies this
      ensures Valid() && done == old(done) + [Op.SetHeader(name, values)]
    {
      BodyAppend(done, Op.SetHeader(name, values));
      StatusAppend(done, Op.SetHeader(name, values));
      header := header[name := values];
      done := done + [Op.SetHeader(name, values)];
    }

    method DelHeader(name: string)
      requires Valid()
      modifies this
      ensures Valid() && done == old(done) + [Op.DelHeader(name)]
    {
      BodyAppend(done, Op.DelHeader(name));
      StatusAppend(done, Op.DelHeader(name));
      header := header - {name};
      done := done + [Op.DelHeader(name)];
    }

    method WriteHeader(status: int)
      requires Valid()
      modifies this
      ensures Valid() && done == old(done) + [Op.WriteHeader(status)]
    {
      BodyAppend(done, Op.WriteHeader(status));
      StatusAppend(done, Op.WriteHeader(status));
      if !wroteHeader {
        this.status := status;
        wroteHeader := true;
      }
      done := done + [Op.WriteHeader(status)];
    }

    method Write(b: seq<bv8>)
      requires Valid()
      modifies this
      ensures Valid() && done == old(done) + [Op.Write(b)]
    {
      BodyAppend(done, Op.Write(b));
      StatusAppend(done, Op.Write(b));
      if !wroteHeader {
        status, wroteHeader := STATUS_OK, true;
      }
      if !overflowed {
        if |buf| + |b| > MAX_BODY {
          overflowed, buf := true, [];
        } else {
          buf := buf + b;
        }
      }
      done := done + [Op.Write(b)];
    }

    /** What the ring does once the handler has returned. */
    method Settle(ring: Ring, digest: string) returns (record: Option<Response>)
      requires Valid()
      ensures record == Recorded(ring, digest, done)
    {
      if status >= 500 || (ring.ClientRing? && status >= 400 && HeaderValue(header, RETRY_AFTER) != "") {
        return None;
      }
      if overflowed {
        return None;
      }
      return Some(Response(status, header, buf, digest));
    }
  }

  // ----- what a replay says

  function Value(h: Header, name: string): Option<seq<string>> {
    if name in h then Some(h[name]) else None
  }

  /** What a header operation leaves its header at. */
  function Leaves(op: Op): Option<seq<string>>
    requires Touches(op)
  {
    if op.SetHeader? then Some(op.values) else None
  }

  /** Operation i is the last one on its header. */
  predicate LastOn(ops: seq<Op>, i: nat)
    requires i < |ops|
  {
    Touches(ops[i]) && forall j :: i < j < |ops| && Touches(ops[j]) ==> ops[j].name != ops[i].name
  }

  /** Every header changed once the response was committed ends as it was sent. */
  predicate PutBack(ops: seq<Op>) {
    var n := Uncommitted(ops);
    forall i :: n <= i < |ops| && LastOn(ops, i) ==> Leaves(ops[i]) == Value(Headers(ops[..n]), ops[i].name)
  }

  predicate TouchedFrom(ops: seq<Op>, n: nat, name: string) {
    exists i :: n <= i < |ops| && Touches(ops[i]) && ops[i].name == name
  }

  lemma HeadersStep(ops: seq<Op>, name: string)
    requires ops != []
    ensures var k := |ops| - 1;
            Value(Headers(ops), name) ==
            if Touches(ops[k]) && ops[k].name == name then Leaves(ops[k]) else Value(Headers(ops[..k]), name)
  {
  }

  /** A header is where the last operation on it left it. */
  lemma {:induction false} LastDecides(ops: seq<Op>, i: nat)
    requires i < |ops| && LastOn(ops, i)
    ensures Value(Headers(ops), ops[i].name) == Leaves(ops[i])
    decreases |ops|
  {
    var k := |ops| - 1;
    HeadersStep(ops, ops[i].name);
    if i < k {
      assert forall j :: i < j < k ==> ops[..k][j] == ops[j];
      LastDecides(ops[..k], i);
    }
  }

  lemma {:induction false} UntouchedStays(ops: seq<Op>, n: nat, name: string)
    requires n <= |ops| && !TouchedFrom(ops, n, name)
    ensures Value(Headers(ops), name) == Value(Headers(ops[..n]), name)
    decreases |ops|
  {
    if n == |ops| {
      assert ops[..n] == ops;
    } else {
      var shorter := ops[..|ops| - 1];
      HeadersStep(ops, name);
      assert forall i :: n <= i < |shorter| ==> shorter[i] == ops[i];
      UntouchedStays(shorter, n, name);
      assert shorter[..n] == ops[..n];
    }
  }

  lemma {:induction false} LastExists(ops: seq<Op>, n: nat, name: string) returns (i: nat)
    requires n <= |ops| && TouchedFrom(ops, n, name)
    ensures n <= i < |ops| && LastOn(ops, i) && ops[i].name == name
    decreases |ops|
  {
    var k := |ops| - 1;
    if Touches(ops[k]) && ops[k].name == name {
      i := k;
    } else {
      var j :| n <= j < |ops| && Touches(ops[j]) && ops[j].name == name;
      assert ops[..k][j] == ops[j];
      i := LastExists(ops[..k], n, name);
      assert forall j :: i < j < k ==> ops[..k][j] == ops[j];
    }
  }

  lemma SameValues(a: Header, b: Header)
    ensures a == b <==> forall name :: Value(a, name) == Value(b, name)
  {
    if forall name :: Value(a, name) == Value(b, name) {
      assert forall name :: name in a <==> Value(a, name).Some?;
      assert forall name :: name in b <==> Value(b, name).Some?;
      assert forall name :: name in a ==> Value(a, name) == Some(a[name]) == Some(b[name]);
    }
  }

  /** The headers of the end are those of the commit exactly if each was put back. */
  lemma SameIffPutBack(ops: seq<Op>)
    ensures Headers(ops) == Headers(ops[..Uncommitted(ops)]) <==> PutBack(ops)
  {
    var n := Uncommitted(ops);
    var end, sent := Headers(ops), Headers(ops[..n]);
    SameValues(end, sent);
    if PutBack(ops) {
      forall name ensures Value(end, name) == Value(sent, name) {
        if TouchedFrom(ops, n, name) {
          var i := LastExists(ops, n, name);
          LastDecides(ops, i);
        } else {
          UntouchedStays(ops, n, name);
        }
      }
    }
    if end == sent {
      forall i | n <= i < |ops| && LastOn(ops, i) ensures Leaves(ops[i]) == Value(sent, ops[i].name) {
        LastDecides(ops, i);
      }
    }
  }

  /** A replay carries the status and the bytes the first caller was sent; the headers
      too, exactly if every header the handler changed after committing ends as it was
      at the commit. */
  lemma ReplayIsWhatWasSent(ring: Ring, digest: string, ops: seq<Op>)
    requires Recorded(ring, digest, ops).Some?
    ensures var r := Recorded(ring, digest, ops).value;
            && r.status == Sent(ops).status && r.body == Sent(ops).body && r.fingerprint == digest
            && (r.header == Sent(ops).header <==> PutBack(ops))
  {
    SameIffPutBack(ops);
  }

  /** A handler that sets a header after its first write is replayed with a header
      the first caller never saw. */
  lemma LateHeaderDiffers(digest: string)
    ensures exists ops :: Recorded(ClientRing, digest, ops).Some? &&
              Recorded(ClientRing, digest, ops).value.header != Sent(ops).header
  {
    var ops := [Op.Write([]), Op.SetHeader("X", ["1"])];
    assert ops[..1] == [Op.Write([])] && ops[..1][..0] == [] && ops[..0] == [];
    assert Headers(ops[..1]) == map[] && Headers(ops[..0]) == map[];
    assert Headers(ops) == map["X" := ["1"]];
    assert Body(ops[..1]) == [];
    assert Recorded(ClientRing, digest, ops).Some?;
    assert "X" in Headers(ops) && "X" !in Sent(ops).header;
  }
}
