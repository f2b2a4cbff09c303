/** Event ids: a 48-bit millisecond stamp and 80 random bits, as 26 characters that
    sort by time. The bit grouping is section 6 of RFC 4648, without padding. */
module EventIds {
  import opened Lexicographic

  type Byte = b: nat | b < 256 witness 0

  // ----- digit strings and the numbers they spell

  predicate Below(a: seq<nat>, b: seq<nat>)
    requires |a| == |b|
  {
    exists k :: 0 <= k < |a| && a[..k] == b[..k] && a[k] < b[k]
  }

  predicate DigitsOf(base: nat, s: seq<nat>) {
    forall k :: 0 <= k < |s| ==> s[k] < base
  }

  function Number(base: nat, s: seq<nat>): nat {
    if s == [] then 0 else Number(base, s[..|s| - 1]) * base + s[|s| - 1]
  }

  lemma BelowLast(a: seq<nat>, b: seq<nat>)
    requires |a| == |b| > 0
    ensures var n := |a| - 1;
            Below(a, b) <==> Below(a[..n], b[..n]) || (a[..n] == b[..n] && a[n] < b[n])
  {
    var n := |a| - 1;
    if Below(a, b) {
      var k :| 0 <= k < |a| && a[..k] == b[..k] && a[k] < b[k];
      if k < n {
        assert a[..n][..k] == a[..k] && b[..n][..k] == b[..k];
      }
    }
    if Below(a[..n], b[..n]) {
      var k :| 0 <= k < n && a[..n][..k] == b[..n][..k] && a[..n][k] < b[..n][k];
      assert a[..n][..k] == a[..k] && b[..n][..k] == b[..k];
    }
  }

  lemma OneMore(base: nat, p: nat, q: nat)
    requires p < q
    ensures p * base + base <= q * base
  {
    assert q * base == p * base + (q - p) * base;
    assert (q - p) * base == base + (q - p - 1) * base;
  }

  lemma Carry(base: nat, p: nat, x: nat, q: nat, y: nat)
    requires x < base && y < base
    ensures p * base + x < q * base + y <==> p < q || (p == q && x < y)
    ensures p * base + x == q * base + y <==> p == q && x == y
  {
    if p < q {
      OneMore(base, p, q);
    } else if q < p {
      OneMore(base, q, p);
    }
  }

  lemma LastDigitDecides(base: nat, a: seq<nat>, b: seq<nat>)
    requires |a| == |b| > 0 && DigitsOf(base, a) && DigitsOf(base, b)
    ensures var n := |a| - 1;
            var p, q := Number(base, a[..n]), Number(base, b[..n]);
            && (Number(base, a) < Number(base, b) <==> p < q || (p == q && a[n] < b[n]))
            && (Number(base, a) == Number(base, b) <==> p == q && a[n] == b[n])
  {
    var n := |a| - 1;
    Carry(base, Number(base, a[..n]), a[n], Number(base, b[..n]), b[n]);
  }

  /** Digit strings of one length are ordered as the numbers they spell. */
  lemma {:induction false} OrderIsNumeric(base: nat, a: seq<nat>, b: seq<nat>)
    requires |a| == |b| && DigitsOf(base, a) && DigitsOf(base, b)
    ensures Below(a, b) <==> Number(base, a) < Number(base, b)
    ensures a == b <==> Number(base, a) == Number(base, b)
    decreases |a|
  {
    if a != [] {
      var n := |a| - 1;
      OrderIsNumeric(base, a[..n], b[..n]);
      BelowLast(a, b);
      LastDigitDecides(base, a, b);
      SameLast(a, b);
    }
  }

  lemma SameLast(a: seq<nat>, b: seq<nat>)
    requires |a| == |b| > 0
    ensures var n := |a| - 1; a == b <==> a[..n] == b[..n] && a[n] == b[n]
  {
    var n := |a| - 1;
    assert a == a[..n] + [a[n]] && b == b[..n] + [b[n]];
  }

  // ----- base 32

  /** The Crockford alphabet. */
  function Letter(d: nat): char
    requires d < 32
  {
    if d < 10 then ('0' as int + d) as char
    else if d < 18 then ('A' as int + d - 10) as char
    else if d < 20 then ('J' as int + d - 18) as char
    else if d < 22 then ('M' as int + d - 20) as char
    else if d < 27 then ('P' as int + d - 22) as char
    else ('V' as int + d - 27) as char
  }

  lemma LettersAscend(c: nat, d: nat)
    requires c < 32 && d < 32
    ensures c < d <==> Letter(c) < Letter(d)
  {
  }

  lemma LettersAreCrockfords(d: nat)
    requires d < 32
    ensures Letter(d) == "0123456789ABCDEFGHJKMNPQRSTVWXYZ"[d]
  {
  }

  /** The eight fives of five bytes. */
  function Fives(b0: Byte, b1: Byte, b2: Byte, b3: Byte, b4: Byte): seq<nat> {
    [b0 / 8, b0 % 8 * 4 + b1 / 64, b1 / 2 % 32, b1 % 2 * 16 + b2 / 16,
     b2 % 16 * 2 + b3 / 128, b3 / 4 % 32, b3 % 4 * 8 + b4 / 32, b4 % 32]
  }

  lemma FivesAreFives(b0: Byte, b1: Byte, b2: Byte, b3: Byte, b4: Byte)
    ensures DigitsOf(32, Fives(b0, b1, b2, b3, b4)) && |Fives(b0, b1, b2, b3, b4)| == 8
  {
  }

  /** Sixteen bytes make three whole groups and one byte left over, whose last three
      bits stand at the top of the last five. */
  function Regrouped(b: seq<Byte>): seq<nat>
    requires |b| == 16
  {
    Fives(b[0], b[1], b[2], b[3], b[4]) + Fives(b[5], b[6], b[7], b[8], b[9])
    + Fives(b[10], b[11], b[12], b[13], b[14]) + [b[15] / 8, b[15] % 8 * 4]
  }

  lemma GroupValue(b0: Byte, b1: Byte, b2: Byte, b3: Byte, b4: Byte)
    ensures var f := Fives(b0, b1, b2, b3, b4);
            ((((((f[0] * 32 + f[1]) * 32 + f[2]) * 32 + f[3]) * 32 + f[4]) * 32 + f[5]) * 32 + f[6]) * 32 + f[7]
            == (((b0 * 256 + b1) * 256 + b2) * 256 + b3) * 256 + b4
  {
    assert b1 / 2 % 32 + b1 / 64 * 32 == b1 / 2;
    assert b3 / 4 % 32 + b3 / 128 * 32 == b3 / 4;
  }

  lemma Push(base: nat, s: seq<nat>, d: nat)
    ensures Number(base, s + [d]) == Number(base, s) * base + d
  {
    assert (s + [d])[..|s|] == s;
  }

  lemma PushBytes(p: seq<nat>, b0: Byte, b1: Byte, b2: Byte, b3: Byte, b4: Byte)
    ensures Number(256, p + [b0, b1, b2, b3, b4]) ==
            Number(256, p) * 0x100_0000_0000 + ((((b0 * 256 + b1) * 256 + b2) * 256 + b3) * 256 + b4)
  {
    var q0 := p + [b0];
    var q1 := q0 + [b1];
    var q2 := q1 + [b2];
    var q3 := q2 + [b3];
    Push(256, p, b0);
    Push(256, q0, b1);
    Push(256, q1, b2);
    Push(256, q2, b3);
    Push(256, q3, b4);
    assert p + [b0, b1, b2, b3, b4] == q3 + [b4];
  }

  lemma PushFour(p: seq<nat>, a: nat, b: nat, c: nat, d: nat)
    ensures Number(32, p + [a, b, c, d]) == Number(32, p) * 0x10_0000 + ((a * 32 + b) * 32 + c) * 32 + d
  {
    var q0 := p + [a];
    var q1 := q0 + [b];
    var q2 := q1 + [c];
    Push(32, p, a);
    Push(32, q0, b);
    Push(32, q1, c);
    Push(32, q2, d);
    assert p + [a, b, c, d] == q2 + [d];
  }

  lemma PushFives(p: seq<nat>, f: seq<nat>)
    requires |f| == 8
    ensures Number(32, p + f) ==
            Number(32, p) * 0x100_0000_0000
            + ((((((f[0] * 32 + f[1]) * 32 + f[2]) * 32 + f[3]) * 32 + f[4]) * 32 + f[5]) * 32 + f[6]) * 32 + f[7]
  {
    var q := p + [f[0], f[1], f[2], f[3]];
    PushFour(p, f[0], f[1], f[2], f[3]);
    PushFour(q, f[4], f[5], f[6], f[7]);
    assert p + f == q + [f[4], f[5], f[6], f[7]];
  }

  lemma GroupKeepsValue(p: seq<nat>, q: seq<nat>, b0: Byte, b1: Byte, b2: Byte, b3: Byte, b4: Byte)
    requires Number(32, q) == Number(256, p)
    ensures Number(32, q + Fives(b0, b1, b2, b3, b4)) == Number(256, p + [b0, b1, b2, b3, b4])
  {
    GroupValue(b0, b1, b2, b3, b4);
    PushBytes(p, b0, b1, b2, b3, b4);
    PushFives(q, Fives(b0, b1, b2, b3, b4));
  }

  /** The regrouped bits are the same number, two zero bits further left. */
  lemma RegroupedIsTheSameNumber(b: seq<Byte>)
    requires |b| == 16
    ensures DigitsOf(32, Regrouped(b)) && |Regrouped(b)| == 26
    ensures Number(32, Regrouped(b)) == 4 * Number(256, b)
  {
    FivesAreFives(b[0], b[1], b[2], b[3], b[4]);
    FivesAreFives(b[5], b[6], b[7], b[8], b[9]);
    FivesAreFives(b[10], b[11], b[12], b[13], b[14]);
    var e: seq<nat> := [];
    var f1, g1 := e + Fives(b[0], b[1], b[2], b[3], b[4]), e + [b[0], b[1], b[2], b[3], b[4]];
    GroupKeepsValue(e, e, b[0], b[1], b[2], b[3], b[4]);
    var f2, g2 := f1 + Fives(b[5], b[6], b[7], b[8], b[9]), g1 + [b[5], b[6], b[7], b[8], b[9]];
    GroupKeepsValue(g1, f1, b[5], b[6], b[7], b[8], b[9]);
    var f3, g3 := f2 + Fives(b[10], b[11], b[12], b[13], b[14]), g2 + [b[10], b[11], b[12], b[13], b[14]];
    GroupKeepsValue(g2, f2, b[10], b[11], b[12], b[13], b[14]);
    Push(256, g3, b[15]);
    Push(32, f3, b[15] / 8);
    Push(32, f3 + [b[15] / 8], b[15] % 8 * 4);
    assert b == g3 + [b[15]];
    assert Regrouped(b) == f3 + [b[15] / 8] + [b[15] % 8 * 4];
  }

  // ----- ids

  function Spelled(d: seq<nat>): string
    requires DigitsOf(32, d)
  {
    seq(|d|, k requires 0 <= k < |d| => Letter(d[k]))
  }

  function EncodeToString(b: seq<Byte>): string
    requires |b| == 16
  {
    RegroupedIsTheSameNumber(b);
    Spelled(Regrouped(b))
  }

  lemma SpelledFirst(d: seq<nat>)
    requires d != [] && DigitsOf(32, d)
    ensures Spelled(d) == [Letter(d[0])] + Spelled(d[1..]) && Spelled(d)[1..] == Spelled(d[1..])
  {
  }

  lemma {:induction false} SpellingKeepsOrder(c: seq<nat>, d: seq<nat>)
    requires |c| == |d| && DigitsOf(32, c) && DigitsOf(32, d)
    ensures Before(Spelled(c), Spelled(d)) <==> Below(c, d)
    decreases |c|
  {
    if c != [] {
      SpelledFirst(c);
      SpelledFirst(d);
      LettersAscend(c[0], d[0]);
      LettersAscend(d[0], c[0]);
      SpellingKeepsOrder(c[1..], d[1..]);
      BelowFirst(c, d);
    }
  }

  lemma SpellingTellsApart(c: seq<nat>, d: seq<nat>)
    requires |c| == |d| && DigitsOf(32, c) && DigitsOf(32, d)
    ensures Spelled(c) == Spelled(d) <==> c == d
  {
    if Spelled(c) == Spelled(d) {
      forall k | 0 <= k < |c| ensures c[k] == d[k] {
        assert Spelled(c)[k] == Spelled(d)[k];
        LettersAscend(c[k], d[k]);
        LettersAscend(d[k], c[k]);
      }
    }
  }

  lemma BelowFirst(a: seq<nat>, b: seq<nat>)
    requires |a| == |b| > 0
    ensures Below(a, b) <==> a[0] < b[0] || (a[0] == b[0] && Below(a[1..], b[1..]))
  {
    if Below(a, b) {
      var k :| 0 <= k < |a| && a[..k] == b[..k] && a[k] < b[k];
      if k > 0 {
        assert a[..k][0] == b[..k][0];
        assert a[1..][..k - 1] == a[..k][1..] && b[1..][..k - 1] == b[..k][1..];
      }
    }
    if a[0] < b[0] {
      assert a[..0] == b[..0];
    } else if a[0] == b[0] && Below(a[1..], b[1..]) {
      var k :| 0 <= k < |a| - 1 && a[1..][..k] == b[1..][..k] && a[1..][k] < b[1..][k];
      assert a[..k + 1] == [a[0]] + a[1..][..k] && b[..k + 1] == [b[0]] + b[1..][..k];
    }
  }

  /** The text of sixteen bytes sorts as the bytes do, and tells them apart. */
  lemma EncodingKeepsOrder(a: seq<Byte>, b: seq<Byte>)
    requires |a| == |b| == 16
    ensures Before(EncodeToString(a), EncodeToString(b)) <==> Below(a, b)
    ensures EncodeToString(a) == EncodeToString(b) <==> a == b
  {
    RegroupedIsTheSameNumber(a);
    RegroupedIsTheSameNumber(b);
    OrderIsNumeric(32, Regrouped(a), Regrouped(b));
    OrderIsNumeric(256, a, b);
    SpellingKeepsOrder(Regrouped(a), Regrouped(b));
    SpellingTellsApart(Regrouped(a), Regrouped(b));
  }

  const STAMP_LIMIT := 0x1_0000_0000_0000

  /** The low 48 bits, highest byte first. */
  function StampBytes(ms: nat, n: nat): (s: seq<Byte>)
    ensures |s| == n
  {
    if n == 0 then [] else StampBytes(ms / 256, n - 1) + [ms % 256]
  }

  /** How many stamps n bytes can hold. */
  function Room(n: nat): nat {
    if n == 0 then 1 else Room(n - 1) * 256
  }

  lemma {:induction false} StampValue(ms: nat, n: nat)
    requires ms < Room(n)
    ensures Number(256, StampBytes(ms, n)) == ms
  {
    if n > 0 {
      StampValue(ms / 256, n - 1);
      Push(256, StampBytes(ms / 256, n - 1), ms % 256);
    }
  }

  lemma StampNumber(ms: nat)
    requires ms < STAMP_LIMIT
    ensures Number(256, StampBytes(ms, 6)) == ms
  {
    assert Room(3) == 0x100_0000 && Room(6) == Room(3) * 0x100_0000;
    StampValue(ms, 6);
  }

  const PREFIX := "evt_"

  /** A moment before 1970 counts as 1970. */
  function Clamped(ms: int): nat {
    if ms < 0 then 0 else ms
  }

  function EventId(ms: int, random: seq<Byte>): string
    requires |random| == 10
  {
    PREFIX + EncodeToString(StampBytes(Clamped(ms), 6) + random)
  }

  lemma {:induction false} SamePrefix(p: string, a: string, b: string)
    ensures Before(p + a, p + b) <==> Before(a, b)
  {
    if p == "" {
      assert p + a == a && p + b == b;
    } else {
      assert (p + a)[1..] == p[1..] + a && (p + b)[1..] == p[1..] + b;
      SamePrefix(p[1..], a, b);
    }
  }

  lemma BelowExtends(a: seq<nat>, b: seq<nat>, x: seq<nat>, y: seq<nat>)
    requires |a| == |b| && |x| == |y| && Below(a, b)
    ensures Below(a + x, b + y)
  {
    var k :| 0 <= k < |a| && a[..k] == b[..k] && a[k] < b[k];
    assert (a + x)[..k] == a[..k] && (b + y)[..k] == b[..k];
  }

  /** An earlier millisecond's id sorts first, whatever the random bits. */
  lemma IdsSortByTime(a: int, b: int, x: seq<Byte>, y: seq<Byte>)
    requires 0 <= a < b < STAMP_LIMIT && |x| == |y| == 10
    ensures Before(EventId(a, x), EventId(b, y))
  {
    StampNumber(a);
    StampNumber(b);
    OrderIsNumeric(256, StampBytes(a, 6), StampBytes(b, 6));
    BelowExtends(StampBytes(a, 6), StampBytes(b, 6), x, y);
    EncodingKeepsOrder(StampBytes(a, 6) + x, StampBytes(b, 6) + y);
    SamePrefix(PREFIX, EncodeToString(StampBytes(a, 6) + x), EncodeToString(StampBytes(b, 6) + y));
  }

  /** Ids are the same only for the same stamp and the same random bits. */
  lemma IdsAreDistinct(a: int, b: int, x: seq<Byte>, y: seq<Byte>)
    requires a < STAMP_LIMIT && b < STAMP_LIMIT && |x| == |y| == 10
    ensures EventId(a, x) == EventId(b, y) <==> Clamped(a) == Clamped(b) && x == y
  {
    var s, t := StampBytes(Clamped(a), 6), StampBytes(Clamped(b), 6);
    StampNumber(Clamped(a));
    StampNumber(Clamped(b));
    EncodingKeepsOrder(s + x, t + y);
    if EventId(a, x) == EventId(b, y) {
      assert EventId(a, x)[4..] == EncodeToString(s + x) && EventId(b, y)[4..] == EncodeToString(t + y);
      assert (s + x)[..6] == s && (t + y)[..6] == t && (s + x)[6..] == x && (t + y)[6..] == y;
    }
  }

  // ----- the source of the low ten bytes

  const WORD := 0x1_0000_0000_0000_0000

  /** What a failed read of random bytes leaves: whatever it wrote into the first two,
      and the moment's nanoseconds, as an unsigned 64-bit number, over the rest. */
  function LowBytes(drawn: seq<Byte>, failed: bool, nanos: int): (low: seq<Byte>)
    requires |drawn| == 10
    ensures |low| == 10
  {
    if failed then drawn[..2] + StampBytes(nanos % WORD, 8) else drawn
  }

  lemma WordValue(v: nat)
    requires v < WORD
    ensures Number(256, StampBytes(v, 8)) == v
  {
    assert Room(4) == 0x1_0000_0000 && Room(8) == Room(4) * 0x1_0000_0000;
    StampValue(v, 8);
  }

  /** Signed 64-bit numbers keep their difference as unsigned ones. */
  lemma WordsApart(m: int, n: int)
    requires -WORD <= 2 * m < WORD && -WORD <= 2 * n < WORD
    ensures StampBytes(m % WORD, 8) == StampBytes(n % WORD, 8) <==> m == n
  {
    WordValue(m % WORD);
    WordValue(n % WORD);
  }

  lemma SameHalves(x: seq<Byte>, y: seq<Byte>, s: seq<Byte>, t: seq<Byte>)
    requires |x| == |y|
    ensures x + s == y + t <==> x == y && s == t
  {
    if x + s == y + t {
      assert x == (x + s)[..|x|] == y && s == (x + s)[|x|..] == t;
    }
  }

  /** Two ids made without random bytes differ as soon as their nanoseconds do. */
  lemma FailedReadsTellMomentsApart(a: int, b: int, x: seq<Byte>, y: seq<Byte>, m: int, n: int)
    requires a < STAMP_LIMIT && b < STAMP_LIMIT && |x| == |y| == 10
    requires -WORD <= 2 * m < WORD && -WORD <= 2 * n < WORD
    ensures EventId(a, LowBytes(x, true, m)) == EventId(b, LowBytes(y, true, n)) <==>
            Clamped(a) == Clamped(b) && x[..2] == y[..2] && m == n
  {
    IdsAreDistinct(a, b, LowBytes(x, true, m), LowBytes(y, true, n));
    SameHalves(x[..2], y[..2], StampBytes(m % WORD, 8), StampBytes(n % WORD, 8));
    WordsApart(m, n);
  }

  // ----- the buffers

  /** Eight bytes at an offset, highest first, written from the low end. */
  method PutWord(buf: array<Byte>, at: nat, v: nat)
    requires at + 8 <= buf.Length
    modifies buf
    ensures buf[..] == old(buf[..at]) + StampBytes(v, 8) + old(buf[at + 8..])
  {
    var left, i := v, 8;
    while i > 0
      invariant 0 <= i <= 8
      invariant StampBytes(v, 8) == StampBytes(left, i) + buf[at + i..at + 8]
      invariant buf[..at] == old(buf[..at]) && buf[at + 8..] == old(buf[at + 8..])
    {
      i := i - 1;
      buf[at + i] := left % 256;
      left := left / 256;
    }
    assert buf[..] == buf[..at] + buf[at..at + 8] + buf[at + 8..];
  }

  /** The stamp without its first two bytes, and the ten after it. */
  method Fill(buf: array<Byte>, stamp: array<Byte>, drawn: seq<Byte>)
    requires buf.Length == 16 && stamp.Length == 8 && buf != stamp && |drawn| == 10
    modifies buf
    ensures buf[..] == stamp[2..] + drawn
  {
    for k := 0 to 6
      invariant forall j :: 0 <= j < k ==> buf[j] == stamp[j + 2]
    {
      buf[k] := stamp[k + 2];
    }
    for k := 6 to 16
      invariant forall j :: 0 <= j < 6 ==> buf[j] == stamp[j + 2]
      invariant forall j :: 6 <= j < k ==> buf[j] == drawn[j - 6]
    {
      buf[k] := drawn[k - 6];
    }
    assert buf[..] == buf[..6] + buf[6..];
  }

  /** The moment's milliseconds; one before 1970 is clamped. */
  method Stamp(ms: int) returns (stamp: array<Byte>)
    ensures fresh(stamp) && stamp.Length == 8 && stamp[2..] == StampBytes(Clamped(ms), 6)
  {
    stamp := new Byte[8];
    PutWord(stamp, 0, if ms < 0 then 0 else ms);
    LowSix(Clamped(ms));
    assert stamp[..] == StampBytes(Clamped(ms), 8);
  }

  /** The nanoseconds over the last eight of sixteen bytes. */
  method Overwrite(buf: array<Byte>, nanos: int)
    requires buf.Length == 16
    modifies buf
    ensures buf[..] == old(buf[..])[..8] + StampBytes(nanos % WORD, 8)
  {
    PutWord(buf, 8, nanos % WORD);
  }

  /** The two byte buffers, filled in place: the stamp's low six bytes, then what the
      random read drew, overwritten by the nanoseconds should it have failed. */
  method NewEventId(ms: int, nanos: int, drawn: seq<Byte>, failed: bool) returns (id: string)
    requires |drawn| == 10
    ensures id == EventId(ms, LowBytes(drawn, failed, nanos))
  {
    var stamp := Stamp(ms);
    var buf := new Byte[16];
    Fill(buf, stamp, drawn);
    if failed {
      Overwrite(buf, nanos);
    }
    TwoDrawn(StampBytes(Clamped(ms), 6), drawn, StampBytes(nanos % WORD, 8));
    id := PREFIX + EncodeToString(buf[..]);
  }

  /** Six bytes of the stamp and two drawn come before the word. */
  lemma TwoDrawn(stamp: seq<Byte>, drawn: seq<Byte>, word: seq<Byte>)
    requires |stamp| == 6 && |drawn| == 10
    ensures (stamp + drawn)[..8] + word == stamp + (drawn[..2] + word)
  {
    assert (stamp + drawn)[..8] == stamp + drawn[..2];
  }

  lemma LowSix(ms: nat)
    ensures StampBytes(ms, 8)[2..] == StampBytes(ms, 6)
  {
    Drop(ms, 6);
  }

  lemma {:induction false} Drop(ms: nat, n: nat)
    ensures StampBytes(ms, n + 2)[2..] == StampBytes(ms, n)
  {
    if n > 0 {
      Drop(ms / 256, n - 1);
      assert StampBytes(ms, n + 2) == StampBytes(ms / 256, n + 1) + [ms % 256];
    }
  }
}
