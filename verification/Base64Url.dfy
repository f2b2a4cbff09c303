/** Unpadded URL-safe base64, section 5 of RFC 4648. */
module Base64Url {
  import opened Options

  type Byte = b: nat | b < 256 witness 0

  function Letter(n: nat): char
    requires n < 64
  {
    if n < 26 then ('A' as int + n) as char
    else if n < 52 then ('a' as int + n - 26) as char
    else if n < 62 then ('0' as int + n - 52) as char
    else if n == 62 then '-'
    else '_'
  }

  function Rank(c: char): Option<nat> {
    if 'A' <= c <= 'Z' then Some(c as int - 'A' as int)
    else if 'a' <= c <= 'z' then Some(c as int - 'a' as int + 26)
    else if '0' <= c <= '9' then Some(c as int - '0' as int + 52)
    else if c == '-' then Some(62)
    else if c == '_' then Some(63)
    else None
  }

  lemma RankOfLetter(n: nat)
    requires n < 64
    ensures Rank(Letter(n)) == Some(n) && Letter(n) != '.' && Letter(n) != '\r' && Letter(n) != '\n'
  {
  }

  function Encode(b: seq<Byte>): string {
    if |b| == 0 then ""
    else if |b| == 1 then [Letter(b[0] / 4), Letter(b[0] % 4 * 16)]
    else if |b| == 2 then [Letter(b[0] / 4), Letter(b[0] % 4 * 16 + b[1] / 16), Letter(b[1] % 16 * 4)]
    else
      [Letter(b[0] / 4), Letter(b[0] % 4 * 16 + b[1] / 16), Letter(b[1] % 16 * 4 + b[2] / 64), Letter(b[2] % 64)]
      + Encode(b[3..])
  }

  /** The decoder skips line breaks wherever they stand. */
  function Unbroken(s: string): string {
    if s == "" then ""
    else (if s[0] == '\r' || s[0] == '\n' then [] else [s[0]]) + Unbroken(s[1..])
  }

  function Ranks(s: string): Option<seq<nat>> {
    if s == "" then Some([])
    else
      match (Rank(s[0]), Ranks(s[1..]))
      case (Some(r), Some(rest)) => Some([r] + rest)
      case (_, _) => None
  }

  /** Whole groups of four, and a last one of two or three; bits left over are dropped. */
  function Join(r: seq<nat>): Option<seq<Byte>>
    requires forall k :: 0 <= k < |r| ==> r[k] < 64
  {
    if |r| == 0 then Some([])
    else if |r| == 1 then None
    else if |r| == 2 then Some([r[0] * 4 + r[1] / 16])
    else if |r| == 3 then Some([r[0] * 4 + r[1] / 16, r[1] % 16 * 16 + r[2] / 4])
    else
      match Join(r[4..])
      case None => None
      case Some(rest) => Some([r[0] * 4 + r[1] / 16, r[1] % 16 * 16 + r[2] / 4, r[2] % 4 * 64 + r[3]] + rest)
  }

  lemma {:induction false} RanksAreSmall(s: string)
    ensures Ranks(s).Some? ==> forall k :: 0 <= k < |Ranks(s).value| ==> Ranks(s).value[k] < 64
  {
    if s != "" {
      RanksAreSmall(s[1..]);
    }
  }

  function Decode(s: string): Option<seq<Byte>> {
    RanksAreSmall(Unbroken(s));
    match Ranks(Unbroken(s))
    case None => None
    case Some(r) => Join(r)
  }

  // ----- decoding undoes encoding

  /** The six-bit groups of a byte string. */
  function Sixes(b: seq<Byte>): (r: seq<nat>)
    ensures forall k :: 0 <= k < |r| ==> r[k] < 64
  {
    if |b| == 0 then []
    else if |b| == 1 then [b[0] / 4, b[0] % 4 * 16]
    else if |b| == 2 then [b[0] / 4, b[0] % 4 * 16 + b[1] / 16, b[1] % 16 * 4]
    else [b[0] / 4, b[0] % 4 * 16 + b[1] / 16, b[1] % 16 * 4 + b[2] / 64, b[2] % 64] + Sixes(b[3..])
  }

  function Letters(r: seq<nat>): string
    requires forall k :: 0 <= k < |r| ==> r[k] < 64
  {
    seq(|r|, k requires 0 <= k < |r| => Letter(r[k]))
  }

  lemma {:induction false} EncodeIsLetters(b: seq<Byte>)
    ensures Encode(b) == Letters(Sixes(b))
  {
    if |b| >= 3 {
      EncodeIsLetters(b[3..]);
    }
  }

  lemma {:induction false} RanksOfLetters(r: seq<nat>)
    requires forall k :: 0 <= k < |r| ==> r[k] < 64
    ensures Unbroken(Letters(r)) == Letters(r) && Ranks(Letters(r)) == Some(r)
  {
    if r != [] {
      RankOfLetter(r[0]);
      RanksOfLetters(r[1..]);
      assert Letters(r)[1..] == Letters(r[1..]);
      assert Letters(r) == [Letter(r[0])] + Letters(r[1..]);
      assert r == [r[0]] + r[1..];
    }
  }

  lemma {:induction false} JoinOfSixes(b: seq<Byte>)
    ensures Join(Sixes(b)) == Some(b)
  {
    if |b| == 1 {
      Regroup(b[0], 0, 0);
      assert Join(Sixes(b)) == Some([b[0]]) && b == [b[0]];
    } else if |b| == 2 {
      Regroup(b[0], b[1], 0);
      assert Join(Sixes(b)) == Some([b[0], b[1]]) && b == [b[0], b[1]];
    } else if |b| >= 3 {
      Regroup(b[0], b[1], b[2]);
      JoinOfSixes(b[3..]);
      assert Sixes(b)[4..] == Sixes(b[3..]);
      assert b == [b[0], b[1], b[2]] + b[3..];
    }
  }

  lemma Regroup(x: Byte, y: Byte, z: Byte)
    ensures x / 4 * 4 + (x % 4 * 16 + y / 16) / 16 == x
    ensures (x % 4 * 16 + y / 16) % 16 * 16 + (y % 16 * 4 + z / 64) / 4 == y
    ensures (y % 16 * 4 + z / 64) % 4 * 64 + z % 64 == z
  {
  }

  lemma DecodeUndoesEncode(b: seq<Byte>)
    ensures Decode(Encode(b)) == Some(b)
  {
    EncodeIsLetters(b);
    RanksOfLetters(Sixes(b));
    JoinOfSixes(b);
  }

  lemma NoDot(b: seq<Byte>)
    ensures '.' !in Encode(b)
  {
    EncodeIsLetters(b);
    forall k | 0 <= k < |Sixes(b)| ensures Letter(Sixes(b)[k]) != '.' {
      RankOfLetter(Sixes(b)[k]);
    }
  }
}
