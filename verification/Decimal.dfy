/** Base-10 text of integers, as FormatInt writes it and ParseInt reads it. */
module Decimal {
  import opened Options

  const LIMIT := 0x8000_0000_0000_0000

  predicate Int64(n: int) { -LIMIT <= n < LIMIT }

  function DigitOf(d: nat): char
    requires d < 10
  {
    ('0' as int + d) as char
  }

  function Digits(n: nat): (s: string)
    ensures s != "" && forall c :: c in s ==> '0' <= c <= '9'
  {
    if n < 10 then [DigitOf(n)] else Digits(n / 10) + [DigitOf(n % 10)]
  }

  function FormatInt(n: int): string {
    if n < 0 then "-" + Digits(-n) else Digits(n)
  }

  /** None unless every character is a digit and there is one. */
  function Value(s: string): Option<nat> {
    if s == "" then None
    else
      var last := s[|s| - 1];
      if !('0' <= last <= '9') then None
      else
        var d := last as int - '0' as int;
        if |s| == 1 then Some(d)
        else
          match Value(s[..|s| - 1])
          case None => None
          case Some(n) => Some(10 * n + d)
  }

  /** A sign is optional; what does not fit 64 bits is an error. */
  function ParseInt(s: string): Option<int> {
    var signed := s != "" && (s[0] == '-' || s[0] == '+');
    match Value(if signed then s[1..] else s)
    case None => None
    case Some(n) =>
      var r: int := if signed && s[0] == '-' then -(n as int) else n;
      if Int64(r) then Some(r) else None
  }

  lemma {:induction false} ValueOfDigits(n: nat)
    ensures Value(Digits(n)) == Some(n)
  {
    if n >= 10 {
      ValueOfDigits(n / 10);
      assert Digits(n)[..|Digits(n)| - 1] == Digits(n / 10);
    }
  }

  lemma ParseUndoesFormat(n: int)
    requires Int64(n)
    ensures ParseInt(FormatInt(n)) == Some(n)
  {
    if n < 0 {
      ValueOfDigits(-n);
      assert ("-" + Digits(-n))[1..] == Digits(-n);
    } else {
      ValueOfDigits(n);
      assert Digits(n)[0] in Digits(n);
    }
  }

  lemma NoDot(n: int)
    ensures '.' !in FormatInt(n) && FormatInt(n) != ""
  {
  }

  /** A text with a dot in it is no number. */
  lemma {:induction false} DotIsNoValue(s: string)
    requires '.' in s
    ensures Value(s) == None
  {
    var k :| 0 <= k < |s| && s[k] == '.';
    if k < |s| - 1 {
      assert s[..|s| - 1][k] == '.';
      DotIsNoValue(s[..|s| - 1]);
    }
  }

  lemma DotIsNoNumber(s: string)
    requires '.' in s
    ensures ParseInt(s) == None
  {
    var k :| 0 <= k < |s| && s[k] == '.';
    if s[0] == '-' || s[0] == '+' {
      assert s[1..][k - 1] == '.';
      DotIsNoValue(s[1..]);
    } else {
      DotIsNoValue(s);
    }
  }
}
