/** Link names, the relation names made from them, and cardinalities. */
module LinkDefinitions {
  import opened Options
  import Decimal

  // ----- names

  const TABLE_PREFIX := "link_"
  const LEDGER := "definitions"
  const FROM_UNIQ := "_from_uniq"
  const TO_UNIQ := "_to_uniq"
  const TO_LOOKUP := "_to_lookup"
  const MAX_NAME_LEN := 40

  /** What PostgreSQL keeps of an identifier, in bytes. */
  const IDENTIFIER_LIMIT := 63

  predicate Letter(c: char) { 'a' <= c <= 'z' }

  predicate NameChar(c: char) { Letter(c) || '0' <= c <= '9' || c == '_' }

  predicate MatchesPattern(s: string) {
    1 <= |s| <= MAX_NAME_LEN && Letter(s[0]) && forall i :: 0 < i < |s| ==> NameChar(s[i])
  }

  predicate HasSuffix(s: string, suffix: string) {
    |suffix| <= |s| && s[|s| - |suffix|..] == suffix
  }

  predicate ValidName(name: string) {
    && MatchesPattern(name) && name != LEDGER
    && !HasSuffix(name, FROM_UNIQ) && !HasSuffix(name, TO_UNIQ) && !HasSuffix(name, TO_LOOKUP)
  }

  function TableOf(name: string): string { TABLE_PREFIX + name }
  function FromIndex(name: string): string { TableOf(name) + FROM_UNIQ }
  function ToIndex(name: string): string { TableOf(name) + TO_UNIQ }
  function LookupIndex(name: string): string { TableOf(name) + TO_LOOKUP }

  const KEY_SUFFIX := "_pkey"

  /** The name PostgreSQL gives the index of a table's primary key: the first that is
      free of _pkey, _pkey1, _pkey2 and so on. */
  function KeyOf(table: string, k: nat): string { table + KeyTail(k) }

  function KeyTail(k: nat): string { KEY_SUFFIX + Numbered(k) }

  function Numbered(k: nat): (s: string)
    ensures forall c :: c in s ==> '0' <= c <= '9'
  {
    if k == 0 then "" else Decimal.Digits(k)
  }

  /** The relation names a link may own, by role. */
  datatype Role = TheTable | TheFromIndex | TheToIndex | TheLookup | TheKey(number: nat)

  function RelationName(name: string, role: Role): string {
    match role
    case TheTable => TableOf(name)
    case TheFromIndex => FromIndex(name)
    case TheToIndex => ToIndex(name)
    case TheLookup => LookupIndex(name)
    case TheKey(k) => KeyOf(TableOf(name), k)
  }

  function Suffix(role: Role): string {
    match role
    case TheTable => ""
    case TheFromIndex => FROM_UNIQ
    case TheToIndex => TO_UNIQ
    case TheLookup => TO_LOOKUP
    case TheKey(k) => KeyTail(k)
  }

  lemma RelationNameIs(name: string, role: Role)
    ensures RelationName(name, role) == TABLE_PREFIX + (name + Suffix(role))
    ensures name + Suffix(TheTable) == name
  {
  }

  lemma SameTail(a: string, s: string, b: string, t: string)
    requires a + s == b + t
    ensures |s| == |t| ==> a == b && s == t
    ensures |s| < |t| ==> HasSuffix(t, s) && a == b + t[..|t| - |s|]
  {
    var whole := a + s;
    assert whole[|a|..] == s && whole[|b|..] == t;
    assert whole[..|a|] == a && whole[..|b|] == b;
    if |s| < |t| {
      assert t[|t| - |s|..] == s;
      assert (b + t)[..|a|] == b + t[..|t| - |s|];
    }
  }

  lemma LastChar(a: string, s: string)
    requires s != ""
    ensures (a + s)[|a + s| - 1] == s[|s| - 1]
  {
  }

  /** The suffixes keep apart: none of the three ends with another. */
  lemma SuffixesApart(s: Role, t: Role)
    requires !s.TheTable? && !t.TheTable? && !s.TheKey? && !t.TheKey?
    requires |Suffix(s)| <= |Suffix(t)| && HasSuffix(Suffix(t), Suffix(s))
    ensures s == t
  {
    assert FROM_UNIQ[|FROM_UNIQ| - 6] == 'm' && TO_UNIQ[|TO_UNIQ| - 6] == 'o';
    assert FROM_UNIQ[|FROM_UNIQ| - 1] == 'q' && TO_UNIQ[|TO_UNIQ| - 1] == 'q' && TO_LOOKUP[|TO_LOOKUP| - 1] == 'p';
    assert Suffix(t)[|Suffix(t)| - |Suffix(s)|..][|Suffix(s)| - 1] == Suffix(t)[|Suffix(t)| - 1];
    assert Suffix(t)[|Suffix(t)| - |Suffix(s)|..][|Suffix(s)| - 6] == Suffix(t)[|Suffix(t)| - 6];
  }

  /** A key's name ends with a digit or a y, which no other suffix does. */
  lemma KeyEnds(a: string, s: Role, b: string, k: nat)
    requires !s.TheTable? && !s.TheKey?
    ensures a + Suffix(s) != b + KeyTail(k)
  {
    LastChar(a, Suffix(s));
    LastChar(b, KeyTail(k));
    assert FROM_UNIQ[|FROM_UNIQ| - 1] == 'q' && TO_UNIQ[|TO_UNIQ| - 1] == 'q' && TO_LOOKUP[|TO_LOOKUP| - 1] == 'p';
    KeyTailEnds(k);
  }

  lemma KeyTailEnds(k: nat)
    ensures var last := KeyTail(k)[|KeyTail(k)| - 1]; last == 'y' || '0' <= last <= '9'
  {
    if k != 0 {
      LastChar(KEY_SUFFIX, Numbered(k));
    } else {
      assert KeyTail(k) == KEY_SUFFIX;
    }
  }

  lemma NumberedIsInjective(j: nat, k: nat)
    requires Numbered(j) == Numbered(k)
    ensures j == k
  {
    if j != 0 && k != 0 {
      Decimal.ValueOfDigits(j);
      Decimal.ValueOfDigits(k);
    }
  }

  /** The number is all the digits a key's name ends with. */
  lemma KeysApart(a: string, j: nat, b: string, k: nat)
    requires a + KeyTail(j) == b + KeyTail(k)
    ensures a == b && j == k
  {
    if |Numbered(j)| < |Numbered(k)| {
      YBeforeNumber(a, j, b, k);
    } else if |Numbered(k)| < |Numbered(j)| {
      YBeforeNumber(b, k, a, j);
    } else {
      SameTail(a, KeyTail(j), b, KeyTail(k));
      assert KeyTail(j)[|KEY_SUFFIX|..] == Numbered(j) && KeyTail(k)[|KEY_SUFFIX|..] == Numbered(k);
      NumberedIsInjective(j, k);
    }
  }

  lemma YBeforeNumber(a: string, j: nat, b: string, k: nat)
    requires |Numbered(j)| < |Numbered(k)|
    ensures a + KeyTail(j) != b + KeyTail(k)
  {
    var x, y := a + KeyTail(j), b + KeyTail(k);
    assert x[|x| - |Numbered(j)| - 1] == KEY_SUFFIX[|KEY_SUFFIX| - 1] == 'y';
    var digit := Numbered(k)[|Numbered(k)| - |Numbered(j)| - 1];
    assert y[|y| - |Numbered(j)| - 1] == digit && digit in Numbered(k);
  }

  /** A link has every role; the ledger is a table with a key. */
  predicate Has(name: string, role: Role) {
    ValidName(name) || (name == LEDGER && (role.TheTable? || role.TheKey?))
  }

  /** The first name's table is called as an index the second's key may get. */
  predicate NamedAsKey(a: string, s: Role, b: string, t: Role) {
    s.TheTable? && t.TheKey? && a == b + KeyTail(t.number)
  }

  lemma TailsApart(a: string, s: Role, b: string, t: Role)
    requires Has(a, s) && Has(b, t) && !s.TheKey? && !t.TheKey?
    requires a + Suffix(s) == b + Suffix(t) && |Suffix(s)| <= |Suffix(t)|
    ensures a == b && s == t
  {
    SameTail(a, Suffix(s), b, Suffix(t));
    assert !t.TheTable? ==> Suffix(t)[|Suffix(t)| - 1] != LEDGER[|LEDGER| - 1];
    assert HasSuffix(b + Suffix(t), Suffix(t)) && a + Suffix(TheTable) == a;
    if !s.TheTable? {
      SuffixesApart(s, t);
    }
  }

  lemma SuffixedApart(a: string, s: Role, b: string, t: Role)
    requires Has(a, s) && Has(b, t)
    ensures a + Suffix(s) == b + Suffix(t) <==> (a == b && s == t) || NamedAsKey(a, s, b, t) || NamedAsKey(b, t, a, s)
  {
    assert a + Suffix(TheTable) == a && b + Suffix(TheTable) == b;
    if a + Suffix(s) == b + Suffix(t) {
      if s.TheKey? && t.TheKey? {
        KeysApart(a, s.number, b, t.number);
      } else if s.TheKey? && !t.TheTable? {
        KeyEnds(b, t, a, s.number);
      } else if t.TheKey? && !s.TheTable? {
        KeyEnds(a, s, b, t.number);
      } else if !s.TheKey? && !t.TheKey? {
        if |Suffix(s)| <= |Suffix(t)| {
          TailsApart(a, s, b, t);
        } else {
          TailsApart(b, t, a, s);
        }
      }
    }
  }

  /** Two relations of links, or of the ledger, share a name exactly if they are the same
      one, or the one is a table whose link bears the other's name and a key's suffix,
      which the validation lets pass. None is long enough to be cut. */
  lemma RelationNamesApart(a: string, s: Role, b: string, t: Role)
    requires Has(a, s) && Has(b, t)
    ensures RelationName(a, s) == RelationName(b, t) <==>
              (a == b && s == t) || NamedAsKey(a, s, b, t) || NamedAsKey(b, t, a, s)
    ensures (s.TheKey? ==> |Numbered(s.number)| <= 13) ==> |RelationName(a, s)| <= IDENTIFIER_LIMIT
  {
    RelationNameIs(a, s);
    RelationNameIs(b, t);
    assert (TABLE_PREFIX + (a + Suffix(s)))[|TABLE_PREFIX|..] == a + Suffix(s);
    assert (TABLE_PREFIX + (b + Suffix(t)))[|TABLE_PREFIX|..] == b + Suffix(t);
    SuffixedApart(a, s, b, t);
  }

  /** Valid names the ledger's own key, and the key of another link, stand in the way of. */
  lemma KeyNamesAreValid(name: string)
    ensures ValidName(LEDGER + KEY_SUFFIX)
    ensures ValidName(name) && |name| + |KEY_SUFFIX| <= MAX_NAME_LEN ==> ValidName(name + KEY_SUFFIX)
  {
    KeyNameIsValid(LEDGER);
    if ValidName(name) && |name| + |KEY_SUFFIX| <= MAX_NAME_LEN {
      KeyNameIsValid(name);
    }
  }

  lemma KeyNameIsValid(name: string)
    requires MatchesPattern(name) && |name| + |KEY_SUFFIX| <= MAX_NAME_LEN
    ensures ValidName(name + KEY_SUFFIX)
  {
    var s := name + KEY_SUFFIX;
    assert forall i :: 0 <= i < |KEY_SUFFIX| ==> NameChar(KEY_SUFFIX[i]);
    assert s[|s| - 1] == 'y' && LEDGER[|LEDGER| - 1] == 's';
    assert FROM_UNIQ[|FROM_UNIQ| - 1] == 'q' && TO_UNIQ[|TO_UNIQ| - 1] == 'q' && TO_LOOKUP[|TO_LOOKUP| - 1] == 'p';
    NoSuchSuffix(s, FROM_UNIQ);
    NoSuchSuffix(s, TO_UNIQ);
    NoSuchSuffix(s, TO_LOOKUP);
  }

  lemma NoSuchSuffix(s: string, suffix: string)
    requires s != "" && suffix != "" && s[|s| - 1] != suffix[|suffix| - 1]
    ensures !HasSuffix(s, suffix)
  {
  }

  // ----- cardinalities

  /** The stored byte; only three values are defined. */
  type Cardinality = c: nat | c < 256 witness 0

  const ONE_TO_ONE: Cardinality := 0
  const ONE_TO_MANY: Cardinality := 1
  const MANY_TO_MANY: Cardinality := 2

  predicate Defined(c: Cardinality) { c <= MANY_TO_MANY }

  function Print(c: Cardinality): string {
    if c == ONE_TO_ONE then "one_to_one"
    else if c == ONE_TO_MANY then "one_to_many"
    else if c == MANY_TO_MANY then "many_to_many"
    else "unknown(" + Decimal.Digits(c) + ")"
  }

  function Parse(s: string): Option<Cardinality> {
    if s == Print(ONE_TO_ONE) then Some(ONE_TO_ONE)
    else if s == Print(ONE_TO_MANY) then Some(ONE_TO_MANY)
    else if s == Print(MANY_TO_MANY) then Some(MANY_TO_MANY)
    else None
  }

  /** Parsing undoes printing, on the defined values and on nothing else. */
  lemma ParseUndoesPrint(s: string, c: Cardinality)
    ensures Parse(s) == Some(c) <==> Defined(c) && s == Print(c)
  {
    assert |Print(ONE_TO_ONE)| == 10 && |Print(ONE_TO_MANY)| == 11 && |Print(MANY_TO_MANY)| == 12;
  }

  predicate WiderThan(c: Cardinality, other: Cardinality) {
    Defined(c) && Defined(other) && c > other
  }

  datatype Pair = Pair(from: string, to: string)

  predicate FromUnique(rows: set<Pair>) {
    forall p, q :: p in rows && q in rows && p.from == q.from ==> p == q
  }

  predicate ToUnique(rows: set<Pair>) {
    forall p, q :: p in rows && q in rows && p.to == q.to ==> p == q
  }

  /** The sets of pairs a cardinality allows. */
  predicate Admits(c: Cardinality, rows: set<Pair>) {
    && (c == ONE_TO_ONE ==> FromUnique(rows) && ToUnique(rows))
    && (c == ONE_TO_MANY ==> ToUnique(rows))
  }

  ghost predicate AdmitsMore(c: Cardinality, other: Cardinality) {
    && (forall rows :: Admits(other, rows) ==> Admits(c, rows))
    && (exists rows :: Admits(c, rows) && !Admits(other, rows))
  }

  /** The numeric comparison is the comparison of what is allowed. */
  lemma WiderMeansAdmitsMore(c: Cardinality, other: Cardinality)
    requires Defined(c) && Defined(other)
    ensures WiderThan(c, other) <==> AdmitsMore(c, other)
  {
    var sharedFrom, sharedTo := {Pair("a", "x"), Pair("a", "y")}, {Pair("a", "x"), Pair("b", "x")};
    assert Pair("a", "x") in sharedFrom && Pair("a", "y") in sharedFrom && !FromUnique(sharedFrom) && ToUnique(sharedFrom);
    assert Pair("a", "x") in sharedTo && Pair("b", "x") in sharedTo && !ToUnique(sharedTo);
    if WiderThan(c, other) {
      if other == ONE_TO_ONE {
        assert c == ONE_TO_MANY ==> Admits(c, sharedFrom);
        assert !Admits(other, sharedFrom) && !Admits(other, sharedTo);
      } else {
        assert Admits(c, sharedTo) && !Admits(other, sharedTo);
      }
    } else {
      assert forall rows :: Admits(c, rows) ==> Admits(other, rows);
    }
  }

  // ----- definitions

  datatype Side = Side(moduleName: string, entity: string, field: string)

  datatype Definition = Definition(name: string, from: Side, to: Side, cardinality: Cardinality)

  predicate ValidDefinition(d: Definition) {
    && ValidName(d.name) && Defined(d.cardinality)
    && MatchesPattern(d.from.moduleName) && MatchesPattern(d.from.field)
    && MatchesPattern(d.to.moduleName) && MatchesPattern(d.to.field)
  }

  /** A ledger row; the entity names are not part of it. */
  datatype Stored = Stored(fromModule: string, fromField: string, toModule: string, toField: string, cardinality: string)

  function AsStored(d: Definition): Stored {
    Stored(d.from.moduleName, d.from.field, d.to.moduleName, d.to.field, Print(d.cardinality))
  }

  predicate SidesMatch(s: Stored, d: Definition) {
    s.(cardinality := "") == AsStored(d).(cardinality := "")
  }

  datatype Change = Unchanged | Widened | Conflicts

  function ChangeOf(s: Stored, d: Definition): Change {
    if !SidesMatch(s, d) then Conflicts
    else if s.cardinality == Print(d.cardinality) then Unchanged
    else
      match Parse(s.cardinality)
      case None => Conflicts
      case Some(held) => if WiderThan(d.cardinality, held) then Widened else Conflicts
  }
}
