/** Whole runs over one database: any number of processes and releases declaring,
    creating and deleting, beside migrations that do not use the links' names. */
module LinkRuns {
  import opened LinkDefinitions
  import opened LinkSchema

  /** `noted` are declarations that committed and are about to be remembered. */
  datatype State = State(db: Db, registry: map<string, map<string, Definition>>, noted: set<(string, Definition)>)

  datatype Action =
    | ActDeclare(p: string, d: Definition)
    | ActRemember(p: string, d: Definition)
    | ActCreate(p: string, name: string, pair: Pair)
    | ActDelete(p: string, name: string, pair: Pair)
    | ActMigrate(name: string, relation: Relation)
    | ActRestart(p: string)

  /** A relation name some link, or the ledger, would use. */
  ghost predicate LinkOwned(relation: string) {
    exists name, role :: Has(name, role) && relation == RelationName(name, role)
  }

  /** An index on a table some link, or the ledger, would use. */
  ghost predicate OnALinkTable(r: Relation) {
    exists name :: Has(name, TheTable) && IndexOn(r, TableOf(name))
  }

  function Registered(s: State, p: string): map<string, Definition> {
    if p in s.registry then s.registry[p] else map[]
  }

  ghost predicate Enabled(s: State, a: Action) {
    match a
    case ActDeclare(_, d) => ValidDefinition(d)
    case ActRemember(p, d) => (p, d) in s.noted
    case ActCreate(p, name, _) => name in Registered(s, p)
    case ActDelete(p, name, _) => name in Registered(s, p)
    case ActMigrate(name, relation) =>
      && !LinkOwned(name) && !OnALinkTable(relation)
      && (name in s.db.catalog ==> !OnALinkTable(s.db.catalog[name]))
    case ActRestart(_) => true
  }

  ghost function Step(s: State, a: Action): State
    requires Enabled(s, a)
  {
    match a
    case ActDeclare(p, d) =>
      var (after, outcome) := Declare(s.db, d);
      s.(db := after, noted := if outcome == Committed then s.noted + {(p, d)} else s.noted)
    case ActRemember(p, d) => s.(registry := s.registry[p := Registered(s, p)[d.name := d]])
    case ActCreate(_, name, pair) => s.(db := InsertPair(s.db, TableOf(name), pair).0)
    case ActDelete(_, name, pair) => s.(db := DeletePair(s.db, TableOf(name), pair).0)
    case ActMigrate(name, relation) => s.(db := s.db.(catalog := s.db.catalog[name := relation]))
    case ActRestart(p) => s.(registry := s.registry[p := map[]], noted := set x | x in s.noted && x.0 != p)
  }

  /** No ordinary table and no index stands under a link's or the ledger's name, or on
      its table. */
  ghost predicate Starts(s: State) {
    && s.db.ledger == map[] && s.registry == map[] && s.noted == {}
    && Harmless(s.db, LEDGER_TABLE) && Unindexed(s.db, LEDGER_TABLE)
    && forall name :: ValidName(name) ==> Harmless(s.db, TableOf(name)) && Clear(s.db, NamesOf(name))
  }

  /** The key index of some link's table, or of the ledger's. */
  ghost predicate IsKey(db: Db, i: string) {
    i in db.catalog && exists b, k :: Has(b, TheKey(k)) && i == RelationName(b, TheKey(k))
                                      && db.catalog[i] == KeyIndex(TableOf(b), true)
  }

  /** Nothing of a link stands: its table's name at most bears another table's key. */
  ghost predicate Clear(db: Db, n: Names) {
    && (Harmless(db, n.table) || IsKey(db, n.table))
    && Harmless(db, n.from) && Harmless(db, n.to) && Harmless(db, n.lookup)
    && Unindexed(db, n.table)
  }

  predicate Unindexed(db: Db, table: string) {
    forall i :: i in db.catalog ==> !IndexOn(db.catalog[i], table)
  }

  /** Free, or neither a table nor an index. */
  predicate Harmless(db: Db, relation: string) {
    relation in db.catalog ==> db.catalog[relation].Other?
  }

  ghost predicate IsRun(states: seq<State>, actions: seq<Action>) {
    && |states| == |actions| + 1 && Starts(states[0])
    && forall i :: 0 <= i < |actions| ==>
         Enabled(states[i], actions[i]) && states[i + 1] == Step(states[i], actions[i])
  }

  // ----- the invariant

  /** A link's cardinality, as the ledger has it. */
  ghost predicate Promises(db: Db, name: string, c: Cardinality) {
    name in db.ledger && Defined(c) && db.ledger[name].cardinality == Print(c)
  }

  /** The schema is exactly what the ledger promises, and the pairs satisfy it. */
  ghost predicate Kept(db: Db, name: string, c: Cardinality) {
    Promises(db, name, c) && Exact(db, NamesOf(name), c) && Admits(c, RowsOf(db, TableOf(name)))
  }

  ghost predicate LinkOk(db: Db, name: string) {
    if name in db.ledger then exists c :: Kept(db, name, c) else Clear(db, NamesOf(name))
  }

  /** What a process has declared is the ledger's relation, maybe since widened. */
  ghost predicate Follows(db: Db, d: Definition) {
    && ValidDefinition(d) && d.name in db.ledger && SidesMatch(db.ledger[d.name], d)
    && exists c :: Promises(db, d.name, c) && d.cardinality <= c
  }

  /** The ledger's table is ready, or there is nothing of it. */
  predicate LedgerOk(db: Db) {
    LedgerReady(db) || (Harmless(db, LEDGER_TABLE) && Unindexed(db, LEDGER_TABLE) && db.ledger == map[])
  }

  /** The link, or the ledger, has its table. */
  predicate Made(db: Db, name: string) {
    name in db.ledger || (name == LEDGER && LedgerReady(db))
  }

  /** The first choice for a key's name is taken, by the key or by what stood there. */
  ghost predicate KeysTaken(db: Db) {
    forall name :: Made(db, name) ==> KeyOf(TableOf(name), 0) in db.catalog
  }

  ghost predicate LinksOk(db: Db) {
    forall name :: ValidName(name) ==> LinkOk(db, name)
  }

  ghost predicate DbOk(db: Db) {
    && (forall name :: name in db.ledger ==> ValidName(name))
    && LedgerOk(db) && KeysTaken(db) && LinksOk(db)
  }

  ghost predicate Followers(s: State, db: Db) {
    && (forall x :: x in s.noted ==> Follows(db, x.1))
    && (forall p, name :: p in s.registry && name in s.registry[p] ==>
          s.registry[p][name].name == name && Follows(db, s.registry[p][name]))
  }

  ghost predicate Inv(s: State) {
    DbOk(s.db) && Followers(s, s.db)
  }

  /** The ledger of `t` holds every row of `b`, its ends unchanged and its cardinality
      not narrower. */
  ghost predicate Widens(b: Db, t: Db) {
    forall name :: name in b.ledger ==> Wider(b, t, name)
  }

  ghost predicate Wider(b: Db, t: Db, name: string)
    requires name in b.ledger
  {
    && name in t.ledger
    && t.ledger[name].(cardinality := "") == b.ledger[name].(cardinality := "")
    && (t.ledger[name] == b.ledger[name]
        || exists c, e :: Promises(b, name, c) && Promises(t, name, e) && c <= e)
  }

  lemma PrintIsInjective(c: Cardinality, e: Cardinality)
    requires Defined(c) && Defined(e) && Print(c) == Print(e)
    ensures c == e
  {
    ParseUndoesPrint(Print(c), c);
    ParseUndoesPrint(Print(c), e);
  }

  lemma FollowsStays(b: Db, t: Db, d: Definition)
    requires Follows(b, d) && Widens(b, t)
    ensures Follows(t, d)
  {
    assert Wider(b, t, d.name);
    var c :| Promises(b, d.name, c) && d.cardinality <= c;
    if t.ledger[d.name] == b.ledger[d.name] {
      assert Promises(t, d.name, c);
    } else {
      var c0, e :| Promises(b, d.name, c0) && Promises(t, d.name, e) && c0 <= e;
      PrintIsInjective(c, c0);
      assert Promises(t, d.name, e) && d.cardinality <= e;
    }
  }

  // ----- a declaration

  /** What the ledger change leaves of the row. */
  lemma NotedIs(db: Db, d: Definition, c: Cardinality)
    requires ValidDefinition(d) && Promises(db, d.name, c)
    ensures ChangeOf(db.ledger[d.name], d).Conflicts? <==>
              !SidesMatch(db.ledger[d.name], d) || d.cardinality < c
    ensures !ChangeOf(db.ledger[d.name], d).Conflicts? ==>
              && Promises(Noted(db, d), d.name, d.cardinality)
              && Noted(db, d).ledger[d.name].(cardinality := "") == db.ledger[d.name].(cardinality := "")
  {
    ParseUndoesPrint(Print(c), c);
    if Print(c) == Print(d.cardinality) {
      PrintIsInjective(c, d.cardinality);
    }
  }

  /** A declaration that commits makes the schema exact, and nothing stored stood in
      the way: a known link's declaration fails only on a conflict. */
  lemma KnownDeclares(db: Db, d: Definition, c: Cardinality)
    requires ValidDefinition(d) && LedgerReady(db) && Kept(db, d.name, c)
    ensures Declare(db, d).1 ==
              if SidesMatch(db.ledger[d.name], d) && c <= d.cardinality then Committed else Conflict
    ensures Declare(db, d).1 == Committed ==> Kept(Declare(db, d).0, d.name, d.cardinality)
  {
    var n := NamesOf(d.name);
    NamesAreApart(d.name);
    NotedIs(db, d, c);
    DeclareIs(db, d);
    if SidesMatch(db.ledger[d.name], d) && c <= d.cardinality {
      AdmitsWider(c, d.cardinality, RowsOf(db, TableOf(d.name)));
      ExactFits(db, n, c, d.cardinality);
      CommitIsExactIffUnhindered(db, d);
      BuiltIs(Noted(db, d), n, d.cardinality);
    }
  }

  lemma AdmitsWider(c: Cardinality, e: Cardinality, rows: set<Pair>)
    requires Defined(c) && Defined(e) && c <= e && Admits(c, rows)
    ensures Admits(e, rows)
  {
  }

  lemma ExactFits(db: Db, n: Names, c: Cardinality, e: Cardinality)
    requires Apart(n) && Defined(c) && Defined(e) && c <= e && Exact(db, n, c) && Admits(c, RowsOf(db, n.table))
    ensures DdlRuns(db, n, e) && IndexesFit(db, n, e) && Unhindered(db, n, e)
  {
  }

  predicate NameFree(db: Db, n: Names) {
    n.table !in db.catalog && n.from !in db.catalog && n.to !in db.catalog && n.lookup !in db.catalog
  }

  /** A new link commits exactly when nothing bears any of its names, the key of another
      table included. */
  lemma NewDeclares(db: Db, d: Definition)
    requires ValidDefinition(d) && LedgerReady(db) && d.name !in db.ledger && Clear(db, NamesOf(d.name))
    ensures Declare(db, d).1 == if NameFree(db, NamesOf(d.name)) then Committed else Failed
    ensures Declare(db, d).1 == Committed ==> Kept(Declare(db, d).0, d.name, d.cardinality)
  {
    var n := NamesOf(d.name);
    NamesAreApart(d.name);
    DeclareIs(db, d);
    if DdlRuns(db, n, d.cardinality) && IndexesFit(db, n, d.cardinality) {
      ClearFits(db, n, d.cardinality);
      CommitIsExactIffUnhindered(db, d);
      NewRows(Noted(db, d), n, d.cardinality);
      assert Promises(Noted(db, d), d.name, d.cardinality);
    }
  }

  lemma NewRows(db: Db, n: Names, c: Cardinality)
    requires Apart(n) && Defined(c) && n.table !in db.catalog
    ensures RowsOf(Built(db, n, c), n.table) == {} && Built(db, n, c).ledger == db.ledger
  {
    BuiltIs(db, n, c);
  }

  lemma ClearFits(db: Db, n: Names, c: Cardinality)
    requires Apart(n) && Defined(c) && Clear(db, n) && DdlRuns(db, n, c) && IndexesFit(db, n, c)
    ensures NameFree(db, n)
  {
    assert NeedsFrom(c) ==> n.from in Required(n, c);
    assert NeedsTo(c) ==> n.to in Required(n, c);
    assert NeedsLookup(c) ==> n.lookup in Required(n, c);
  }

  /** The other links keep their relations and their pairs; one not declared may find
      its table's name given to a key. */
  ghost predicate SameFor(b: Db, t: Db, n: Names) {
    && (Untouched(b, t, n.table) || (n.table !in b.catalog && IsKey(t, n.table)))
    && Untouched(b, t, n.from) && Untouched(b, t, n.to) && Untouched(b, t, n.lookup)
    && (Untouched(b, t, n.table) ==> RowsOf(t, n.table) == RowsOf(b, n.table))
    && SameIndexes(b, t, n.table)
  }

  predicate SameIndexes(b: Db, t: Db, table: string) {
    && (forall i :: i in t.catalog && IndexOn(t.catalog[i], table) ==> i in b.catalog && t.catalog[i] == b.catalog[i])
    && (forall i :: i in b.catalog && IndexOn(b.catalog[i], table) ==> i in t.catalog && t.catalog[i] == b.catalog[i])
  }

  lemma SameStaysOk(b: Db, t: Db, name: string)
    requires LinkOk(b, name) && SameFor(b, t, NamesOf(name))
    requires (name in t.ledger <==> name in b.ledger) && (name in b.ledger ==> t.ledger[name] == b.ledger[name])
    ensures LinkOk(t, name)
  {
    var n := NamesOf(name);
    if name in b.ledger {
      var c :| Kept(b, name, c);
      SameStaysExact(b, t, n, c);
      assert Kept(t, name, c);
    } else {
      SameStaysClear(b, t, n);
    }
  }

  lemma SameStaysExact(b: Db, t: Db, n: Names, c: Cardinality)
    requires Exact(b, n, c) && SameFor(b, t, n)
    ensures Exact(t, n, c)
  {
    var i :| i in b.catalog && Elsewhere(n, i) && KeyOn(b.catalog[i], n.table);
    assert i in t.catalog && KeyOn(t.catalog[i], n.table);
  }

  lemma SameStaysClear(b: Db, t: Db, n: Names)
    requires Clear(b, n) && SameFor(b, t, n)
    ensures Clear(t, n)
  {
  }

  lemma FourNamesApart(name: string, other: string, role: Role)
    requires ValidName(name) && Has(other, role) && name != other && !role.TheKey?
    ensures Elsewhere(NamesOf(name), RelationName(other, role))
  {
    RelationNamesApart(name, TheTable, other, role);
    RelationNamesApart(name, TheFromIndex, other, role);
    RelationNamesApart(name, TheToIndex, other, role);
    RelationNamesApart(name, TheLookup, other, role);
  }

  /** A new key can only meet the table's name of another link, and one that was free. */
  lemma KeyMeetsTablesOnly(db: Db, owner: string, other: string)
    requires ValidName(other) && Has(owner, TheTable) && owner != other
    ensures var key, o := KeyName(db.catalog, TableOf(owner)), NamesOf(other);
            key != o.from && key != o.to && key != o.lookup && key !in db.catalog
    ensures forall t: Db :: var key := KeyName(db.catalog, TableOf(owner));
              key in t.catalog && t.catalog[key] == KeyIndex(TableOf(owner), true) ==> IsKey(t, key)
  {
    var key := KeyName(db.catalog, TableOf(owner));
    var k :| key == KeyOf(TableOf(owner), k);
    assert Has(owner, TheKey(k)) && key == RelationName(owner, TheKey(k));
    RelationNamesApart(owner, TheKey(k), other, TheFromIndex);
    RelationNamesApart(owner, TheKey(k), other, TheToIndex);
    RelationNamesApart(owner, TheKey(k), other, TheLookup);
  }

  lemma BuiltSparesOthers(db: Db, noted: Db, name: string, c: Cardinality, other: string)
    requires ValidName(name) && ValidName(other) && name != other && Defined(c) && LinkOk(db, name)
    requires noted.catalog == db.catalog && noted.rows == db.rows
    ensures SameFor(db, Built(noted, NamesOf(name), c), NamesOf(other))
  {
    var n, o := NamesOf(name), NamesOf(other);
    FourNamesApart(name, other, TheTable);
    FourNamesApart(name, other, TheFromIndex);
    FourNamesApart(name, other, TheToIndex);
    FourNamesApart(name, other, TheLookup);
    NamesAreApart(name);
    KeyMeetsTablesOnly(noted, name, other);
    OwnNamesHoldNothing(db, name, o.table);
    BuiltIsSameFor(noted, n, c, o);
  }

  /** What stands under a link's index names stands on no other table. */
  predicate NoneOn(db: Db, n: Names, table: string) {
    && (n.from in db.catalog ==> !IndexOn(db.catalog[n.from], table))
    && (n.to in db.catalog ==> !IndexOn(db.catalog[n.to], table))
    && (n.lookup in db.catalog ==> !IndexOn(db.catalog[n.lookup], table))
  }

  lemma OwnNamesHoldNothing(db: Db, name: string, table: string)
    requires LinkOk(db, name) && table != TableOf(name)
    ensures NoneOn(db, NamesOf(name), table)
  {
    if name in db.ledger {
      var c :| Kept(db, name, c);
    }
  }

  lemma BuiltIsSameFor(db: Db, n: Names, c: Cardinality, o: Names)
    requires Apart(n) && Defined(c) && NoneOn(db, n, o.table)
    requires Elsewhere(n, o.table) && Elsewhere(n, o.from) && Elsewhere(n, o.to) && Elsewhere(n, o.lookup)
    requires var key := KeyName(db.catalog, n.table);
             && key != o.from && key != o.to && key != o.lookup
             && forall t: Db :: key in t.catalog && t.catalog[key] == KeyIndex(n.table, true) ==> IsKey(t, key)
    ensures SameFor(db, Built(db, n, c), o)
  {
    BuiltLeavesOthers(db, n, c, o.from);
    BuiltLeavesOthers(db, n, c, o.to);
    BuiltLeavesOthers(db, n, c, o.lookup);
    BuiltKeepsIndexes(db, n, c, o.table);
    BuiltOrKey(db, n, c, o.table);
  }

  /** Another table's name is left alone, or was free and is given to the new key. */
  lemma BuiltOrKey(db: Db, n: Names, c: Cardinality, table: string)
    requires Apart(n) && Defined(c) && Elsewhere(n, table)
    ensures var t, key := Built(db, n, c), KeyName(db.catalog, n.table);
            if Untouched(db, t, table) then RowsOf(t, table) == RowsOf(db, table)
            else table == key && table !in db.catalog && key in t.catalog && t.catalog[key] == KeyIndex(n.table, true)
  {
    BuiltIs(db, n, c);
    if n.table in db.catalog || table != KeyName(db.catalog, n.table) {
      BuiltLeavesOthers(db, n, c, table);
    } else {
      BuiltHasKey(db, n, c);
    }
  }

  lemma BuiltKeepsIndexes(db: Db, n: Names, c: Cardinality, table: string)
    requires Apart(n) && Defined(c) && NoneOn(db, n, table) && table != n.table
    ensures SameIndexes(db, Built(db, n, c), table)
  {
    var t := Built(db, n, c);
    forall i | i in t.catalog && IndexOn(t.catalog[i], table) ensures i in db.catalog && t.catalog[i] == db.catalog[i] {
      BuiltAddsItsOwn(db, n, c, i);
    }
    BuiltIs(db, n, c);
    forall i | i in db.catalog && IndexOn(db.catalog[i], table) ensures i in t.catalog && t.catalog[i] == db.catalog[i] {
      if i != n.table {
        BuiltLeavesOthers(db, n, c, i);
      }
    }
  }

  // ----- the ledger's table

  lemma LedgerSparesLinks(db: Db, name: string)
    requires ValidName(name)
    ensures SameFor(db, WithLedger(db), NamesOf(name))
  {
    NamesAreOffLedger(name);
    LedgerLeaves(db, NamesOf(name));
    KeyMeetsTablesOnly(db, LEDGER, name);
    if LEDGER_TABLE !in db.catalog {
      LedgerMakes(db);
      LedgerKeepsTables(db, NamesOf(name));
    }
  }

  lemma LedgerMakes(db: Db)
    requires LEDGER_TABLE !in db.catalog
    ensures var led, key := WithLedger(db), KeyName(db.catalog, LEDGER_TABLE);
            && LedgerReady(led) && led.ledger == map[] && led.rows == db.rows
            && key in led.catalog && led.catalog[key] == KeyIndex(LEDGER_TABLE, true)
            && forall i :: i != LEDGER_TABLE && i != key ==> Untouched(db, led, i)
    ensures KeyOf(LEDGER_TABLE, 0) in WithLedger(db).catalog
  {
    FirstChoiceTaken(db.catalog, LEDGER_TABLE, LedgerTable);
  }

  /** Whatever number the search ends at, the name without one is taken afterwards. */
  lemma FirstChoiceTaken(catalog: Catalog, table: string, r: Relation)
    requires table !in catalog
    ensures KeyOf(table, 0) in WithTable(catalog, table, r)
  {
    var k := KeyNumber(catalog.Keys + {table}, table, 0);
    assert k > 0 ==> KeyOf(table, 0) in catalog.Keys + {table};
  }

  lemma LedgerKeepsTables(db: Db, n: Names)
    requires LEDGER_TABLE !in db.catalog && OffLedger(n)
    requires var key := KeyName(db.catalog, LEDGER_TABLE);
             forall t: Db :: key in t.catalog && t.catalog[key] == KeyIndex(LEDGER_TABLE, true) ==> IsKey(t, key)
    ensures SameFor(db, WithLedger(db), n)
  {
    LedgerMakes(db);
    LedgerLeaves(db, n);
    var led := WithLedger(db);
    forall i | i in db.catalog && IndexOn(db.catalog[i], n.table) ensures i in led.catalog && led.catalog[i] == db.catalog[i] {
      assert Untouched(db, led, i);
    }
  }

  lemma LedgerKeeps(db: Db)
    requires DbOk(db)
    ensures DbOk(WithLedger(db)) && WithLedger(db).ledger == db.ledger
  {
    var led := WithLedger(db);
    if LEDGER_TABLE !in db.catalog {
      LedgerMakes(db);
      forall name | ValidName(name) ensures LinkOk(led, name) {
        LedgerSparesLinks(db, name);
        SameStaysOk(db, led, name);
      }
    }
  }

  /** A declaration that the ledger lets begin goes on as from the prepared ledger. */
  lemma DeclareFromLedger(db: Db, d: Definition)
    ensures var led := WithLedger(db);
            if LedgerReady(led) then
              Declare(db, d).1 == Declare(led, d).1 && (Declare(db, d).1 == Committed ==> Declare(db, d).0 == Declare(led, d).0)
            else Declare(db, d).1 == Failed
    ensures Declare(db, d).1 != Committed ==> Declare(db, d).0 == db
  {
  }

  lemma CommitKeepsIt(db: Db, d: Definition)
    requires ValidDefinition(d) && LedgerReady(db) && LinkOk(db, d.name) && Declare(db, d).1 == Committed
    ensures Kept(Declare(db, d).0, d.name, d.cardinality)
    ensures Declare(db, d).0 == Built(Noted(db, d), NamesOf(d.name), d.cardinality)
    ensures SidesMatch(Declare(db, d).0.ledger[d.name], d)
  {
    DeclareIs(db, d);
    BuiltIsLedger(Noted(db, d), NamesOf(d.name), d.cardinality);
    if d.name in db.ledger {
      var c :| Kept(db, d.name, c);
      KnownDeclares(db, d, c);
      NotedIs(db, d, c);
    } else {
      NewDeclares(db, d);
    }
  }

  lemma BuiltIsLedger(db: Db, n: Names, c: Cardinality)
    ensures Built(db, n, c).ledger == db.ledger
  {
  }

  lemma OtherLinkStaysOk(db: Db, d: Definition, name: string)
    requires ValidDefinition(d) && ValidName(name) && name != d.name && LinkOk(db, name) && LinkOk(db, d.name)
    ensures LinkOk(Built(Noted(db, d), NamesOf(d.name), d.cardinality), name)
  {
    var t := Built(Noted(db, d), NamesOf(d.name), d.cardinality);
    BuiltSparesOthers(db, Noted(db, d), d.name, d.cardinality, name);
    BuiltIsLedger(Noted(db, d), NamesOf(d.name), d.cardinality);
    SameStaysOk(db, t, name);
  }

  lemma DeclareKeepsLinks(db: Db, d: Definition)
    requires ValidDefinition(d) && LedgerReady(db) && LinksOk(db) && Declare(db, d).1 == Committed
    ensures LinksOk(Declare(db, d).0)
  {
    CommitKeepsIt(db, d);
    forall name | ValidName(name) ensures LinkOk(Declare(db, d).0, name) {
      if name == d.name {
        assert Kept(Declare(db, d).0, name, d.cardinality);
      } else {
        OtherLinkStaysOk(db, d, name);
      }
    }
  }

  /** Whatever stood under a key's first choice, or the ledger's name, stays there. */
  lemma DeclareKeepsKeys(db: Db, d: Definition)
    requires ValidDefinition(d) && LedgerReady(db) && DbOk(db) && Declare(db, d).1 == Committed
    ensures LedgerReady(Declare(db, d).0) && KeysTaken(Declare(db, d).0)
  {
    var n, noted := NamesOf(d.name), Noted(db, d);
    var t := Declare(db, d).0;
    assert LinkOk(db, d.name);
    CommitKeepsIt(db, d);
    NotedKeepsOthers(db, d);
    BuiltIsLedger(noted, n, d.cardinality);
    NamesAreApart(d.name);
    NamesAreOffLedger(d.name);
    StandsOn(noted, n, d.cardinality, LEDGER_TABLE);
    assert Untouched(noted, t, LEDGER_TABLE);
    forall name | Made(t, name) ensures KeyOf(TableOf(name), 0) in t.catalog {
      KeyIsNoIndexOf(d.name, name);
      if n.table !in db.catalog && name == d.name {
        FirstChoiceTaken(db.catalog, n.table, LINK_TABLE);
        StandsOn(EnsureTable(noted, n.table), n, d.cardinality, KeyOf(n.table, 0));
      } else {
        assert Made(db, name);
        StandsOn(noted, n, d.cardinality, KeyOf(TableOf(name), 0));
      }
    }
  }

  lemma KeyIsNoIndexOf(name: string, owner: string)
    requires ValidName(name) && Has(owner, TheTable)
    ensures Elsewhere(NamesOf(name).(table := ""), KeyOf(TableOf(owner), 0))
  {
    RelationNamesApart(owner, TheKey(0), name, TheFromIndex);
    RelationNamesApart(owner, TheKey(0), name, TheToIndex);
    RelationNamesApart(owner, TheKey(0), name, TheLookup);
  }

  /** Nothing but an index of the link itself is ever dropped. */
  lemma StandsOn(db: Db, n: Names, c: Cardinality, i: string)
    requires Defined(c) && i in db.catalog && i != n.from && i != n.to && i != n.lookup
    ensures i in Built(db, n, c).catalog && Built(db, n, c).catalog[i] == db.catalog[i]
    ensures Built(EnsureTable(db, n.table), n, c) == Built(db, n, c)
  {
  }

  lemma WidensBy(db: Db, t: Db, d: Definition)
    requires ValidDefinition(d) && LedgerReady(db) && LinkOk(db, d.name) && Declare(db, d) == (t, Committed)
    ensures Widens(db, t)
  {
    CommitKeepsIt(db, d);
    BuiltIsLedger(Noted(db, d), NamesOf(d.name), d.cardinality);
    NotedKeepsOthers(db, d);
    forall name | name in db.ledger ensures Wider(db, t, name) {
      if name == d.name {
        RowWidens(db, t, d);
      }
    }
  }

  lemma NotedKeepsOthers(db: Db, d: Definition)
    ensures Noted(db, d).ledger.Keys == db.ledger.Keys + {d.name}
    ensures forall name :: name in db.ledger && name != d.name ==> Noted(db, d).ledger[name] == db.ledger[name]
  {
  }

  lemma RowWidens(db: Db, t: Db, d: Definition)
    requires ValidDefinition(d) && LedgerReady(db) && LinkOk(db, d.name) && d.name in db.ledger
    requires Declare(db, d) == (t, Committed) && t.ledger == Noted(db, d).ledger
    ensures Wider(db, t, d.name)
  {
    DeclareIs(db, d);
    var c :| Kept(db, d.name, c);
    NotedIs(db, d, c);
    assert Promises(t, d.name, d.cardinality) && Promises(db, d.name, c);
  }

  // ----- pairs

  lemma PairsKeepOthers(db: Db, t: Db, name: string, rows: set<Pair>, other: string)
    requires ValidName(name) && ValidName(other) && other != name && LinkOk(db, other)
    requires t == db.(rows := db.rows[TableOf(name) := rows])
    ensures LinkOk(t, other)
  {
    RelationNamesApart(name, TheTable, other, TheTable);
    SameStaysOk(db, t, other);
  }

  /** Fewer pairs satisfy what more pairs satisfied. */
  lemma AdmitsFewer(c: Cardinality, rows: set<Pair>, fewer: set<Pair>)
    requires Admits(c, rows) && fewer <= rows
    ensures Admits(c, fewer)
  {
  }

  lemma PairsKeep(db: Db, name: string, c: Cardinality, rows: set<Pair>)
    requires DbOk(db) && Kept(db, name, c) && Admits(c, rows)
    ensures var t := db.(rows := db.rows[TableOf(name) := rows]); DbOk(t) && Widens(db, t)
  {
    var t := db.(rows := db.rows[TableOf(name) := rows]);
    OnlyPairsChange(db, t);
    PairsKeepLinks(db, t, name, c, rows);
  }

  lemma PairsKeepLinks(db: Db, t: Db, name: string, c: Cardinality, rows: set<Pair>)
    requires LinksOk(db) && Kept(db, name, c) && Admits(c, rows) && ValidName(name)
    requires t == db.(rows := db.rows[TableOf(name) := rows])
    ensures LinksOk(t)
  {
    PairsKeepOwn(db, t, name, c, rows);
    forall other | ValidName(other) ensures LinkOk(t, other) {
      if other != name {
        assert LinkOk(db, other);
        PairsKeepOthers(db, t, name, rows, other);
      }
    }
  }

  lemma PairsKeepOwn(db: Db, t: Db, name: string, c: Cardinality, rows: set<Pair>)
    requires Kept(db, name, c) && Admits(c, rows) && t == db.(rows := db.rows[TableOf(name) := rows])
    ensures LinkOk(t, name)
  {
    assert Exact(t, NamesOf(name), c);
    assert Kept(t, name, c);
  }

  lemma OnlyPairsChange(db: Db, t: Db)
    requires LedgerOk(db) && KeysTaken(db) && t.catalog == db.catalog && t.ledger == db.ledger
    ensures LedgerOk(t) && KeysTaken(t) && Widens(db, t)
  {
    assert forall name :: Made(t, name) ==> Made(db, name);
  }

  lemma PairStepKeeps(s: State, a: Action)
    requires Inv(s) && Enabled(s, a) && (a.ActCreate? || a.ActDelete?)
    ensures DbOk(Step(s, a).db) && Widens(s.db, Step(s, a).db)
  {
    var db, name := s.db, a.name;
    assert Follows(db, Registered(s, a.p)[name]);
    assert LinkOk(db, name);
    var c :| Kept(db, name, c);
    if a.ActCreate? {
      CreateKeeps(db, name, c, a.pair);
    } else {
      DeleteKeeps(db, name, c, a.pair);
    }
  }

  lemma CreateKeeps(db: Db, name: string, c: Cardinality, pair: Pair)
    requires DbOk(db) && ValidName(name) && Kept(db, name, c)
    ensures var t := InsertPair(db, TableOf(name), pair).0; DbOk(t) && Widens(db, t)
  {
    CreateChangesPairs(db, name, c, pair);
    SameOrPairs(db, InsertPair(db, TableOf(name), pair).0, name, c, RowsOf(db, TableOf(name)) + {pair});
  }

  lemma SameOrPairs(db: Db, t: Db, name: string, c: Cardinality, rows: set<Pair>)
    requires DbOk(db) && Kept(db, name, c)
    requires t == db || (t == db.(rows := db.rows[TableOf(name) := rows]) && Admits(c, rows))
    ensures DbOk(t) && Widens(db, t)
  {
    if t != db {
      PairsKeep(db, name, c, rows);
    }
  }

  lemma CreateChangesPairs(db: Db, name: string, c: Cardinality, pair: Pair)
    requires ValidName(name) && Kept(db, name, c)
    ensures var t, rows := InsertPair(db, TableOf(name), pair).0, RowsOf(db, TableOf(name)) + {pair};
            t == db || (t == db.(rows := db.rows[TableOf(name) := rows]) && Admits(c, rows))
  {
    NamesAreApart(name);
    InsertIsExact(db, NamesOf(name), c, pair);
  }

  lemma DeleteKeeps(db: Db, name: string, c: Cardinality, pair: Pair)
    requires DbOk(db) && Kept(db, name, c)
    ensures var t := DeletePair(db, TableOf(name), pair).0; DbOk(t) && Widens(db, t)
  {
    var rows := RowsOf(db, TableOf(name)) - {pair};
    AdmitsFewer(c, RowsOf(db, TableOf(name)), rows);
    PairsKeep(db, name, c, rows);
  }

  lemma DeclareStepKeeps(s: State, a: Action)
    requires Inv(s) && Enabled(s, a) && a.ActDeclare?
    ensures DbOk(Step(s, a).db) && Widens(s.db, Step(s, a).db)
    ensures Declare(s.db, a.d).1 == Committed ==> Follows(Step(s, a).db, a.d)
  {
    var t, led := Declare(s.db, a.d).0, WithLedger(s.db);
    DeclareFromLedger(s.db, a.d);
    if Declare(s.db, a.d).1 == Committed {
      LedgerKeeps(s.db);
      CommitKeepsAll(led, t, a.d);
      assert forall name :: name in s.db.ledger ==> (Wider(led, t, name) ==> Wider(s.db, t, name));
    }
  }

  lemma CommitKeepsAll(db: Db, t: Db, d: Definition)
    requires DbOk(db) && ValidDefinition(d) && LedgerReady(db) && Declare(db, d) == (t, Committed)
    ensures DbOk(t) && Widens(db, t) && Follows(t, d)
  {
    assert LinkOk(db, d.name);
    DeclareKeepsLinks(db, d);
    DeclareKeepsKeys(db, d);
    CommitKeepsIt(db, d);
    WidensBy(db, t, d);
    BuiltIsLedger(Noted(db, d), NamesOf(d.name), d.cardinality);
    assert Promises(t, d.name, d.cardinality);
  }

  /** A migration that stays off the links' names and tables does not concern them. */
  lemma MigrateStepKeeps(s: State, a: Action)
    requires Inv(s) && Enabled(s, a) && a.ActMigrate?
    ensures DbOk(Step(s, a).db) && Widens(s.db, Step(s, a).db)
  {
    var db, t := s.db, Step(s, a).db;
    forall name | ValidName(name) ensures LinkOk(t, name) {
      NotOwned(a.name, name);
      assert Has(name, TheTable) && !IndexOn(a.relation, TableOf(name));
      assert a.name in db.catalog ==> !IndexOn(db.catalog[a.name], TableOf(name));
      MigrateSpares(db, t, a.name, a.relation, name);
      SameStaysOk(db, t, name);
    }
    assert Has(LEDGER, TheTable) && !IndexOn(a.relation, LEDGER_TABLE);
    assert a.name != RelationName(LEDGER, TheTable);
  }

  lemma MigrateSpares(db: Db, t: Db, i: string, r: Relation, name: string)
    requires t == db.(catalog := db.catalog[i := r]) && Elsewhere(NamesOf(name), i)
    requires !IndexOn(r, TableOf(name)) && (i in db.catalog ==> !IndexOn(db.catalog[i], TableOf(name)))
    ensures SameFor(db, t, NamesOf(name))
  {
  }

  lemma NotOwned(relation: string, name: string)
    requires !LinkOwned(relation) && ValidName(name)
    ensures Elsewhere(NamesOf(name), relation)
  {
    assert relation != RelationName(name, TheTable) && relation != RelationName(name, TheFromIndex);
    assert relation != RelationName(name, TheToIndex) && relation != RelationName(name, TheLookup);
  }

  lemma FollowersStay(s: State, t: Db)
    requires Followers(s, s.db) && Widens(s.db, t)
    ensures Followers(s, t)
  {
    forall x | x in s.noted ensures Follows(t, x.1) {
      FollowsStays(s.db, t, x.1);
    }
    forall p, name | p in s.registry && name in s.registry[p] ensures Follows(t, s.registry[p][name]) {
      FollowsStays(s.db, t, s.registry[p][name]);
    }
  }

  lemma StepKeeps(s: State, a: Action)
    requires Inv(s) && Enabled(s, a)
    ensures Inv(Step(s, a)) && Widens(s.db, Step(s, a).db)
  {
    DbStepKeeps(s, a);
    FollowersStay(s, Step(s, a).db);
    FollowersFollow(s, a);
  }

  lemma FollowersFollow(s: State, a: Action)
    requires Enabled(s, a) && Followers(s, Step(s, a).db)
    requires a.ActDeclare? && Declare(s.db, a.d).1 == Committed ==> Follows(Step(s, a).db, a.d)
    ensures Followers(Step(s, a), Step(s, a).db)
  {
  }

  lemma DbStepKeeps(s: State, a: Action)
    requires Inv(s) && Enabled(s, a)
    ensures var t := Step(s, a).db;
            DbOk(t) && Widens(s.db, t) && (a.ActDeclare? && Declare(s.db, a.d).1 == Committed ==> Follows(t, a.d))
  {
    match a
    case ActDeclare(_, _) => DeclareStepKeeps(s, a);
    case ActCreate(_, _, _) => PairStepKeeps(s, a);
    case ActDelete(_, _, _) => PairStepKeeps(s, a);
    case ActMigrate(_, _) => MigrateStepKeeps(s, a);
    case _ =>
  }

  lemma {:induction false} RunKeeps(states: seq<State>, actions: seq<Action>, n: nat)
    requires IsRun(states, actions) && n < |states|
    ensures Inv(states[n])
  {
    if n > 0 {
      RunKeeps(states, actions, n - 1);
      StepKeeps(states[n - 1], actions[n - 1]);
    }
  }

  // ----- what the runs promise

  lemma WiderThrough(a: Db, b: Db, c: Db)
    requires Widens(a, b) && Widens(b, c)
    ensures Widens(a, c)
  {
    forall name | name in a.ledger ensures Wider(a, c, name) {
      assert Wider(a, b, name) && Wider(b, c, name);
      if b.ledger[name] == c.ledger[name] {
        assert forall y :: Promises(b, name, y) ==> Promises(c, name, y);
      } else {
        var z, w :| Promises(b, name, z) && Promises(c, name, w) && z <= w;
        if a.ledger[name] == b.ledger[name] {
          assert Promises(a, name, z);
        } else {
          var x, y :| Promises(a, name, x) && Promises(b, name, y) && x <= y;
          PrintIsInjective(y, z);
          assert Promises(a, name, x) && Promises(c, name, w) && x <= w;
        }
      }
    }
  }

  /** Once in the ledger a link stays there, its two ends never change and its
      cardinality never narrows. */
  lemma {:induction false} TheLedgerOnlyWidens(states: seq<State>, actions: seq<Action>, m: nat, n: nat)
    requires IsRun(states, actions) && m <= n < |states|
    ensures Widens(states[m].db, states[n].db)
  {
    if m < n {
      TheLedgerOnlyWidens(states, actions, m, n - 1);
      RunKeeps(states, actions, n - 1);
      StepKeeps(states[n - 1], actions[n - 1]);
      WiderThrough(states[m].db, states[n - 1].db, states[n].db);
    }
  }

  /** At every moment a declared link has exactly the indexes of the ledger's
      cardinality, and its pairs satisfy it. */
  lemma TheSchemaIsThePromise(states: seq<State>, actions: seq<Action>, n: nat, name: string)
    requires IsRun(states, actions) && n < |states| && name in states[n].db.ledger
    ensures ValidName(name) && exists c :: Kept(states[n].db, name, c)
  {
    RunKeeps(states, actions, n);
    assert LinkOk(states[n].db, name);
  }

  /** A declaration never fails over stored pairs: a known link's commits unless its
      ends differ or it narrows, a new one's unless the ledger's name is taken or, with
      the ledger's table and key there, a relation bears one of its names. */
  lemma DeclarationsMeetNoBadRow(states: seq<State>, actions: seq<Action>, n: nat, d: Definition)
    requires IsRun(states, actions) && n < |states| && ValidDefinition(d)
    ensures var db, led := states[n].db, WithLedger(states[n].db);
            if d.name in db.ledger then
              exists c: Cardinality :: Kept(db, d.name, c) &&
                Declare(db, d).1 == if SidesMatch(db.ledger[d.name], d) && c <= d.cardinality then Committed else Conflict
            else Declare(db, d).1 == if LedgerReady(led) && NameFree(led, NamesOf(d.name)) then Committed else Failed
  {
    RunKeeps(states, actions, n);
    var db := states[n].db;
    LedgerKeeps(db);
    DeclareFromLedger(db, d);
    assert LinkOk(WithLedger(db), d.name);
    if d.name in db.ledger {
      var c :| Kept(db, d.name, c);
      KnownDeclares(db, d, c);
    } else if LedgerReady(WithLedger(db)) {
      NewDeclares(WithLedger(db), d);
    }
  }

  // ----- the names keys take

  predicate Foreign(db: Db, i: string) {
    i in db.catalog && db.catalog[i].Other?
  }

  /** The link bears the name of a table, and the suffix that table's key got. */
  ghost predicate NamedAfterKey(db: Db, name: string) {
    exists b, k :: Made(db, b) && KeyStands(db, b, k) && name == b + KeyTail(k)
  }

  predicate KeyStands(db: Db, b: string, k: nat) {
    KeyOf(TableOf(b), k) in db.catalog && db.catalog[KeyOf(TableOf(b), k)] == KeyIndex(TableOf(b), true)
  }

  /** What keeps a link that is not in the ledger from being declared is exactly this:
      a foreign relation under the ledger's name or one of its four, or a name that is
      another table's with the suffix of its key. */
  lemma NewLinkFailsIffItsNameIsTaken(states: seq<State>, actions: seq<Action>, n: nat, d: Definition)
    requires IsRun(states, actions) && n < |states| && ValidDefinition(d) && d.name !in states[n].db.ledger
    ensures var led, r := WithLedger(states[n].db), NamesOf(d.name);
            Declare(states[n].db, d).1 != Committed <==>
              || Foreign(led, LEDGER_TABLE) || Foreign(led, r.table) || Foreign(led, r.from) || Foreign(led, r.to)
              || Foreign(led, r.lookup) || NamedAfterKey(led, d.name)
  {
    var db, led := states[n].db, WithLedger(states[n].db);
    RunKeeps(states, actions, n);
    LedgerKeeps(db);
    DeclarationsMeetNoBadRow(states, actions, n, d);
    LedgerForeign(led);
    TakenOrForeign(led, d.name);
  }

  lemma TakenOrForeign(led: Db, name: string)
    requires DbOk(led) && ValidName(name) && name !in led.ledger
    ensures var r := NamesOf(name);
            !NameFree(led, r) <==>
              || Foreign(led, r.table) || Foreign(led, r.from) || Foreign(led, r.to)
              || Foreign(led, r.lookup) || NamedAfterKey(led, name)
  {
    assert LinkOk(led, name);
    if IsKey(led, TableOf(name)) {
      TakenByKey(led, name);
    }
    if NamedAfterKey(led, name) {
      var b, k :| Made(led, b) && KeyStands(led, b, k) && name == b + KeyTail(k);
      KeyIsTable(b, k);
    }
  }

  lemma KeyIsTable(b: string, k: nat)
    ensures TableOf(b + KeyTail(k)) == KeyOf(TableOf(b), k)
  {
  }

  lemma LedgerForeign(led: Db)
    requires LEDGER_TABLE in led.catalog && LedgerOk(led)
    ensures LedgerReady(led) <==> !Foreign(led, LEDGER_TABLE)
  {
  }

  lemma TakenByKey(db: Db, name: string)
    requires DbOk(db) && ValidName(name) && IsKey(db, TableOf(name))
    ensures NamedAfterKey(db, name)
  {
    var b, k :| Has(b, TheKey(k)) && TableOf(name) == RelationName(b, TheKey(k))
                && db.catalog[TableOf(name)] == KeyIndex(TableOf(b), true);
    NamedSo(name, b, k);
    IndexedIsMade(db, b, TableOf(name));
    assert KeyStands(db, b, k);
  }

  lemma NamedSo(name: string, b: string, k: nat)
    requires ValidName(name) && Has(b, TheKey(k)) && TableOf(name) == RelationName(b, TheKey(k))
    ensures name == b + KeyTail(k) && TableOf(name) == KeyOf(TableOf(b), k)
  {
    RelationNamesApart(name, TheTable, b, TheKey(k));
  }

  /** Only a table that was made bears an index. */
  lemma IndexedIsMade(db: Db, b: string, i: string)
    requires DbOk(db) && Has(b, TheTable) && i in db.catalog && IndexOn(db.catalog[i], TableOf(b))
    ensures Made(db, b)
  {
    if b != LEDGER {
      assert LinkOk(db, b);
    }
  }

  /** Once a link is declared, one of its name with a key's suffix can never be, in any
      continuation, unless it was before. */
  lemma {:induction false} AKeysNameStaysClosed(states: seq<State>, actions: seq<Action>, m: nat, n: nat, name: string)
    requires IsRun(states, actions) && m <= n < |states|
    requires Made(states[m].db, name) && name + KEY_SUFFIX !in states[m].db.ledger
    ensures Made(states[n].db, name) && name + KEY_SUFFIX !in states[n].db.ledger
  {
    if m < n {
      AKeysNameStaysClosed(states, actions, m, n - 1, name);
      RunKeeps(states, actions, n - 1);
      StepStaysClosed(states[n - 1], actions[n - 1], name);
    }
  }

  lemma StepStaysClosed(s: State, a: Action, name: string)
    requires Inv(s) && Enabled(s, a) && Made(s.db, name) && name + KEY_SUFFIX !in s.db.ledger
    ensures Made(Step(s, a).db, name) && name + KEY_SUFFIX !in Step(s, a).db.ledger
  {
    StepKeeps(s, a);
    var t := Step(s, a).db;
    LedgerStays(s, a);
    assert name in s.db.ledger ==> Wider(s.db, t, name);
    if a.ActDeclare? && a.d.name == name + KEY_SUFFIX {
      ClosedFails(s.db, a.d, name);
    }
  }

  lemma LedgerStays(s: State, a: Action)
    requires Inv(s) && Enabled(s, a) && LedgerReady(s.db)
    ensures LedgerReady(Step(s, a).db)
    ensures forall x :: x in Step(s, a).db.ledger ==> x in s.db.ledger || (a.ActDeclare? && a.d.name == x)
  {
    if a.ActDeclare? {
      DeclareAdds(s.db, a.d);
    } else {
      OthersKeepLedger(s, a);
    }
  }

  lemma OthersKeepLedger(s: State, a: Action)
    requires Enabled(s, a) && !a.ActDeclare?
    ensures Step(s, a).db.ledger == s.db.ledger
    ensures LedgerReady(s.db) ==> LedgerReady(Step(s, a).db)
  {
    if a.ActMigrate? {
      assert Has(LEDGER, TheTable) && a.name != RelationName(LEDGER, TheTable);
    }
  }

  lemma DeclareAdds(db: Db, d: Definition)
    requires DbOk(db) && ValidDefinition(d)
    ensures LedgerReady(db) ==> LedgerReady(Declare(db, d).0)
    ensures Declare(db, d).0.ledger.Keys <= db.ledger.Keys + {d.name}
  {
    var led := WithLedger(db);
    DeclareFromLedger(db, d);
    LedgerKeeps(db);
    if Declare(db, d).1 == Committed {
      assert LinkOk(led, d.name);
      DeclareKeepsKeys(led, d);
      CommitKeepsIt(led, d);
      BuiltIsLedger(Noted(led, d), NamesOf(d.name), d.cardinality);
      NotedKeepsOthers(led, d);
    }
  }

  lemma ClosedFails(db: Db, d: Definition, name: string)
    requires DbOk(db) && ValidDefinition(d) && d.name == name + KEY_SUFFIX && Made(db, name) && d.name !in db.ledger
    ensures Declare(db, d) == (db, Failed)
  {
    KeyIsTable(name, 0);
    assert KeyTail(0) == KEY_SUFFIX;
    assert KeyOf(TableOf(name), 0) in db.catalog;
    assert LinkOk(db, d.name);
    TakenFails(db, d);
  }

  lemma TakenFails(db: Db, d: Definition)
    requires ValidDefinition(d) && LinkOk(db, d.name) && d.name !in db.ledger && LedgerOk(db)
    requires TableOf(d.name) in db.catalog && LEDGER_TABLE in db.catalog
    ensures Declare(db, d) == (db, Failed)
  {
    DeclareFromLedger(db, d);
    if LedgerReady(db) {
      NewDeclares(db, d);
    }
  }

  /** The ledger's own key closes one name, though it is valid: in every run every
      declaration under it fails. */
  lemma TheLedgersNameFails(states: seq<State>, actions: seq<Action>, n: nat, d: Definition)
    requires IsRun(states, actions) && n < |states| && ValidDefinition(d) && d.name == LEDGER + KEY_SUFFIX
    ensures Declare(states[n].db, d) == (states[n].db, Failed)
  {
    var db, led := states[n].db, WithLedger(states[n].db);
    TheLedgersKeyIsNoLink(states, actions, n);
    RunKeeps(states, actions, n);
    LedgerKeeps(db);
    DeclareFromLedger(db, d);
    if LedgerReady(led) {
      ClosedFails(led, d, LEDGER);
    }
  }

  lemma {:induction false} TheLedgersKeyIsNoLink(states: seq<State>, actions: seq<Action>, n: nat)
    requires IsRun(states, actions) && n < |states|
    ensures ValidName(LEDGER + KEY_SUFFIX) && LEDGER + KEY_SUFFIX !in states[n].db.ledger
  {
    KeyNamesAreValid(LEDGER);
    if n > 0 {
      TheLedgersKeyIsNoLink(states, actions, n - 1);
      RunKeeps(states, actions, n - 1);
      LedgersKeyStep(states[n - 1], actions[n - 1]);
    }
  }

  lemma LedgersKeyStep(s: State, a: Action)
    requires Inv(s) && Enabled(s, a) && LEDGER + KEY_SUFFIX !in s.db.ledger
    ensures LEDGER + KEY_SUFFIX !in Step(s, a).db.ledger
  {
    if a.ActDeclare? {
      LedgersKeyDeclares(s.db, a.d, LEDGER + KEY_SUFFIX);
    } else {
      OthersKeepLedger(s, a);
    }
  }

  lemma LedgersKeyDeclares(db: Db, d: Definition, closed: string)
    requires DbOk(db) && ValidDefinition(d) && closed == LEDGER + KEY_SUFFIX && closed !in db.ledger
    ensures closed !in Declare(db, d).0.ledger
  {
    var led := WithLedger(db);
    DeclareAdds(db, d);
    LedgerKeeps(db);
    DeclareFromLedger(db, d);
    if LedgerReady(led) && d.name == closed {
      ClosedFails(led, d, LEDGER);
    }
  }

  const EMPTY := Db(map[], map[], map[])

  lemma EmptyLedger()
    ensures var led := WithLedger(EMPTY);
            && DbOk(led) && LedgerReady(led) && led.ledger == map[]
            && led.catalog.Keys == {LEDGER_TABLE, KeyOf(LEDGER_TABLE, 0)}
  {
    assert DbOk(EMPTY);
    LedgerKeeps(EMPTY);
    assert KeyOf(LEDGER_TABLE, 0) !in EMPTY.catalog.Keys + {LEDGER_TABLE};
  }

  lemma FirstDeclares(d: Definition)
    requires ValidDefinition(d) && d.name != LEDGER + KEY_SUFFIX
    ensures var led := WithLedger(EMPTY);
            && Declare(EMPTY, d) == Declare(led, d) && Declare(led, d).1 == Committed
            && DbOk(Declare(led, d).0) && LedgerReady(Declare(led, d).0) && Declare(led, d).0.ledger.Keys == {d.name}
            && Declare(led, d).0 == Built(Noted(led, d), NamesOf(d.name), d.cardinality)
  {
    var led := WithLedger(EMPTY);
    EmptyLedger();
    DeclareFromLedger(EMPTY, d);
    NamesAreOffLedger(d.name);
    RelationNamesApart(d.name, TheTable, LEDGER, TheKey(0));
    assert LinkOk(led, d.name);
    NewDeclares(led, d);
    CommitKeepsAll(led, Declare(led, d).0, d);
    CommitKeepsIt(led, d);
    DeclareKeepsKeys(led, d);
    BuiltIsLedger(Noted(led, d), NamesOf(d.name), d.cardinality);
  }

  /** The order decides: after a link, one of its name with the suffix fails; before it,
      both are declared, and the later link's key takes the next number. */
  lemma OrderDecides(d: Definition, e: Definition)
    requires ValidDefinition(d) && ValidDefinition(e) && e.name == d.name + KEY_SUFFIX && d.name != LEDGER + KEY_SUFFIX
    ensures var (first, second) := (Declare(EMPTY, d), Declare(EMPTY, e));
            && first.1 == Committed && Declare(first.0, e).1 == Failed
            && second.1 == Committed && Declare(second.0, d).1 == Committed
  {
    var led := WithLedger(EMPTY);
    FirstDeclares(d);
    ClosedFails(Declare(led, d).0, e, d.name);
    LedgerIsNotLonger(d.name);
    FirstDeclares(e);
    var t := Declare(led, e).0;
    EmptyLedger();
    ShorterStaysFree(led, e, d.name);
    assert LinkOk(t, d.name);
    NewDeclares(t, d);
  }

  lemma OneThenNot(s: State, p: string, d: Definition, e: Definition)
    requires ValidDefinition(d) && ValidDefinition(e)
    requires Declare(s.db, d).1 == Committed && Declare(Declare(s.db, d).0, e).1 == Failed
    ensures var t := Step(s, ActDeclare(p, d));
            && t.db == Declare(s.db, d).0 && (p, d) in t.noted
            && Declare(t.db, e).1 == Failed && Step(t, ActDeclare(p, e)) == t
  {
    DeclareFromLedger(Declare(s.db, d).0, e);
  }

  lemma EmptyStarts()
    ensures Starts(State(EMPTY, map[], {}))
  {
  }

  /** As a run from an empty database: the first declaration commits, the second fails. */
  lemma AKeyTakesALinksName(d: Definition, e: Definition, p: string) returns (states: seq<State>, actions: seq<Action>)
    requires ValidDefinition(d) && ValidDefinition(e) && e.name == d.name + KEY_SUFFIX && d.name != LEDGER + KEY_SUFFIX
    ensures IsRun(states, actions) && actions == [ActDeclare(p, d), ActDeclare(p, e)]
    ensures states[0].db == EMPTY && (p, d) in states[1].noted
    ensures Declare(states[1].db, e).1 == Failed && states[2] == states[1]
  {
    OrderDecides(d, e);
    var s := State(EMPTY, map[], {});
    EmptyStarts();
    OneThenNot(s, p, d, e);
    actions := [ActDeclare(p, d), ActDeclare(p, e)];
    var t := Step(s, actions[0]);
    states := [s, t, t];
  }

  lemma LedgerIsNotLonger(name: string)
    requires ValidName(name)
    ensures name + KEY_SUFFIX != LEDGER + KEY_SUFFIX
  {
    if name + KEY_SUFFIX == LEDGER + KEY_SUFFIX {
      SameTail(name, KEY_SUFFIX, LEDGER, KEY_SUFFIX);
    }
  }

  lemma ShorterStaysFree(led: Db, e: Definition, name: string)
    requires ValidDefinition(e) && ValidName(name) && e.name == name + KEY_SUFFIX && name != LEDGER + KEY_SUFFIX
    requires led.catalog.Keys == {LEDGER_TABLE, KeyOf(LEDGER_TABLE, 0)}
    ensures NameFree(Built(Noted(led, e), NamesOf(e.name), e.cardinality), NamesOf(name))
  {
    FreeAtFirst(led, name);
    StaysFree(led, e, name, TheTable);
    StaysFree(led, e, name, TheFromIndex);
    StaysFree(led, e, name, TheToIndex);
    StaysFree(led, e, name, TheLookup);
  }

  lemma FreeAtFirst(led: Db, name: string)
    requires ValidName(name) && name != LEDGER + KEY_SUFFIX
    requires led.catalog.Keys == {LEDGER_TABLE, KeyOf(LEDGER_TABLE, 0)}
    ensures NameFree(led, NamesOf(name))
  {
    NamesAreOffLedger(name);
    RelationNamesApart(name, TheTable, LEDGER, TheKey(0));
    assert Elsewhere(NamesOf(name).(table := ""), KeyOf(LEDGER_TABLE, 0));
  }

  lemma StaysFree(led: Db, e: Definition, name: string, role: Role)
    requires ValidDefinition(e) && ValidName(name) && e.name == name + KEY_SUFFIX && !role.TheKey?
    requires RelationName(name, role) !in led.catalog
    ensures RelationName(name, role) !in Built(Noted(led, e), NamesOf(e.name), e.cardinality).catalog
  {
    var n, i := NamesOf(e.name), RelationName(name, role);
    FourNamesApart(e.name, name, role);
    var k :| KeyName(led.catalog, n.table) == KeyOf(n.table, k);
    RelationNamesApart(name, role, e.name, TheKey(k));
    assert |e.name| > |name|;
    BuiltLeavesOthers(Noted(led, e), n, e.cardinality, i);
  }

  /** An insert under cardinality c: accepted exactly if c admits the pairs it leads to,
      otherwise without effect; an accepted one may be repeated without effect. */
  ghost predicate DecidedBy(db: Db, table: string, c: Cardinality, pair: Pair) {
    var (after, written) := InsertPair(db, table, pair);
    && (written == if Admits(c, RowsOf(db, table) + {pair}) then Done else Taken)
    && (written == Taken ==> after == db)
    && (written == Done ==>
          RowsOf(after, table) == RowsOf(db, table) + {pair} && InsertPair(after, table, pair) == (after, Done))
  }

  lemma KeptDecides(db: Db, name: string, c: Cardinality, pair: Pair)
    requires ValidName(name) && Kept(db, name, c)
    ensures DecidedBy(db, TableOf(name), c, pair)
  {
    NamesAreApart(name);
    InsertIsExact(db, NamesOf(name), c, pair);
    if InsertPair(db, TableOf(name), pair).1 == Done {
      InsertAgain(db, TableOf(name), pair);
    }
  }

  /** A process may create exactly the pairs the ledger's cardinality admits, whatever
      cardinality the process itself declared; doing it again changes nothing. */
  lemma CreateIsDecidedByTheLedger(states: seq<State>, actions: seq<Action>, n: nat, p: string, name: string, pair: Pair)
    requires IsRun(states, actions) && n < |states| && name in Registered(states[n], p)
    ensures exists c :: Kept(states[n].db, name, c) && DecidedBy(states[n].db, TableOf(name), c, pair)
  {
    RunKeeps(states, actions, n);
    var db := states[n].db;
    assert Follows(db, Registered(states[n], p)[name]) && LinkOk(db, name);
    var c :| Kept(db, name, c);
    KeptDecides(db, name, c, pair);
  }

  /** What a process declared is the ledger's relation under a cardinality no freer
      than the ledger's. */
  lemma ProcessesAgreeWithTheLedger(states: seq<State>, actions: seq<Action>, n: nat, p: string, name: string)
    requires IsRun(states, actions) && n < |states| && name in Registered(states[n], p)
    ensures Registered(states[n], p)[name].name == name && Follows(states[n].db, Registered(states[n], p)[name])
  {
    RunKeeps(states, actions, n);
  }
}
