/** The database as the link service sees it: the catalog that tables and indexes
    share, the stored pairs and the ledger; and one declaration as one transaction. */
module LinkSchema {
  import opened Options
  import opened LinkDefinitions

  datatype Column = FromId | ToId

  type OtherKind = c: char | c != 'r' && c != 'i' witness 'v'

  /** The relations of one schema, whoever made them. A table is known by which of the
      two columns it has, whether it demands a further column, and whether it holds a
      pair twice. A `KeyIndex` is unique over the pair (in the ledger: over the name),
      an `OtherIndex` over anything else but one of the columns alone. A bound index has
      a constraint resting on it. */
  datatype Relation =
    | Table(columns: set<Column>, mandatory: bool, repeats: bool)
    | LedgerTable
    | Index(table: string, column: Column, unique: bool, bound: bool)
    | KeyIndex(table: string, bound: bool)
    | OtherIndex(table: string, bound: bool)
    | Other(kind: OtherKind)

  type Catalog = map<string, Relation>

  /** What the service's own CREATE TABLE makes, beside the index of its key. */
  const LINK_TABLE := Table({FromId, ToId}, false, false)

  const LEDGER_TABLE := TableOf(LEDGER)

  datatype Db = Db(catalog: Catalog, rows: map<string, set<Pair>>, ledger: map<string, Stored>)

  /** pg_class.relkind. */
  function Kind(r: Relation): char {
    match r
    case Table(_, _, _) => 'r'
    case LedgerTable => 'r'
    case Index(_, _, _, _) => 'i'
    case KeyIndex(_, _) => 'i'
    case OtherIndex(_, _) => 'i'
    case Other(kind) => kind
  }

  predicate IndexOn(r: Relation, table: string) {
    Kind(r) == 'i' && r.table == table
  }

  predicate KeyOn(r: Relation, table: string) {
    r.KeyIndex? && r.table == table
  }

  /** An index that no constraint rests on. */
  predicate Droppable(r: Relation) {
    Kind(r) == 'i' && !r.bound
  }

  function RowsOf(db: Db, table: string): set<Pair> {
    if table in db.catalog && table in db.rows then db.rows[table] else {}
  }

  predicate HasColumn(db: Db, table: string, column: Column) {
    table in db.catalog && db.catalog[table].Table? && column in db.catalog[table].columns
  }

  predicate Repeats(db: Db, table: string) {
    table in db.catalog && db.catalog[table].Table? && db.catalog[table].repeats
  }

  datatype Stmt =
    | CreateTable(table: string)
    | CreateIndex(index: string, table: string, column: Column, unique: bool)
    | DropIndex(index: string)

  predicate ColumnUnique(rows: set<Pair>, column: Column) {
    match column
    case FromId => FromUnique(rows)
    case ToId => ToUnique(rows)
  }

  predicate CanBeUnique(db: Db, table: string, column: Column) {
    !Repeats(db, table) && ColumnUnique(RowsOf(db, table), column)
  }

  lemma KeyOfApart(table: string, j: nat, k: nat)
    requires j != k
    ensures KeyOf(table, j) != KeyOf(table, k)
  {
    if KeyOf(table, j) == KeyOf(table, k) {
      KeysApart(table, j, table, k);
    }
  }

  /** The search for a free name. */
  function KeyNumber(taken: set<string>, table: string, k: nat): (j: nat)
    ensures k <= j && KeyOf(table, j) !in taken
    ensures forall i :: k <= i < j ==> KeyOf(table, i) in taken
    decreases |taken|
  {
    if KeyOf(table, k) !in taken then k
    else
      var j := KeyNumber(taken - {KeyOf(table, k)}, table, k + 1);
      KeyOfApart(table, j, k);
      j
  }

  /** The name of a new table's key index. */
  function KeyName(catalog: Catalog, table: string): (key: string)
    ensures key !in catalog && key != table && exists k :: key == KeyOf(table, k)
  {
    KeyOf(table, KeyNumber(catalog.Keys + {table}, table, 0))
  }

  /** CREATE TABLE IF NOT EXISTS with a primary key. */
  function WithTable(catalog: Catalog, table: string, r: Relation): Catalog {
    if table in catalog then catalog
    else catalog[table := r][KeyName(catalog, table) := KeyIndex(table, true)]
  }

  function EnsureTable(db: Db, table: string): Db {
    if table in db.catalog then db
    else db.(catalog := WithTable(db.catalog, table, LINK_TABLE), rows := db.rows[table := {}])
  }

  /** None when the statement fails. A creation skips when the name is taken by a
      relation of any kind, once its table and column are found; a drop skips when
      there is nothing to drop, and fails on an index a constraint rests on. */
  function Execute(db: Db, stmt: Stmt): Option<Db> {
    match stmt
    case CreateTable(table) => Some(EnsureTable(db, table))
    case CreateIndex(index, table, column, unique) =>
      // A view or a partitioned table with such a column fails the later check instead.
      if !HasColumn(db, table, column) then None
      else if index in db.catalog then Some(db)
      else if unique && !CanBeUnique(db, table, column) then None
      else Some(db.(catalog := db.catalog[index := Index(table, column, unique, false)]))
    case DropIndex(index) =>
      if index !in db.catalog then Some(db)
      else if !Droppable(db.catalog[index]) then None
      else Some(db.(catalog := db.catalog - {index}))
  }

  function ExecuteAll(db: Db, stmts: seq<Stmt>): Option<Db>
    decreases |stmts|
  {
    if stmts == [] then Some(db)
    else
      match Execute(db, stmts[0])
      case None => None
      case Some(next) => ExecuteAll(next, stmts[1..])
  }

  // ----- what a definition needs of the schema

  /** The relation names of one link, made once when it is declared. */
  datatype Names = Names(table: string, from: string, to: string, lookup: string)

  function NamesOf(name: string): Names {
    Names(TableOf(name), FromIndex(name), ToIndex(name), LookupIndex(name))
  }

  predicate Elsewhere(n: Names, relation: string) {
    relation != n.table && relation != n.from && relation != n.to && relation != n.lookup
  }

  /** Four names, none of which the table's key can get. */
  ghost predicate Apart(n: Names) {
    && n.table != n.from && n.table != n.to && n.table != n.lookup
    && n.from != n.to && n.from != n.lookup && n.to != n.lookup
    && forall k :: Elsewhere(n, KeyOf(n.table, k))
  }

  /** Nor are they the ledger's, and only the table may bear the name of its key. */
  ghost predicate OffLedger(n: Names) {
    && Elsewhere(n, LEDGER_TABLE)
    && forall k :: Elsewhere(n.(table := ""), KeyOf(LEDGER_TABLE, k))
  }

  lemma NamesAreApart(name: string)
    requires ValidName(name)
    ensures Apart(NamesOf(name))
  {
    RelationNamesApart(name, TheFromIndex, name, TheToIndex);
    RelationNamesApart(name, TheFromIndex, name, TheLookup);
    RelationNamesApart(name, TheToIndex, name, TheLookup);
    RelationNamesApart(name, TheTable, name, TheFromIndex);
    RelationNamesApart(name, TheTable, name, TheToIndex);
    RelationNamesApart(name, TheTable, name, TheLookup);
    forall k ensures Elsewhere(NamesOf(name), KeyOf(TableOf(name), k)) {
      RelationNamesApart(name, TheKey(k), name, TheFromIndex);
      RelationNamesApart(name, TheKey(k), name, TheToIndex);
      RelationNamesApart(name, TheKey(k), name, TheLookup);
    }
  }

  lemma NamesAreOffLedger(name: string)
    requires ValidName(name)
    ensures OffLedger(NamesOf(name))
  {
    RelationNamesApart(name, TheTable, LEDGER, TheTable);
    RelationNamesApart(name, TheFromIndex, LEDGER, TheTable);
    RelationNamesApart(name, TheToIndex, LEDGER, TheTable);
    RelationNamesApart(name, TheLookup, LEDGER, TheTable);
    forall k ensures Elsewhere(NamesOf(name).(table := ""), KeyOf(LEDGER_TABLE, k)) {
      RelationNamesApart(LEDGER, TheKey(k), name, TheFromIndex);
      RelationNamesApart(LEDGER, TheKey(k), name, TheToIndex);
      RelationNamesApart(LEDGER, TheKey(k), name, TheLookup);
    }
  }

  function AllIndexes(n: Names): seq<string> {
    [n.from, n.to, n.lookup]
  }

  function Required(n: Names, c: Cardinality): seq<string> {
    if c == ONE_TO_ONE then [n.from, n.to]
    else if c == ONE_TO_MANY then [n.to]
    else if c == MANY_TO_MANY then [n.lookup]
    else []
  }

  /** The names of `all` that are not among the required ones, in order. */
  function LeftOver(required: seq<string>, all: seq<string>): seq<string> {
    if all == [] then []
    else
      var last := all[|all| - 1];
      LeftOver(required, all[..|all| - 1]) + (if last in required then [] else [last])
  }

  function Creations(n: Names, c: Cardinality): seq<Stmt> {
    [CreateTable(n.table)] +
    (if c == ONE_TO_ONE then [CreateIndex(n.from, n.table, FromId, true), CreateIndex(n.to, n.table, ToId, true)]
     else if c == ONE_TO_MANY then [CreateIndex(n.to, n.table, ToId, true)]
     else if c == MANY_TO_MANY then [CreateIndex(n.lookup, n.table, ToId, false)]
     else [])
  }

  function Drops(indexes: seq<string>): seq<Stmt> {
    if indexes == [] then [] else Drops(indexes[..|indexes| - 1]) + [DropIndex(indexes[|indexes| - 1])]
  }

  function Ddl(n: Names, c: Cardinality): seq<Stmt> {
    Creations(n, c) + Drops(LeftOver(Required(n, c), AllIndexes(n)))
  }

  /** The check after the DDL: kinds only. */
  predicate Verified(db: Db, n: Names, c: Cardinality) {
    && n.table in db.catalog && Kind(db.catalog[n.table]) == 'r'
    && (forall i :: i in Required(n, c) ==> i in db.catalog && Kind(db.catalog[i]) == 'i')
    && (forall i :: i in LeftOver(Required(n, c), AllIndexes(n)) ==> i !in db.catalog)
  }

  // ----- one declaration

  datatype Outcome = Committed | Conflict | Failed

  function StoredFor(db: Db, d: Definition): Stored {
    if d.name in db.ledger then db.ledger[d.name] else AsStored(d)
  }

  /** The ledger row inserted, or kept, or moved to the wider cardinality. */
  function Noted(db: Db, d: Definition): Db {
    var stored := StoredFor(db, d);
    db.(ledger := db.ledger[d.name :=
      if ChangeOf(stored, d).Widened? then stored.(cardinality := Print(d.cardinality)) else stored])
  }

  /** The DDL and the check after it. */
  function Attempt(db: Db, n: Names, c: Cardinality): Option<Db> {
    match ExecuteAll(db, Ddl(n, c))
    case None => None
    case Some(done) => if Verified(done, n, c) then Some(done) else None
  }

  /** The ledger's table is made by the first declaration. */
  function WithLedger(db: Db): Db {
    if LEDGER_TABLE in db.catalog then db
    else db.(catalog := WithTable(db.catalog, LEDGER_TABLE, LedgerTable), ledger := map[])
  }

  predicate LedgerReady(db: Db) {
    LEDGER_TABLE in db.catalog && db.catalog[LEDGER_TABLE] == LedgerTable
  }

  /** One transaction: a conflict or a failure rolls everything back. */
  function Declare(db: Db, d: Definition): (Db, Outcome) {
    var led := WithLedger(db);
    if !LedgerReady(led) then (db, Failed)
    else if ChangeOf(StoredFor(led, d), d).Conflicts? then (db, Conflict)
    else
      match Attempt(Noted(led, d), NamesOf(d.name), d.cardinality)
      case None => (db, Failed)
      case Some(done) => (done, Committed)
  }

  // ----- pairs

  datatype Written = Done | Taken | Broken

  /** A unique index of the table that the pair would break. */
  predicate Violates(db: Db, table: string, pair: Pair) {
    exists i :: i in db.catalog && Refuses(db, i, table, pair)
  }

  predicate Refuses(db: Db, i: string, table: string, pair: Pair)
    requires i in db.catalog
  {
    var r := db.catalog[i];
    r.Index? && r.table == table && r.unique && !ColumnUnique(RowsOf(db, table) + {pair}, r.column)
  }

  predicate HasBoth(db: Db, table: string) {
    HasColumn(db, table, FromId) && HasColumn(db, table, ToId)
  }

  /** A unique index over the pair, for ON CONFLICT to name. */
  predicate HasKey(db: Db, table: string) {
    exists i :: i in db.catalog && KeyOn(db.catalog[i], table)
  }

  /** Both columns, a key over them, and no further column to be filled. */
  predicate TakesPairs(db: Db, table: string) {
    HasBoth(db, table) && HasKey(db, table) && !db.catalog[table].mandatory
  }

  /** INSERT ... ON CONFLICT (from_id, to_id) DO NOTHING: an error without a unique key
      over the pair; otherwise only a repeated pair is let pass, and the other unique
      indexes still refuse. */
  function InsertPair(db: Db, table: string, pair: Pair): (Db, Written) {
    if !TakesPairs(db, table) then (db, Broken)
    else if pair in RowsOf(db, table) then (db, Done)
    else if Violates(db, table, pair) then (db, Taken)
    else (db.(rows := db.rows[table := RowsOf(db, table) + {pair}]), Done)
  }

  function DeletePair(db: Db, table: string, pair: Pair): (Db, Written) {
    if !HasBoth(db, table) then (db, Broken)
    else (db.(rows := db.rows[table := RowsOf(db, table) - {pair}]), Done)
  }

  // ----- the two index lists split the three names

  lemma {:induction false} LeftOverIs(required: seq<string>, all: seq<string>, i: string)
    ensures i in LeftOver(required, all) <==> i in all && i !in required
  {
    if all != [] {
      LeftOverIs(required, all[..|all| - 1], i);
      assert i in all <==> i in all[..|all| - 1] || i == all[|all| - 1];
    }
  }

  predicate NeedsFrom(c: Cardinality) { c == ONE_TO_ONE }
  predicate NeedsTo(c: Cardinality) { c == ONE_TO_ONE || c == ONE_TO_MANY }
  predicate NeedsLookup(c: Cardinality) { c == MANY_TO_MANY }

  lemma ObsoleteIsTheRest(n: Names, c: Cardinality, i: string)
    requires Apart(n)
    ensures i in LeftOver(Required(n, c), AllIndexes(n)) <==>
              (i == n.from && !NeedsFrom(c)) || (i == n.to && !NeedsTo(c)) || (i == n.lookup && !NeedsLookup(c))
  {
    LeftOverIs(Required(n, c), AllIndexes(n), i);
  }

  // ----- what the statements do together

  function NeededColumns(c: Cardinality): set<Column> {
    if NeedsFrom(c) then {FromId, ToId} else {ToId}
  }

  /** The table is there with the columns to index, or about to be made. */
  predicate TableFits(db: Db, n: Names, c: Cardinality) {
    n.table in db.catalog ==> db.catalog[n.table].Table? && NeededColumns(c) <= db.catalog[n.table].columns
  }

  /** Every statement goes through: the table can be indexed, the pairs satisfy the
      unique indexes still to be made, and what must go can be dropped. */
  predicate DdlRuns(db: Db, n: Names, c: Cardinality) {
    && TableFits(db, n, c)
    && (NeedsFrom(c) && n.from !in db.catalog ==> CanBeUnique(db, n.table, FromId))
    && (NeedsTo(c) && n.to !in db.catalog ==> CanBeUnique(db, n.table, ToId))
    && (!NeedsFrom(c) && n.from in db.catalog ==> Droppable(db.catalog[n.from]))
    && (!NeedsTo(c) && n.to in db.catalog ==> Droppable(db.catalog[n.to]))
    && (!NeedsLookup(c) && n.lookup in db.catalog ==> Droppable(db.catalog[n.lookup]))
  }

  function EnsureIndex(db: Db, index: string, r: Relation): Db {
    if index in db.catalog then db else db.(catalog := db.catalog[index := r])
  }

  function Without(db: Db, index: string): Db {
    db.(catalog := db.catalog - {index})
  }

  function FromRelation(n: Names): Relation { Index(n.table, FromId, true, false) }
  function ToRelation(n: Names): Relation { Index(n.table, ToId, true, false) }
  function LookupRelation(n: Names): Relation { Index(n.table, ToId, false, false) }

  /** What is there stays, what is missing is made, what is obsolete goes. */
  function Built(db: Db, n: Names, c: Cardinality): Db {
    var t := EnsureTable(db, n.table);
    if c == ONE_TO_ONE then
      Without(EnsureIndex(EnsureIndex(t, n.from, FromRelation(n)), n.to, ToRelation(n)), n.lookup)
    else if c == ONE_TO_MANY then
      Without(Without(EnsureIndex(t, n.to, ToRelation(n)), n.from), n.lookup)
    else
      Without(Without(EnsureIndex(t, n.lookup, LookupRelation(n)), n.from), n.to)
  }

  function Standing(db: Db, index: string, r: Relation): Relation {
    if index in db.catalog then db.catalog[index] else r
  }

  /** Afterwards `index` is there if needed, as it stood or newly made, and gone otherwise. */
  predicate Settled(db: Db, t: Db, index: string, needed: bool, r: Relation) {
    if needed then index in t.catalog && t.catalog[index] == Standing(db, index, r) else index !in t.catalog
  }

  predicate Untouched(db: Db, t: Db, name: string) {
    (name in t.catalog <==> name in db.catalog) && (name in t.catalog ==> t.catalog[name] == db.catalog[name])
  }

  lemma BuiltLeavesOthers(db: Db, n: Names, c: Cardinality, name: string)
    requires Defined(c) && Elsewhere(n, name) && (n.table in db.catalog || name != KeyName(db.catalog, n.table))
    ensures Untouched(db, Built(db, n, c), name)
  {
    assert Untouched(db, EnsureTable(db, n.table), name);
  }

  /** Whatever `Built` leaves was there before or is the link's own. */
  lemma BuiltAddsItsOwn(db: Db, n: Names, c: Cardinality, i: string)
    requires Defined(c) && i in Built(db, n, c).catalog
    ensures var r := Built(db, n, c).catalog[i];
            (i in db.catalog && r == db.catalog[i]) || r == LINK_TABLE || IndexOn(r, n.table)
  {
    var e := EnsureTable(db, n.table);
    assert Built(db, n, c) == Built(e, n, c);
    IndexesAddTheirOwn(e, n, c, i);
    if i in e.catalog && (i !in db.catalog || e.catalog[i] != db.catalog[i]) {
      assert i == n.table || i == KeyName(db.catalog, n.table);
    }
  }

  lemma IndexesAddTheirOwn(e: Db, n: Names, c: Cardinality, i: string)
    requires Defined(c) && i in Built(e, n, c).catalog && n.table in e.catalog
    ensures var r := Built(e, n, c).catalog[i]; (i in e.catalog && r == e.catalog[i]) || IndexOn(r, n.table)
  {
  }

  /** A new table's key stays. */
  lemma BuiltHasKey(db: Db, n: Names, c: Cardinality)
    requires Apart(n) && Defined(c) && n.table !in db.catalog
    ensures var t, key := Built(db, n, c), KeyName(db.catalog, n.table);
            key !in db.catalog && Elsewhere(n, key) && key in t.catalog && t.catalog[key] == KeyIndex(n.table, true)
  {
    var e, key := EnsureTable(db, n.table), KeyName(db.catalog, n.table);
    assert Elsewhere(n, key);
    assert key in e.catalog && e.catalog[key] == KeyIndex(n.table, true);
    EnsuredLeaves(e, n, c, key);
  }

  lemma EnsuredLeaves(e: Db, n: Names, c: Cardinality, key: string)
    requires Defined(c) && Elsewhere(n, key) && n.table in e.catalog
    ensures Untouched(e, Built(e, n, c), key)
  {
  }

  /** Name by name: what `Built` leaves in the catalog. */
  lemma BuiltIs(db: Db, n: Names, c: Cardinality)
    requires Apart(n) && Defined(c)
    ensures var t := Built(db, n, c);
            && n.table in t.catalog && t.catalog[n.table] == Standing(db, n.table, LINK_TABLE)
            && t.rows == EnsureTable(db, n.table).rows && t.ledger == db.ledger
            && Settled(db, t, n.from, NeedsFrom(c), FromRelation(n))
            && Settled(db, t, n.to, NeedsTo(c), ToRelation(n))
            && Settled(db, t, n.lookup, NeedsLookup(c), LookupRelation(n))
  {
    var e := EnsureTable(db, n.table);
    assert Untouched(db, e, n.from) && Untouched(db, e, n.to) && Untouched(db, e, n.lookup);
    if c == ONE_TO_ONE {
      var u := EnsureIndex(e, n.from, FromRelation(n));
      var v := EnsureIndex(u, n.to, ToRelation(n));
      assert v.catalog[n.from] == u.catalog[n.from] && v.catalog[n.table] == e.catalog[n.table];
    } else if c == ONE_TO_MANY {
      var u := EnsureIndex(e, n.to, ToRelation(n));
      assert u.catalog[n.table] == e.catalog[n.table];
    } else {
      var u := EnsureIndex(e, n.lookup, LookupRelation(n));
      assert u.catalog[n.table] == e.catalog[n.table];
    }
  }

  ghost function Then(db: Option<Db>, stmt: Stmt): Option<Db> {
    match db
    case None => None
    case Some(d) => Execute(d, stmt)
  }

  lemma ExecuteFirst(db: Db, first: Stmt, rest: seq<Stmt>)
    ensures ExecuteAll(db, [first] + rest) ==
            match Execute(db, first) case None => None case Some(next) => ExecuteAll(next, rest)
  {
    assert ([first] + rest)[1..] == rest;
  }

  lemma FourStatements(db: Db, a: Stmt, b: Stmt, c: Stmt, d: Stmt)
    ensures ExecuteAll(db, [a, b, c, d]) == Then(Then(Then(Execute(db, a), b), c), d)
  {
    assert [a, b, c, d] == [a] + [b, c, d] && [b, c, d] == [b] + [c, d] && [c, d] == [c] + [d] && [d] == [d] + [];
    ExecuteFirst(db, a, [b, c, d]);
    if Execute(db, a).Some? {
      var x := Execute(db, a).value;
      ExecuteFirst(x, b, [c, d]);
      if Execute(x, b).Some? {
        var y := Execute(x, b).value;
        ExecuteFirst(y, c, [d]);
        if Execute(y, c).Some? {
          ExecuteFirst(Execute(y, c).value, d, []);
        }
      }
    }
  }

  lemma LeftOverThree(required: seq<string>, a: string, b: string, c: string)
    ensures LeftOver(required, [a, b, c]) ==
            (if a in required then [] else [a]) + (if b in required then [] else [b]) + (if c in required then [] else [c])
  {
    assert [a, b, c][..2] == [a, b] && [a, b][..1] == [a] && [a][..0] == [];
    assert LeftOver(required, [a]) == if a in required then [] else [a];
  }

  lemma DropsTwo(a: string, b: string)
    ensures Drops([a]) == [DropIndex(a)]
    ensures Drops([a, b]) == [DropIndex(a), DropIndex(b)]
  {
    assert [a, b][..1] == [a] && [a][..0] == [];
  }

  lemma CreateIndexIs(db: Db, n: Names, index: string, column: Column, unique: bool)
    ensures Execute(db, CreateIndex(index, n.table, column, unique)) ==
            if !HasColumn(db, n.table, column) then None
            else if unique && index !in db.catalog && !CanBeUnique(db, n.table, column) then None
            else Some(EnsureIndex(db, index, Index(n.table, column, unique, false)))
  {
  }

  /** Another relation's creation does not touch the table. */
  lemma TableStays(db: Db, n: Names, index: string, r: Relation)
    requires index != n.table
    ensures var t := EnsureIndex(db, index, r);
            && RowsOf(t, n.table) == RowsOf(db, n.table) && Repeats(t, n.table) == Repeats(db, n.table)
            && forall c: Column :: HasColumn(t, n.table, c) == HasColumn(db, n.table, c)
  {
  }

  lemma TableMade(db: Db, n: Names, c: Cardinality)
    requires Apart(n)
    ensures var t := EnsureTable(db, n.table);
            && Execute(db, CreateTable(n.table)) == Some(t)
            && RowsOf(t, n.table) == RowsOf(db, n.table) && Repeats(t, n.table) == Repeats(db, n.table)
            && (TableFits(db, n, c) <==> forall x :: x in NeededColumns(c) ==> HasColumn(t, n.table, x))
            && forall i :: i != n.table && (i == n.from || i == n.to || i == n.lookup) ==> Untouched(db, t, i)
  {
    if n.table in db.catalog && !db.catalog[n.table].Table? {
      assert ToId in NeededColumns(c) && !HasColumn(db, n.table, ToId);
    }
  }

  lemma DropIndexIs(db: Db, index: string)
    ensures Execute(db, DropIndex(index)) ==
            if index in db.catalog && !Droppable(db.catalog[index]) then None else Some(Without(db, index))
  {
    if index !in db.catalog {
      assert db.catalog - {index} == db.catalog;
    }
  }

  lemma OneToOneBuilds(db: Db, n: Names)
    requires Apart(n)
    ensures ExecuteAll(db, Ddl(n, ONE_TO_ONE)) == if DdlRuns(db, n, ONE_TO_ONE) then Some(Built(db, n, ONE_TO_ONE)) else None
  {
    var a, b, c, d := CreateTable(n.table), CreateIndex(n.from, n.table, FromId, true),
                      CreateIndex(n.to, n.table, ToId, true), DropIndex(n.lookup);
    LeftOverThree([n.from, n.to], n.from, n.to, n.lookup);
    DropsTwo(n.lookup, n.lookup);
    assert Ddl(n, ONE_TO_ONE) == [a, b, c, d];
    FourStatements(db, a, b, c, d);
    TableMade(db, n, ONE_TO_ONE);
    var t := EnsureTable(db, n.table);
    CreateIndexIs(t, n, n.from, FromId, true);
    TableStays(t, n, n.from, FromRelation(n));
    var u := EnsureIndex(t, n.from, FromRelation(n));
    CreateIndexIs(u, n, n.to, ToId, true);
    DropIndexIs(EnsureIndex(u, n.to, ToRelation(n)), n.lookup);
    assert Untouched(db, t, n.from) && Untouched(db, t, n.to) && Untouched(db, t, n.lookup);
  }

  lemma OneToManyBuilds(db: Db, n: Names)
    requires Apart(n)
    ensures ExecuteAll(db, Ddl(n, ONE_TO_MANY)) == if DdlRuns(db, n, ONE_TO_MANY) then Some(Built(db, n, ONE_TO_MANY)) else None
  {
    var a, b, c, d := CreateTable(n.table), CreateIndex(n.to, n.table, ToId, true), DropIndex(n.from), DropIndex(n.lookup);
    LeftOverThree([n.to], n.from, n.to, n.lookup);
    DropsTwo(n.from, n.lookup);
    assert LeftOver(Required(n, ONE_TO_MANY), AllIndexes(n)) == [n.from, n.lookup];
    assert Ddl(n, ONE_TO_MANY) == [a, b, c, d];
    FourStatements(db, a, b, c, d);
    TableMade(db, n, ONE_TO_MANY);
    var t := EnsureTable(db, n.table);
    CreateIndexIs(t, n, n.to, ToId, true);
    var u := EnsureIndex(t, n.to, ToRelation(n));
    DropIndexIs(u, n.from);
    DropIndexIs(Without(u, n.from), n.lookup);
    assert Untouched(db, t, n.from) && Untouched(db, t, n.to) && Untouched(db, t, n.lookup);
  }

  lemma ManyToManyBuilds(db: Db, n: Names)
    requires Apart(n)
    ensures ExecuteAll(db, Ddl(n, MANY_TO_MANY)) == if DdlRuns(db, n, MANY_TO_MANY) then Some(Built(db, n, MANY_TO_MANY)) else None
  {
    var a, b, c, d := CreateTable(n.table), CreateIndex(n.lookup, n.table, ToId, false), DropIndex(n.from), DropIndex(n.to);
    LeftOverThree([n.lookup], n.from, n.to, n.lookup);
    DropsTwo(n.from, n.to);
    assert LeftOver(Required(n, MANY_TO_MANY), AllIndexes(n)) == [n.from, n.to];
    assert Ddl(n, MANY_TO_MANY) == [a, b, c, d];
    FourStatements(db, a, b, c, d);
    TableMade(db, n, MANY_TO_MANY);
    var t := EnsureTable(db, n.table);
    CreateIndexIs(t, n, n.lookup, ToId, false);
    var u := EnsureIndex(t, n.lookup, LookupRelation(n));
    DropIndexIs(u, n.from);
    DropIndexIs(Without(u, n.from), n.to);
    assert Untouched(db, t, n.from) && Untouched(db, t, n.to) && Untouched(db, t, n.lookup);
  }

  lemma DdlBuilds(db: Db, n: Names, c: Cardinality)
    requires Apart(n) && Defined(c)
    ensures ExecuteAll(db, Ddl(n, c)) == if DdlRuns(db, n, c) then Some(Built(db, n, c)) else None
  {
    if c == ONE_TO_ONE {
      OneToOneBuilds(db, n);
    } else if c == ONE_TO_MANY {
      OneToManyBuilds(db, n);
    } else {
      ManyToManyBuilds(db, n);
    }
  }

  // ----- what a commit means

  /** Where a required index is to stand there is nothing, or an index. */
  predicate IndexesFit(db: Db, n: Names, c: Cardinality) {
    forall i :: i in Required(n, c) && i in db.catalog ==> Kind(db.catalog[i]) == 'i'
  }

  /** A declaration commits exactly if the ledger can be kept and does not contradict
      it, and no other relation and no stored pair is in its way once the ledger's table
      and key are there; what it leaves is `Built`. */
  lemma DeclareIs(db: Db, d: Definition)
    requires ValidDefinition(d)
    ensures var n, led := NamesOf(d.name), WithLedger(db);
            Declare(db, d) ==
            if !LedgerReady(led) then (db, Failed)
            else if ChangeOf(StoredFor(led, d), d).Conflicts? then (db, Conflict)
            else if DdlRuns(led, n, d.cardinality) && IndexesFit(led, n, d.cardinality) then
              (Built(Noted(led, d), n, d.cardinality), Committed)
            else (db, Failed)
  {
    var led := WithLedger(db);
    NamesAreApart(d.name);
    AttemptIs(led, Noted(led, d), NamesOf(d.name), d.cardinality);
  }

  lemma AttemptIs(db: Db, noted: Db, n: Names, c: Cardinality)
    requires Apart(n) && Defined(c) && noted.catalog == db.catalog && noted.rows == db.rows
    ensures Attempt(noted, n, c) == if DdlRuns(db, n, c) && IndexesFit(db, n, c) then Some(Built(noted, n, c)) else None
  {
    CatalogDecides(db, noted, n, c);
    DdlBuilds(noted, n, c);
    if DdlRuns(noted, n, c) {
      BuiltVerifies(noted, n, c);
    }
  }

  lemma CatalogDecides(db: Db, noted: Db, n: Names, c: Cardinality)
    requires noted.catalog == db.catalog && noted.rows == db.rows
    ensures DdlRuns(noted, n, c) <==> DdlRuns(db, n, c)
    ensures IndexesFit(noted, n, c) <==> IndexesFit(db, n, c)
  {
  }

  lemma BuiltVerifies(db: Db, n: Names, c: Cardinality)
    requires Apart(n) && Defined(c) && DdlRuns(db, n, c)
    ensures Verified(Built(db, n, c), n, c) <==> IndexesFit(db, n, c)
  {
    BuiltIs(db, n, c);
    forall i | i in LeftOver(Required(n, c), AllIndexes(n)) ensures i !in Built(db, n, c).catalog {
      ObsoleteIsTheRest(n, c, i);
    }
  }

  /** Required: the right index under the name; obsolete: nothing. */
  predicate Right(db: Db, index: string, needed: bool, r: Relation) {
    if needed then index in db.catalog && db.catalog[index] == r else index !in db.catalog
  }

  /** No index but a key stands on the link's table under a name that is not the link's. */
  predicate NoOtherIndex(db: Db, n: Names) {
    forall i :: i in db.catalog && IndexOn(db.catalog[i], n.table) ==>
      i == n.from || i == n.to || i == n.lookup || KeyOn(db.catalog[i], n.table)
  }

  /** The table's key, under none of the names the DDL drops. */
  predicate OwnKey(db: Db, n: Names) {
    exists i :: i in db.catalog && Elsewhere(n, i) && KeyOn(db.catalog[i], n.table)
  }

  /** The link's own table with its key, and on it exactly the indexes its cardinality
      needs. */
  predicate Exact(db: Db, n: Names, c: Cardinality) {
    && n.table in db.catalog && db.catalog[n.table] == LINK_TABLE && OwnKey(db, n)
    && Right(db, n.from, NeedsFrom(c), FromRelation(n))
    && Right(db, n.to, NeedsTo(c), ToRelation(n))
    && Right(db, n.lookup, NeedsLookup(c), LookupRelation(n))
    && NoOtherIndex(db, n)
  }

  predicate FreeOr(db: Db, relation: string, r: Relation) {
    relation in db.catalog ==> db.catalog[relation] == r
  }

  /** The table's name is free or holds the link's table with its key, each required
      name is free or holds the right index, and no other index stands on the table. */
  predicate Unhindered(db: Db, n: Names, c: Cardinality) {
    && FreeOr(db, n.table, LINK_TABLE) && (n.table in db.catalog ==> OwnKey(db, n))
    && (NeedsFrom(c) ==> FreeOr(db, n.from, FromRelation(n)))
    && (NeedsTo(c) ==> FreeOr(db, n.to, ToRelation(n)))
    && (NeedsLookup(c) ==> FreeOr(db, n.lookup, LookupRelation(n)))
    && NoOtherIndex(db, n)
  }

  /** A committed declaration has its exact schema if and only if nothing hindered it
      before: the check after the DDL sees the kinds of four names alone. */
  lemma CommitIsExactIffUnhindered(db: Db, d: Definition)
    requires ValidDefinition(d) && Declare(db, d).1 == Committed
    ensures var n := NamesOf(d.name);
            Exact(Declare(db, d).0, n, d.cardinality) <==> Unhindered(db, n, d.cardinality)
  {
    var led := WithLedger(db);
    DeclareIs(db, d);
    NamesAreApart(d.name);
    NamesAreOffLedger(d.name);
    BuiltIsExactIffUnhindered(led, Noted(led, d), NamesOf(d.name), d.cardinality);
    LedgerHindersNone(db, NamesOf(d.name), d.cardinality);
  }

  /** The ledger's table and key add to the catalog; where they leave the table to be
      made or indexed they are in nobody's way. */
  lemma LedgerHindersNone(db: Db, n: Names, c: Cardinality)
    requires OffLedger(n) && TableFits(WithLedger(db), n, c)
    ensures Unhindered(WithLedger(db), n, c) <==> Unhindered(db, n, c)
  {
    var led := WithLedger(db);
    LedgerLeaves(db, n);
    if LEDGER_TABLE !in db.catalog {
      var key := KeyName(db.catalog, LEDGER_TABLE);
      assert key != n.table;
      forall i | i != LEDGER_TABLE && i != key ensures Untouched(db, led, i) {
      }
    }
  }

  /** The names of a link are as before, but its table's may now be the ledger's key. */
  lemma LedgerLeaves(db: Db, n: Names)
    requires OffLedger(n)
    ensures var led := WithLedger(db);
            && Untouched(db, led, n.from) && Untouched(db, led, n.to) && Untouched(db, led, n.lookup)
            && (Untouched(db, led, n.table)
                || (n.table !in db.catalog && n.table in led.catalog && led.catalog[n.table] == KeyIndex(LEDGER_TABLE, true)))
            && forall i :: i in led.catalog && IndexOn(led.catalog[i], n.table) ==> i in db.catalog && led.catalog[i] == db.catalog[i]
  {
    if LEDGER_TABLE !in db.catalog {
      var key := KeyName(db.catalog, LEDGER_TABLE);
      var k :| key == KeyOf(LEDGER_TABLE, k);
      assert Elsewhere(n.(table := ""), key);
    }
  }

  lemma BuiltIsExactIffUnhindered(db: Db, noted: Db, n: Names, c: Cardinality)
    requires Apart(n) && Defined(c) && TableFits(db, n, c) && noted.catalog == db.catalog
    ensures Exact(Built(noted, n, c), n, c) <==> Unhindered(db, n, c)
  {
    var t := Built(noted, n, c);
    BuiltIs(noted, n, c);
    SettledIsRight(noted, t, n.from, NeedsFrom(c), FromRelation(n));
    SettledIsRight(noted, t, n.to, NeedsTo(c), ToRelation(n));
    SettledIsRight(noted, t, n.lookup, NeedsLookup(c), LookupRelation(n));
    OtherIndexesStay(noted, n, c);
    KeyStays(noted, n, c);
  }

  lemma KeyStays(db: Db, n: Names, c: Cardinality)
    requires Apart(n) && Defined(c) && TableFits(db, n, c)
    ensures OwnKey(Built(db, n, c), n) <==> n.table !in db.catalog || OwnKey(db, n)
  {
    var t := Built(db, n, c);
    if n.table !in db.catalog {
      BuiltHasKey(db, n, c);
    } else {
      forall i | Elsewhere(n, i) ensures Untouched(db, t, i) {
        BuiltLeavesOthers(db, n, c, i);
      }
    }
  }

  lemma SettledIsRight(db: Db, t: Db, index: string, needed: bool, r: Relation)
    requires Settled(db, t, index, needed, r)
    ensures Right(t, index, needed, r) <==> (needed ==> FreeOr(db, index, r))
  {
  }

  lemma OtherIndexesStay(db: Db, n: Names, c: Cardinality)
    requires Apart(n) && Defined(c) && TableFits(db, n, c)
    ensures NoOtherIndex(Built(db, n, c), n) <==> NoOtherIndex(db, n)
  {
    var t := Built(db, n, c);
    BuiltIs(db, n, c);
    if n.table !in db.catalog {
      BuiltHasKey(db, n, c);
    }
    forall i | Elsewhere(n, i) && (n.table in db.catalog || i != KeyName(db.catalog, n.table))
      ensures Untouched(db, t, i)
    {
      BuiltLeavesOthers(db, n, c, i);
    }
    if NoOtherIndex(t, n) {
      forall i | i in db.catalog && IndexOn(db.catalog[i], n.table)
        ensures i == n.from || i == n.to || i == n.lookup || KeyOn(db.catalog[i], n.table)
      {
        assert i != n.table;
        assert Elsewhere(n, i) ==> Untouched(db, t, i);
      }
    }
    if NoOtherIndex(db, n) {
      forall i | i in t.catalog && IndexOn(t.catalog[i], n.table)
        ensures i == n.from || i == n.to || i == n.lookup || KeyOn(t.catalog[i], n.table)
      {
        assert i != n.table;
        assert Elsewhere(n, i) && i in db.catalog ==> Untouched(db, t, i);
      }
    }
  }

  /** Over the exact schema an insert is accepted exactly if the cardinality admits the
      pairs it leads to. */
  lemma InsertIsExact(db: Db, n: Names, c: Cardinality, pair: Pair)
    requires Apart(n) && Defined(c) && Exact(db, n, c) && Admits(c, RowsOf(db, n.table))
    ensures var rows := RowsOf(db, n.table) + {pair};
            && InsertPair(db, n.table, pair).1 == (if Admits(c, rows) then Done else Taken)
            && (!Admits(c, rows) ==> InsertPair(db, n.table, pair).0 == db)
            && (Admits(c, rows) ==> RowsOf(InsertPair(db, n.table, pair).0, n.table) == rows)
            && (InsertPair(db, n.table, pair).0 == db
                || InsertPair(db, n.table, pair).0 == db.(rows := db.rows[n.table := rows]))
  {
    var rows := RowsOf(db, n.table);
    if pair in rows {
      assert rows + {pair} == rows;
    } else {
      ViolatesIsExact(db, n, c, pair);
    }
  }

  lemma ViolatesIsExact(db: Db, n: Names, c: Cardinality, pair: Pair)
    requires Apart(n) && Defined(c) && Exact(db, n, c)
    ensures Violates(db, n.table, pair) <==> !Admits(c, RowsOf(db, n.table) + {pair})
  {
    assert NeedsFrom(c) ==> (Refuses(db, n.from, n.table, pair) <==> !FromUnique(RowsOf(db, n.table) + {pair}));
    assert NeedsTo(c) ==> (Refuses(db, n.to, n.table, pair) <==> !ToUnique(RowsOf(db, n.table) + {pair}));
    forall i | i in db.catalog && Refuses(db, i, n.table, pair)
      ensures (NeedsFrom(c) && i == n.from) || (NeedsTo(c) && i == n.to)
    {
      assert IndexOn(db.catalog[i], n.table);
    }
  }

  /** Creating a pair that is there changes nothing. */
  lemma InsertAgain(db: Db, table: string, pair: Pair)
    requires InsertPair(db, table, pair).1 == Done
    ensures var after := InsertPair(db, table, pair).0; InsertPair(after, table, pair) == (after, Done)
  {
    assert pair in RowsOf(InsertPair(db, table, pair).0, table);
  }

  /** Deleting a pair that was just created leaves the database as it was before. */
  lemma DeleteUndoesInsert(db: Db, table: string, pair: Pair)
    requires table in db.rows && pair !in RowsOf(db, table) && InsertPair(db, table, pair).1 == Done
    ensures DeletePair(InsertPair(db, table, pair).0, table, pair) == (db, Done)
  {
    var rows := RowsOf(db, table);
    assert rows + {pair} - {pair} == rows;
    assert db.rows[table := rows + {pair}][table := rows] == db.rows;
  }

  // ----- what a hindered commit leads to

  /** A database that already has what a declaration would make is committed as it is. */
  lemma NothingToBuild(db: Db, d: Definition)
    requires ValidDefinition(d) && d.name !in db.ledger && Built(db, NamesOf(d.name), d.cardinality) == db
    requires DdlRuns(db, NamesOf(d.name), d.cardinality) && IndexesFit(db, NamesOf(d.name), d.cardinality)
    requires LedgerReady(db)
    ensures Declare(db, d) == (db.(ledger := db.ledger[d.name := AsStored(d)]), Committed)
  {
    DeclareIs(db, d);
    BuiltIsNothing(db, Noted(db, d), NamesOf(d.name), d.cardinality);
  }

  lemma BuiltIsNothing(db: Db, noted: Db, n: Names, c: Cardinality)
    requires Built(db, n, c) == db && noted == db.(ledger := noted.ledger)
    ensures Built(noted, n, c) == noted
  {
    assert Built(noted, n, c) == Built(db, n, c).(ledger := noted.ledger);
  }

  /** A catalog with the ledger and, with its key, a link's table. */
  ghost function Furnished(n: Names): Catalog {
    map[LEDGER_TABLE := LedgerTable, n.table := LINK_TABLE, KeyOf(n.table, 0) := KeyIndex(n.table, true)]
  }

  lemma FurnishedIs(name: string)
    requires ValidName(name)
    ensures var n, c := NamesOf(name), Furnished(NamesOf(name));
            && Apart(n) && n.from !in c && n.to !in c && n.lookup !in c
            && n.table in c && c[n.table] == LINK_TABLE && LEDGER_TABLE in c && c[LEDGER_TABLE] == LedgerTable
            && KeyOf(n.table, 0) in c && c[KeyOf(n.table, 0)] == KeyIndex(n.table, true)
  {
    var n := NamesOf(name);
    NamesAreApart(name);
    NamesAreOffLedger(name);
    RelationNamesApart(name, TheKey(0), LEDGER, TheTable);
    assert (name + KeyTail(0))[|name + KeyTail(0)| - 1] == 'y' && LEDGER[|LEDGER| - 1] == 's';
    assert Elsewhere(n, KeyOf(n.table, 0));
  }

  /** With a plain index under the required name a one-to-many link commits, and then
      gives one target to two records. */
  lemma ImpostorLetsAViolationIn(d: Definition, a: string, b: string, target: string) returns (db: Db)
    requires ValidDefinition(d) && d.cardinality == ONE_TO_MANY && a != b
    ensures var n := NamesOf(d.name);
            var first := InsertPair(Declare(db, d).0, n.table, Pair(a, target));
            var second := InsertPair(first.0, n.table, Pair(b, target));
            && Declare(db, d).1 == Committed && first.1 == Done && second.1 == Done
            && !Admits(ONE_TO_MANY, RowsOf(second.0, n.table))
  {
    var n := NamesOf(d.name);
    FurnishedIs(d.name);
    db := Db(Furnished(n)[n.to := Index(n.table, ToId, false, false)], map[n.table := {}], map[]);
    ImpostorStands(db, n);
    NothingToBuild(db, d);
    assert KeyOn(Declare(db, d).0.catalog[KeyOf(n.table, 0)], n.table);
    TwoRecordsOneTarget(Declare(db, d).0, n, a, b, target);
  }

  lemma ImpostorStands(db: Db, n: Names)
    requires Apart(n) && db.rows == map[n.table := {}] && n.table in db.catalog && db.catalog[n.table] == LINK_TABLE
    requires n.from !in db.catalog && n.lookup !in db.catalog && n.to in db.catalog && Kind(db.catalog[n.to]) == 'i'
    ensures Built(db, n, ONE_TO_MANY) == db && DdlRuns(db, n, ONE_TO_MANY) && IndexesFit(db, n, ONE_TO_MANY)
  {
    assert Built(db, n, ONE_TO_MANY).catalog == db.catalog;
  }

  lemma TwoRecordsOneTarget(t: Db, n: Names, a: string, b: string, target: string)
    requires a != b && RowsOf(t, n.table) == {} && TakesPairs(t, n.table)
    requires forall i :: i in t.catalog && IndexOn(t.catalog[i], n.table) ==> !t.catalog[i].Index? || !t.catalog[i].unique
    ensures var first := InsertPair(t, n.table, Pair(a, target));
            var second := InsertPair(first.0, n.table, Pair(b, target));
            first.1 == Done && second.1 == Done && !Admits(ONE_TO_MANY, RowsOf(second.0, n.table))
  {
    var u := InsertPair(t, n.table, Pair(a, target)).0;
    assert RowsOf(u, n.table) == {Pair(a, target)};
    var v := InsertPair(u, n.table, Pair(b, target)).0;
    assert RowsOf(v, n.table) == {Pair(a, target), Pair(b, target)};
    assert Pair(a, target) in RowsOf(v, n.table) && Pair(b, target) in RowsOf(v, n.table);
  }

  /** With a unique index of another name on its table a many-to-many link commits, and
      then refuses a pair it admits. */
  lemma FourthIndexRefusesAnAdmittedPair(d: Definition, fourth: string, a: string, x: string, y: string) returns (db: Db)
    requires ValidDefinition(d) && d.cardinality == MANY_TO_MANY && x != y
    requires Elsewhere(NamesOf(d.name), fourth) && fourth != LEDGER_TABLE && fourth != KeyOf(TableOf(d.name), 0)
    ensures var n := NamesOf(d.name);
            var first := InsertPair(Declare(db, d).0, n.table, Pair(a, x));
            && Declare(db, d).1 == Committed && first.1 == Done
            && Admits(MANY_TO_MANY, RowsOf(first.0, n.table) + {Pair(a, y)})
            && InsertPair(first.0, n.table, Pair(a, y)).1 == Taken
  {
    var n := NamesOf(d.name);
    FurnishedIs(d.name);
    db := Db(Furnished(n)[n.lookup := LookupRelation(n)][fourth := Index(n.table, FromId, true, false)],
             map[n.table := {}], map[]);
    LookupStands(db, n);
    NothingToBuild(db, d);
    assert KeyOn(Declare(db, d).0.catalog[KeyOf(n.table, 0)], n.table);
    SecondTargetRefused(Declare(db, d).0, n, fourth, a, x, y);
  }

  lemma LookupStands(db: Db, n: Names)
    requires Apart(n) && db.rows == map[n.table := {}] && n.table in db.catalog && db.catalog[n.table] == LINK_TABLE
    requires n.from !in db.catalog && n.to !in db.catalog && n.lookup in db.catalog && Kind(db.catalog[n.lookup]) == 'i'
    ensures Built(db, n, MANY_TO_MANY) == db && DdlRuns(db, n, MANY_TO_MANY) && IndexesFit(db, n, MANY_TO_MANY)
  {
    assert Built(db, n, MANY_TO_MANY).catalog == db.catalog;
  }

  lemma SecondTargetRefused(t: Db, n: Names, fourth: string, a: string, x: string, y: string)
    requires x != y && RowsOf(t, n.table) == {} && TakesPairs(t, n.table)
    requires forall i :: i in t.catalog && IndexOn(t.catalog[i], n.table) && i != fourth ==> !t.catalog[i].Index? || !t.catalog[i].unique
    requires fourth in t.catalog && t.catalog[fourth] == Index(n.table, FromId, true, false)
    ensures var first := InsertPair(t, n.table, Pair(a, x));
            first.1 == Done && InsertPair(first.0, n.table, Pair(a, y)).1 == Taken
  {
    var u := InsertPair(t, n.table, Pair(a, x)).0;
    assert RowsOf(u, n.table) == {Pair(a, x)};
    assert Pair(a, x) in RowsOf(u, n.table) + {Pair(a, y)} && Pair(a, y) in RowsOf(u, n.table) + {Pair(a, y)};
    assert Refuses(u, fourth, n.table, Pair(a, y));
  }

  /** Over a foreign table that has the columns but no key over the pair the declaration
      commits, and then no pair can be created at all. */
  lemma KeylessTableTakesNothing(d: Definition, pair: Pair) returns (db: Db)
    requires ValidDefinition(d)
    ensures Declare(db, d).1 == Committed
    ensures InsertPair(Declare(db, d).0, TableOf(d.name), pair).1 == Broken
  {
    var n, c := NamesOf(d.name), d.cardinality;
    NamesAreApart(d.name);
    NamesAreOffLedger(d.name);
    db := Db(map[LEDGER_TABLE := LedgerTable, n.table := Table({FromId, ToId}, false, false)], map[], map[]);
    DeclareIs(db, d);
    BuiltIs(Noted(db, d), n, c);
    NoKeyMade(Noted(db, d), n, c);
  }

  lemma NoKeyMade(db: Db, n: Names, c: Cardinality)
    requires Defined(c) && n.table in db.catalog && !HasKey(db, n.table)
    ensures !HasKey(Built(db, n, c), n.table)
  {
  }
}
