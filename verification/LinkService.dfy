/** The link service: a process's registry of declared links over the shared database. */
module LinkService {
  import opened LinkDefinitions
  import opened LinkSchema

  method ObsoleteIndexes(n: Names, c: Cardinality) returns (obsolete: seq<string>)
    ensures obsolete == LeftOver(Required(n, c), AllIndexes(n))
  {
    obsolete := [];
    var all := AllIndexes(n);
    for i := 0 to |all|
      invariant obsolete == LeftOver(Required(n, c), all[..i])
    {
      assert all[..i + 1][..i] == all[..i];
      if all[i] !in Required(n, c) {
        obsolete := obsolete + [all[i]];
      }
    }
    assert all[..|all|] == all;
  }

  /** The creations, then the drops. */
  method BuildDdl(n: Names, c: Cardinality) returns (stmts: seq<Stmt>)
    ensures stmts == Ddl(n, c)
  {
    stmts := Creations(n, c);
    var obsolete := ObsoleteIndexes(n, c);
    for i := 0 to |obsolete|
      invariant stmts == Creations(n, c) + Drops(obsolete[..i])
    {
      assert obsolete[..i + 1][..i] == obsolete[..i];
      stmts := stmts + [DropIndex(obsolete[i])];
    }
    assert obsolete[..|obsolete|] == obsolete;
  }

  method VerifySchema(db: Db, n: Names, c: Cardinality) returns (ok: bool)
    ensures ok == Verified(db, n, c)
  {
    if n.table !in db.catalog || Kind(db.catalog[n.table]) != 'r' {
      return false;
    }
    var required := Required(n, c);
    for i := 0 to |required|
      invariant forall k :: 0 <= k < i ==> required[k] in db.catalog && Kind(db.catalog[required[k]]) == 'i'
    {
      if required[i] !in db.catalog || Kind(db.catalog[required[i]]) != 'i' {
        assert required[i] in Required(n, c);
        return false;
      }
    }
    var obsolete := ObsoleteIndexes(n, c);
    for i := 0 to |obsolete|
      invariant forall k :: 0 <= k < i ==> obsolete[k] !in db.catalog
    {
      if obsolete[i] in db.catalog {
        assert obsolete[i] in LeftOver(Required(n, c), AllIndexes(n));
        return false;
      }
    }
    return true;
  }

  /** The database, behind the transactions and statements the service sends. */
  class Database {
    var view: Db

    constructor (v: Db)
      ensures view == v
    {
      view := v;
    }
  }

  datatype Result = Ok | Invalid | AlreadyDeclared | Refused(outcome: Outcome) | NotDefined | Rejected(written: Written)

  class Service {
    const db: Database
    var byName: map<string, Definition>

    constructor (database: Database)
      ensures db == database && byName == map[]
    {
      db, byName := database, map[];
    }

    /** A definition known to this process is answered from memory; any other is
        declared in the database and, once committed, remembered. */
    method Define(d: Definition) returns (r: Result)
      modifies this, db
      ensures !ValidDefinition(d) ==> r == Invalid
      ensures ValidDefinition(d) && d.name in old(byName) ==> r == if old(byName[d.name]) == d then Ok else AlreadyDeclared
      ensures ValidDefinition(d) && d.name !in old(byName) ==>
                var (after, outcome) := Declare(old(db.view), d);
                && db.view == after
                && r == (if outcome == Committed then Ok else Refused(outcome))
                && byName == (if outcome == Committed then old(byName)[d.name := d] else old(byName))
      ensures !ValidDefinition(d) || d.name in old(byName) ==> db.view == old(db.view) && byName == old(byName)
    {
      if !ValidDefinition(d) {
        return Invalid;
      }
      if d.name in byName {
        return if byName[d.name] == d then Ok else AlreadyDeclared;
      }
      var outcome := Transact(d);
      if outcome != Committed {
        return Refused(outcome);
      }
      byName := byName[d.name := d];
      return Ok;
    }

    /** The ledger and its row, the DDL and the check in one transaction; whatever fails, the
        database is left as it was. */
    method Transact(d: Definition) returns (outcome: Outcome)
      modifies db
      ensures (db.view, outcome) == Declare(old(db.view), d)
    {
      var work := WithLedger(db.view);
      if !LedgerReady(work) {
        return Failed;
      }
      var stored := StoredFor(work, d);
      match ChangeOf(stored, d) {
        case Conflicts => return Conflict;
        case Unchanged => work := work.(ledger := work.ledger[d.name := stored]);
        case Widened =>
          work := work.(ledger := work.ledger[d.name := stored.(cardinality := Print(d.cardinality))]);
      }
      var n := NamesOf(d.name);
      var stmts := BuildDdl(n, d.cardinality);
      for i := 0 to |stmts|
        invariant ExecuteAll(Noted(WithLedger(old(db.view)), d), stmts) == ExecuteAll(work, stmts[i..])
        invariant db.view == old(db.view)
      {
        assert stmts[i..][1..] == stmts[i + 1..];
        var next := Execute(work, stmts[i]);
        if next.None? {
          return Failed;
        }
        work := next.value;
      }
      var ok := VerifySchema(work, n, d.cardinality);
      if !ok {
        return Failed;
      }
      db.view := work;
      return Committed;
    }

    /** Over the exact schema of a cardinality a pair is accepted exactly if that
        cardinality admits it. Over any table it is accepted if it is there already, and
        otherwise unless a unique index refuses it; accepted, it is the one pair more. */
    method Create(name: string, pair: Pair) returns (r: Result)
      modifies db
      ensures name !in byName ==> r == NotDefined && db.view == old(db.view)
      ensures name in byName ==> (r == Rejected(Broken) <==> !TakesPairs(old(db.view), TableOf(name)))
      ensures name in byName && TakesPairs(old(db.view), TableOf(name)) ==>
                (r == Ok <==> pair in RowsOf(old(db.view), TableOf(name)) || !Violates(old(db.view), TableOf(name), pair))
      ensures r == Ok ==> RowsOf(db.view, TableOf(name)) == RowsOf(old(db.view), TableOf(name)) + {pair}
      ensures r != Ok ==> db.view == old(db.view)
      ensures db.view.catalog == old(db.view.catalog) && db.view.ledger == old(db.view.ledger)
      ensures forall t :: t != TableOf(name) ==> RowsOf(db.view, t) == RowsOf(old(db.view), t)
      ensures forall c: Cardinality :: name in byName && Orderly(old(db.view), name, c) ==>
                r == if Admits(c, RowsOf(old(db.view), TableOf(name)) + {pair}) then Ok else Rejected(Taken)
      ensures pair in RowsOf(old(db.view), TableOf(name)) ==> db.view == old(db.view)
    {
      if name !in byName {
        return NotDefined;
      }
      forall c: Cardinality | Orderly(db.view, name, c) ensures InsertsExactly(db.view, name, c, pair) {
        InsertIsExact(db.view, NamesOf(name), c, pair);
      }
      var (after, written) := InsertPair(db.view, TableOf(name), pair);
      db.view := after;
      return if written == Done then Ok else Rejected(written);
    }

    /** Of the pairs exactly that one is gone; an absent one is no error. */
    method Delete(name: string, pair: Pair) returns (r: Result)
      modifies db
      ensures name !in byName ==> r == NotDefined && db.view == old(db.view)
      ensures name in byName ==> (r == Ok <==> HasBoth(old(db.view), TableOf(name)))
      ensures r == Ok ==> RowsOf(db.view, TableOf(name)) == RowsOf(old(db.view), TableOf(name)) - {pair}
      ensures r != Ok ==> db.view == old(db.view)
      ensures db.view.catalog == old(db.view.catalog) && db.view.ledger == old(db.view.ledger)
      ensures forall t :: t != TableOf(name) ==> RowsOf(db.view, t) == RowsOf(old(db.view), t)
    {
      if name !in byName {
        return NotDefined;
      }
      var (after, written) := DeletePair(db.view, TableOf(name), pair);
      db.view := after;
      return if written == Done then Ok else Rejected(written);
    }
  }

  /** The link's schema is exact for the cardinality, and its pairs satisfy it. */
  ghost predicate Orderly(db: Db, name: string, c: Cardinality) {
    Defined(c) && Apart(NamesOf(name)) && Exact(db, NamesOf(name), c) && Admits(c, RowsOf(db, TableOf(name)))
  }

  predicate InsertsExactly(db: Db, name: string, c: Cardinality, pair: Pair) {
    InsertPair(db, TableOf(name), pair).1 == if Admits(c, RowsOf(db, TableOf(name)) + {pair}) then Done else Taken
  }
}
