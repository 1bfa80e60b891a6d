/**
 What the referential-action triggers do to a database, for keys of any number of columns, and when
 they keep every foreign key pointing at a record of the primary relation.
 */
module TriggerMeaning {

  import opened Bytes
  import opened Blr
  import opened TriggerText

  // ---- what is meant, without any BLR ----

  /** The row carries the key of `owner` in the foreign columns: no null, and column by column equal. */
  ghost predicate Holds(row: Row, fs: seq<Name>, owner: Row, ps: seq<Name>)
    requires |fs| == |ps|
  {
    forall i :: 0 <= i < |fs| ==> Column(row, fs[i]).Datum? && Column(row, fs[i]) == Column(owner, ps[i])
  }

  /** Some key column has two known, different values in the old and the new record. */
  ghost predicate Moved(was: Row, now: Row, ps: seq<Name>)
  {
    exists i :: 0 <= i < |ps| && Column(was, ps[i]).Datum? && Column(now, ps[i]).Datum? && Column(was, ps[i]) != Column(now, ps[i])
  }

  ghost predicate Complete(row: Row, cs: seq<Name>) { forall i :: 0 <= i < |cs| ==> Column(row, cs[i]).Datum? }

  ghost predicate Distinct(cs: seq<Name>) { forall i, j :: 0 <= i < j < |cs| ==> cs[i] != cs[j] }

  /** The last position of a column in a key. */
  function LastAt(cs: seq<Name>, c: Name): (r: nat)
    requires c in cs
    ensures r < |cs| && cs[r] == c && forall j :: r < j < |cs| ==> cs[j] != c
  {
    if cs[|cs| - 1] == c then |cs| - 1 else LastAt(cs[..|cs| - 1], c)
  }

  function Names(cs: seq<Name>): set<Name> { set c | c in cs }

  /** The row with the key of `owner` in its foreign columns, and nothing else changed. */
  function Rekeyed(row: Row, fs: seq<Name>, owner: Row, ps: seq<Name>): Row
    requires |fs| == |ps|
  {
    map c: Name | c in row.Keys + Names(fs) :: if c in fs then Column(owner, ps[LastAt(fs, c)]) else row[c]
  }

  function Cleared(row: Row, fs: seq<Name>): Row
  {
    map c: Name | c in row.Keys + Names(fs) :: if c in fs then Missing else row[c]
  }

  // ---- the conditions ----

  /** The match is the conjunction of all the columns' equalities, and false or unknown otherwise. */
  lemma {:induction false} MatchMeans(fs: seq<Name>, ps: seq<Name>, env: Contexts)
    requires |fs| == |ps| > 0 && 0 in env && 2 in env
    ensures Eval(KeyMatch(fs, ps), env) == True <==> Holds(env[2], fs, env[0], ps)
  {
    if |fs| > 1 {
      MatchMeans(fs[1..], ps[1..], env);
      assert forall i :: 0 < i < |fs| ==> fs[i] == fs[1..][i - 1] && ps[i] == ps[1..][i - 1];
      if Holds(env[2], fs, env[0], ps) {
        assert Holds(env[2], fs[1..], env[0], ps[1..]);
      }
    }
  }

  /** The firing condition is the disjunction of all the columns' inequalities. */
  lemma {:induction false} FiringMeans(ps: seq<Name>, env: Contexts)
    requires |ps| > 0 && 0 in env && 1 in env
    ensures Eval(KeyDiffers(ps), env) == True <==> Moved(env[0], env[1], ps)
  {
    if |ps| > 1 {
      FiringMeans(ps[1..], env);
      if Moved(env[0], env[1], ps[1..]) {
        var i :| 0 <= i < |ps[1..]| && Column(env[0], ps[1..][i]).Datum? && Column(env[1], ps[1..][i]).Datum?
                 && Column(env[0], ps[1..][i]) != Column(env[1], ps[1..][i]);
        assert ps[i + 1] == ps[1..][i];
      }
      if Moved(env[0], env[1], ps) && Eval(PairDiffers(ps[0]), env) != True {
        var i :| 0 <= i < |ps| && Column(env[0], ps[i]).Datum? && Column(env[1], ps[i]).Datum?
                 && Column(env[0], ps[i]) != Column(env[1], ps[i]);
        assert ps[1..][i - 1] == ps[i];
      }
    }
  }

  // ---- the assignments ----

  lemma TailNames(cs: seq<Name>, c: Name)
    requires cs != []
    ensures c in cs <==> c == cs[0] || c in cs[1..]
  {
    assert cs == [cs[0]] + cs[1..];
  }

  lemma LastInTail(cs: seq<Name>, c: Name)
    requires c in cs
    ensures c in cs[1..] ==> LastAt(cs, c) == LastAt(cs[1..], c) + 1
    ensures c !in cs[1..] ==> LastAt(cs, c) == 0
  {
    var r := LastAt(cs, c);
    if r > 0 {
      assert cs[1..][r - 1] == c;
    }
    if c in cs[1..] {
      var t := LastAt(cs[1..], c);
      assert cs[t + 1] == c;
      assert r >= t + 1;
      assert cs[1..][r - 1] == cs[r];
    }
  }

  lemma SameRows(a: Row, b: Row)
    requires forall c: Name :: (c in a <==> c in b) && Column(a, c) == Column(b, c)
    ensures a == b
  {
    forall c: Name | c in a
      ensures a[c] == b[c]
    {
      assert Column(a, c) == Column(b, c);
    }
  }

  lemma RekeyAt(first: Row, row: Row, fs: seq<Name>, owner: Row, ps: seq<Name>, c: Name)
    requires |fs| == |ps| > 0 && first == With(row, fs[0], Column(owner, ps[0]))
    ensures var a, b := Rekeyed(first, fs[1..], owner, ps[1..]), Rekeyed(row, fs, owner, ps);
            (c in a <==> c in b) && Column(a, c) == Column(b, c)
  {
    TailNames(fs, c);
    if c in fs { LastInTail(fs, c); }
  }

  /** Setting the first column and then the others. */
  lemma RekeyStep(row: Row, fs: seq<Name>, owner: Row, ps: seq<Name>)
    requires |fs| == |ps| > 0
    ensures Rekeyed(With(row, fs[0], Column(owner, ps[0])), fs[1..], owner, ps[1..]) == Rekeyed(row, fs, owner, ps)
  {
    var first := With(row, fs[0], Column(owner, ps[0]));
    var a, b := Rekeyed(first, fs[1..], owner, ps[1..]), Rekeyed(row, fs, owner, ps);
    forall c: Name
      ensures (c in a <==> c in b) && Column(a, c) == Column(b, c)
    {
      RekeyAt(first, row, fs, owner, ps, c);
    }
    SameRows(a, b);
  }

  lemma ClearStep(row: Row, fs: seq<Name>)
    requires |fs| > 0
    ensures Cleared(With(row, fs[0], Missing), fs[1..]) == Cleared(row, fs)
  {
    var a, b := Cleared(With(row, fs[0], Missing), fs[1..]), Cleared(row, fs);
    forall c: Name
      ensures c in a <==> c in b
      ensures c in b ==> a[c] == b[c]
    {
      TailNames(fs, c);
    }
  }

  lemma Overwrite(env: Contexts, ctx: byte, a: Row, b: Row)
    ensures env[ctx := a][ctx := b] == env[ctx := b]
  {
  }

  lemma {:induction false} CopyOne(fs: seq<Name>, ps: seq<Name>, env: Contexts, first: Row)
    requires |fs| == |ps| > 0 && 1 in env && 2 in env && first == With(env[2], fs[0], Column(env[1], ps[0]))
    ensures Changes(CopyKey(fs, ps), env) == Changes(CopyKey(fs[1..], ps[1..]), env[2 := first])
  {
    assert Change(Assign(Field(1, ps[0]), Field(2, fs[0])), env) == env[2 := first];
  }

  /** Copying the key changes the foreign columns and only those; a repeated column keeps its last value. */
  lemma {:induction false} CopyMeans(fs: seq<Name>, ps: seq<Name>, env: Contexts)
    requires |fs| == |ps| && 1 in env && 2 in env
    ensures Changes(CopyKey(fs, ps), env) == env[2 := Rekeyed(env[2], fs, env[1], ps)]
  {
    if fs == [] {
      assert Rekeyed(env[2], fs, env[1], ps) == env[2];
      assert env[2 := env[2]] == env;
    } else {
      var first := With(env[2], fs[0], Column(env[1], ps[0]));
      CopyOne(fs, ps, env, first);
      CopyMeans(fs[1..], ps[1..], env[2 := first]);
      RekeyStep(env[2], fs, env[1], ps);
      Overwrite(env, 2, first, Rekeyed(env[2], fs, env[1], ps));
    }
  }

  lemma {:induction false} ClearMeans(fs: seq<Name>, env: Contexts)
    requires 2 in env
    ensures Changes(ClearKey(fs), env) == env[2 := Cleared(env[2], fs)]
  {
    if fs == [] {
      assert Cleared(env[2], fs) == env[2];
    } else {
      var first := With(env[2], fs[0], Missing);
      ClearMeans(fs[1..], env[2 := first]);
      ClearStep(env[2], fs);
      Overwrite(env, 2, first, Cleared(env[2], fs));
    }
  }

  // ---- the loop over the foreign relation ----

  /** A modifying loop visits each row once, in place: changed where it holds the old key, as it was elsewhere. */
  lemma {:induction false} SweepModify(fs: seq<Name>, ps: seq<Name>, ss: Stmts, env: Contexts, rows: seq<Row>)
    requires |fs| == |ps| > 0 && 0 in env
    ensures var after := Sweep(2, KeyMatch(fs, ps), Modify(2, 2, Block(ss)), env, rows);
            && |after| == |rows|
            && forall k :: 0 <= k < |rows| ==>
                 after[k] == if Holds(rows[k], fs, env[0], ps) then Changes(ss, env[2 := rows[k]])[2] else rows[k]
  {
    if rows != [] {
      SweepModify(fs, ps, ss, env, rows[1..]);
      var here := env[2 := rows[0]];
      MatchMeans(fs, ps, here);
      assert here[2 := here[2]] == here;
      assert forall k :: 0 < k < |rows| ==> rows[k] == rows[1..][k - 1];
    }
  }

  /** The rows that do not hold the key, in their order. */
  ghost function Survivors(rows: seq<Row>, fs: seq<Name>, was: Row, ps: seq<Name>): seq<Row>
    requires |fs| == |ps|
  {
    if rows == [] then [] else (if Holds(rows[0], fs, was, ps) then [] else [rows[0]]) + Survivors(rows[1..], fs, was, ps)
  }

  lemma {:induction false} SweepErase(fs: seq<Name>, ps: seq<Name>, env: Contexts, rows: seq<Row>)
    requires |fs| == |ps| > 0 && 0 in env
    ensures Sweep(2, KeyMatch(fs, ps), Erase(2), env, rows) == Survivors(rows, fs, env[0], ps)
  {
    if rows != [] {
      SweepErase(fs, ps, env, rows[1..]);
      MatchMeans(fs, ps, env[2 := rows[0]]);
    }
  }

  lemma GuardMeans(ps: seq<Name>, s: Stmt, env: Contexts, db: Database)
    requires |ps| > 0 && 0 in env && 1 in env
    ensures Run(WhenChanged(ps, s), env, db) == if Moved(env[0], env[1], ps) then Run(s, env, db) else db
  {
    FiringMeans(ps, env);
    var inner := Cons(s, Nil);
    assert RunAll(inner, env, db) == Run(s, env, db);
    assert Run(Block(inner), env, db) == Run(s, env, db);
    var outer := Cons(Block(inner), Nil);
    assert RunAll(outer, env, db) == Run(s, env, db);
    assert Run(Block(outer), env, db) == Run(s, env, db);
  }

  // ---- the triggers ----

  /** The contexts of a trigger. */
  function Versions(was: Row, now: Row): Contexts { map[0 := was, 1 := now] }

  /** The rows of a relation once the trigger has run. */
  function RowsAfter(s: Stmt, was: Row, now: Row, db: Database, rel: Name): seq<Row>
  {
    var after := Run(s, Versions(was, now), db);
    if rel in after then after[rel] else []
  }

  /** Only the rows of `rel` may differ. */
  ghost predicate OnlyIn(rel: Name, before: Database, after: Database)
  {
    after.Keys == before.Keys && forall r :: r in before && r != rel ==> after[r] == before[r]
  }

  lemma {:induction false} CopiedRow(fs: seq<Name>, ps: seq<Name>, env: Contexts, row: Row)
    requires |fs| == |ps| && 1 in env
    ensures Changes(CopyKey(fs, ps), env[2 := row])[2] == Rekeyed(row, fs, env[1], ps)
  {
    CopyMeans(fs, ps, env[2 := row]);
  }

  /** The copying loop by itself. */
  lemma {:induction false} CopyLoop(rel: Name, fs: seq<Name>, ps: seq<Name>, env: Contexts, db: Database)
    requires |fs| == |ps| > 0 && rel in db && 0 in env && 1 in env
    ensures var after := Run(OnMatches(rel, fs, ps, Modify(2, 2, Block(CopyKey(fs, ps)))), env, db);
            && OnlyIn(rel, db, after)
            && |after[rel]| == |db[rel]|
            && forall k :: 0 <= k < |db[rel]| ==>
                 after[rel][k] == if Holds(db[rel][k], fs, env[0], ps) then Rekeyed(db[rel][k], fs, env[1], ps) else db[rel][k]
  {
    SweepModify(fs, ps, CopyKey(fs, ps), env, db[rel]);
    forall k | 0 <= k < |db[rel]|
      ensures Changes(CopyKey(fs, ps), env[2 := db[rel][k]])[2] == Rekeyed(db[rel][k], fs, env[1], ps)
    {
      CopiedRow(fs, ps, env, db[rel][k]);
    }
  }

  /** On update cascade rewrites exactly the rows that hold the old key, exactly in their key columns, to the new key. */
  lemma UpdateCascadeMeans(rel: Name, fs: seq<Name>, ps: seq<Name>, was: Row, now: Row, db: Database)
    requires |fs| == |ps| > 0 && rel in db
    ensures var after := Run(UpdateCascade(rel, fs, ps), Versions(was, now), db);
            && OnlyIn(rel, db, after)
            && |after[rel]| == |db[rel]|
            && forall k :: 0 <= k < |db[rel]| ==>
                 after[rel][k] == if Moved(was, now, ps) && Holds(db[rel][k], fs, was, ps)
                 then Rekeyed(db[rel][k], fs, now, ps) else db[rel][k]
  {
    GuardMeans(ps, OnMatches(rel, fs, ps, Modify(2, 2, Block(CopyKey(fs, ps)))), Versions(was, now), db);
    CopyLoop(rel, fs, ps, Versions(was, now), db);
  }

  /** The clearing loop by itself, as the delete trigger runs it. */
  lemma {:induction false} ClearLoop(rel: Name, fs: seq<Name>, ps: seq<Name>, env: Contexts, db: Database)
    requires |fs| == |ps| > 0 && rel in db && 0 in env
    ensures var after := Run(OnMatches(rel, fs, ps, Modify(2, 2, Block(ClearKey(fs)))), env, db);
            && OnlyIn(rel, db, after)
            && |after[rel]| == |db[rel]|
            && forall k :: 0 <= k < |db[rel]| ==>
                 after[rel][k] == if Holds(db[rel][k], fs, env[0], ps) then Cleared(db[rel][k], fs) else db[rel][k]
  {
    SweepModify(fs, ps, ClearKey(fs), env, db[rel]);
    forall k | 0 <= k < |db[rel]|
      ensures Changes(ClearKey(fs), env[2 := db[rel][k]])[2] == Cleared(db[rel][k], fs)
    {
      ClearMeans(fs, env[2 := db[rel][k]]);
    }
  }

  /** Set null empties the key columns of exactly the rows that hold the old key; on update only if the key moved. */
  lemma SetNullMeans(rel: Name, fs: seq<Name>, ps: seq<Name>, onUpdate: bool, was: Row, now: Row, db: Database)
    requires |fs| == |ps| > 0 && rel in db
    ensures var after := Run(SetNull(rel, fs, ps, onUpdate), Versions(was, now), db);
            && OnlyIn(rel, db, after)
            && |after[rel]| == |db[rel]|
            && forall k :: 0 <= k < |db[rel]| ==>
                 after[rel][k] == if (onUpdate ==> Moved(was, now, ps)) && Holds(db[rel][k], fs, was, ps)
                 then Cleared(db[rel][k], fs) else db[rel][k]
  {
    GuardMeans(ps, OnMatches(rel, fs, ps, Modify(2, 2, Block(ClearKey(fs)))), Versions(was, now), db);
    ClearLoop(rel, fs, ps, Versions(was, now), db);
  }

  /** On delete cascade removes exactly the rows that hold the old key. */
  lemma DeleteCascadeMeans(rel: Name, fs: seq<Name>, ps: seq<Name>, was: Row, now: Row, db: Database)
    requires |fs| == |ps| > 0 && rel in db
    ensures var after := Run(DeleteCascade(rel, fs, ps), Versions(was, now), db);
            OnlyIn(rel, db, after) && after[rel] == Survivors(db[rel], fs, was, ps)
  {
    SweepErase(fs, ps, Versions(was, now), db[rel]);
  }

  /** Without the foreign relation there is nothing to do. */
  lemma NothingToDo(rel: Name, fs: seq<Name>, ps: seq<Name>, onUpdate: bool, was: Row, now: Row, db: Database)
    requires |fs| == |ps| > 0 && rel !in db
    ensures Run(UpdateCascade(rel, fs, ps), Versions(was, now), db) == db
    ensures Run(SetNull(rel, fs, ps, onUpdate), Versions(was, now), db) == db
    ensures Run(DeleteCascade(rel, fs, ps), Versions(was, now), db) == db
  {
    GuardMeans(ps, OnMatches(rel, fs, ps, Modify(2, 2, Block(CopyKey(fs, ps)))), Versions(was, now), db);
    GuardMeans(ps, OnMatches(rel, fs, ps, Modify(2, 2, Block(ClearKey(fs)))), Versions(was, now), db);
  }

  /** How the database stands after an update with cascade, whether or not it has the foreign relation. */
  ghost predicate Cascaded(rel: Name, fs: seq<Name>, ps: seq<Name>, was: Row, now: Row, db: Database, after: Database)
    requires |fs| == |ps|
  {
    && OnlyIn(rel, db, after)
    && (rel in db ==>
          && |after[rel]| == |db[rel]|
          && forall k :: 0 <= k < |db[rel]| ==>
               after[rel][k] == if Moved(was, now, ps) && Holds(db[rel][k], fs, was, ps)
               then Rekeyed(db[rel][k], fs, now, ps) else db[rel][k])
  }

  datatype Ran = Rejected | Ran(db: Database)

  /** What is being done to a record of a relation, and whether it has been done yet. */
  datatype Operation = Storing | Modifying | Erasing
  datatype Occasion = Occasion(after: bool, operation: Operation, relation: Name)

  /** The list the engine puts a trigger of this type on (jrd/met.e), and so what it fires on. */
  predicate FiresOn(kind: int, o: Occasion)
  {
    match kind
    case 1 => !o.after && o.operation.Storing?
    case 2 => o.after && o.operation.Storing?
    case 3 => !o.after && o.operation.Modifying?
    case 4 => o.after && o.operation.Modifying?
    case 5 => !o.after && o.operation.Erasing?
    case 6 => o.after && o.operation.Erasing?
    case _ => false
  }

  /**
   What a definition does on an occasion: its code is found and parsed, and run if the trigger is on this
   relation, active and of a type that fires then.
   */
  function RunDefinition(s: seq<byte>, o: Occasion, env: Contexts, db: Database): (r: Ran)
  {
    var f := FindCode(s, NO_COLUMNS);
    if f.NoCode? then Rejected
    else
      var p := ParseCode(f.bytes, []);
      if p.Bad? then Rejected
      else if f.columns.relation == o.relation && f.columns.inactive == 0 && FiresOn(f.columns.kind, o) then Ran(Run(p.tree, env, db))
      else Ran(db)
  }

  /** The run of a definition, from the tree it was printed from. */
  lemma DefinitionRuns(kind: byte, prim: Name, tree: Stmt, o: Occasion, env: Contexts, db: Database)
    ensures RunDefinition(Definition(kind, prim, tree), o, env, db)
         == if |StmtText(tree)| + 2 >= 0x10000 then Rejected
            else if prim == o.relation && FiresOn(kind, o) then Ran(Run(tree, env, db)) else Ran(db)
  {
    var d := Definition(kind, prim, tree);
    assert d + [] == d;
    DefinitionCode(kind, prim, tree, []);
  }

  /**
   From the emission to the rows: the bytes define_upd_cascade_trg appends, taken apart, parsed and run on
   any occasion and any database, cascade the key after an update of the primary relation and do nothing on
   any other occasion, exactly if the code fits its length word; if not they are rejected.
   */
  method EmittedCascade(request: Request, prim: Name, rel: Name, fs: seq<Name>, ps: seq<Name>,
                        ghost o: Occasion, ghost was: Row, ghost now: Row, ghost db: Database)
    requires 0 !in prim && 0 !in rel && |fs| == |ps| > 0 && forall n :: n in fs + ps ==> 0 !in n
    modifies request
    ensures |request.blr| >= |old(request.blr)| && request.blr[..|old(request.blr)|] == old(request.blr)
    ensures var r := RunDefinition(request.blr[|old(request.blr)|..], o, Versions(was, now), db);
            && (r.Ran? <==> |StmtText(UpdateCascade(rel, fs, ps))| + 2 < 0x10000)
            && (r.Ran? && o == Occasion(true, Modifying, prim) ==> Cascaded(rel, fs, ps, was, now, db, r.db))
            && (r.Ran? && o != Occasion(true, Modifying, prim) ==> r.db == db)
  {
    request.DefineUpdCascade(prim, rel, fs, ps);
    DefinitionRuns(POST_MODIFY, prim, UpdateCascade(rel, fs, ps), o, Versions(was, now), db);
    if rel in db {
      UpdateCascadeMeans(rel, fs, ps, was, now, db);
    } else {
      NothingToDo(rel, fs, ps, false, was, now, db);
    }
  }

  /** How the database stands after a deletion with cascade. */
  ghost predicate Swept(rel: Name, fs: seq<Name>, ps: seq<Name>, was: Row, db: Database, after: Database)
    requires |fs| == |ps|
  {
    OnlyIn(rel, db, after) && (rel in db ==> after[rel] == Survivors(db[rel], fs, was, ps))
  }

  /** The same for define_del_cascade_trg: the dependent rows go after a deletion, and on no other occasion. */
  method EmittedDelete(request: Request, prim: Name, rel: Name, fs: seq<Name>, ps: seq<Name>,
                       ghost o: Occasion, ghost was: Row, ghost now: Row, ghost db: Database)
    requires 0 !in prim && 0 !in rel && |fs| == |ps| > 0 && forall n :: n in fs + ps ==> 0 !in n
    modifies request
    ensures |request.blr| >= |old(request.blr)| && request.blr[..|old(request.blr)|] == old(request.blr)
    ensures var r := RunDefinition(request.blr[|old(request.blr)|..], o, Versions(was, now), db);
            && (r.Ran? <==> |StmtText(DeleteCascade(rel, fs, ps))| + 2 < 0x10000)
            && (r.Ran? && o == Occasion(true, Erasing, prim) ==> Swept(rel, fs, ps, was, db, r.db))
            && (r.Ran? && o != Occasion(true, Erasing, prim) ==> r.db == db)
  {
    request.DefineDelCascade(prim, rel, fs, ps);
    DefinitionRuns(POST_ERASE, prim, DeleteCascade(rel, fs, ps), o, Versions(was, now), db);
    if rel in db {
      DeleteCascadeMeans(rel, fs, ps, was, now, db);
    } else {
      NothingToDo(rel, fs, ps, false, was, now, db);
    }
  }

  /** How the database stands when the dependent keys have been set to null; on update only if the key moved. */
  ghost predicate Nulled(rel: Name, fs: seq<Name>, ps: seq<Name>, onUpdate: bool, was: Row, now: Row, db: Database, after: Database)
    requires |fs| == |ps|
  {
    && OnlyIn(rel, db, after)
    && (rel in db ==>
          && |after[rel]| == |db[rel]|
          && forall k :: 0 <= k < |db[rel]| ==>
               after[rel][k] == if (onUpdate ==> Moved(was, now, ps)) && Holds(db[rel][k], fs, was, ps)
               then Cleared(db[rel][k], fs) else db[rel][k])
  }

  /** The same for define_set_null_trg, after an update or after a deletion. */
  method EmittedSetNull(request: Request, prim: Name, rel: Name, fs: seq<Name>, ps: seq<Name>, onUpdate: bool,
                        ghost o: Occasion, ghost was: Row, ghost now: Row, ghost db: Database)
    requires 0 !in prim && 0 !in rel && |fs| == |ps| > 0 && forall n :: n in fs + ps ==> 0 !in n
    modifies request
    ensures |request.blr| >= |old(request.blr)| && request.blr[..|old(request.blr)|] == old(request.blr)
    ensures var r := RunDefinition(request.blr[|old(request.blr)|..], o, Versions(was, now), db);
            var occasion := Occasion(true, if onUpdate then Modifying else Erasing, prim);
            && (r.Ran? <==> |StmtText(SetNull(rel, fs, ps, onUpdate))| + 2 < 0x10000)
            && (r.Ran? && o == occasion ==> Nulled(rel, fs, ps, onUpdate, was, now, db, r.db))
            && (r.Ran? && o != occasion ==> r.db == db)
  {
    request.DefineSetNull(prim, rel, fs, ps, onUpdate);
    DefinitionRuns(if onUpdate then POST_MODIFY else POST_ERASE, prim, SetNull(rel, fs, ps, onUpdate), o, Versions(was, now), db);
    if rel in db {
      SetNullMeans(rel, fs, ps, onUpdate, was, now, db);
    } else {
      NothingToDo(rel, fs, ps, onUpdate, was, now, db);
    }
  }

  // ---- referential integrity ----

  ghost predicate Refers(row: Row, fs: seq<Name>, owners: seq<Row>, ps: seq<Name>)
    requires |fs| == |ps|
  {
    Complete(row, fs) ==> exists k :: 0 <= k < |owners| && Holds(row, fs, owners[k], ps)
  }

  /** Every row whose key has no null refers to a record of the primary relation. */
  ghost predicate Integrity(rows: seq<Row>, fs: seq<Name>, owners: seq<Row>, ps: seq<Name>)
    requires |fs| == |ps|
  {
    forall i :: 0 <= i < |rows| ==> Refers(rows[i], fs, owners, ps)
  }

  /** No two records share a key. */
  ghost predicate UniqueKeys(owners: seq<Row>, ps: seq<Name>)
  {
    forall j, k :: 0 <= j < k < |owners| ==> exists i :: 0 <= i < |ps| && Column(owners[j], ps[i]) != Column(owners[k], ps[i])
  }

  ghost predicate Held(rows: seq<Row>, fs: seq<Name>, owner: Row, ps: seq<Name>)
    requires |fs| == |ps|
  {
    exists i :: 0 <= i < |rows| && Holds(rows[i], fs, owner, ps)
  }

  /** A row that does not hold the replaced key still refers. */
  lemma OthersRefer(row: Row, fs: seq<Name>, owners: seq<Row>, ps: seq<Name>, k: nat, now: Row)
    requires |fs| == |ps| && k < |owners|
    requires Refers(row, fs, owners, ps) && !Holds(row, fs, owners[k], ps)
    ensures Refers(row, fs, owners[k := now], ps)
    ensures Refers(row, fs, owners[..k] + owners[k + 1..], ps)
  {
    if Complete(row, fs) {
      var j :| 0 <= j < |owners| && Holds(row, fs, owners[j], ps);
      assert owners[k := now][j] == owners[j];
      var rest := owners[..k] + owners[k + 1..];
      assert rest[if j < k then j else j - 1] == owners[j];
    }
  }

  /** A key that did not move, and has no null now, is the same key. */
  lemma StillHolds(row: Row, fs: seq<Name>, was: Row, now: Row, ps: seq<Name>)
    requires |fs| == |ps| && Holds(row, fs, was, ps) && !Moved(was, now, ps) && Complete(now, ps)
    ensures Holds(row, fs, now, ps)
  {
    forall i | 0 <= i < |fs|
      ensures Column(row, fs[i]) == Column(now, ps[i])
    {
      assert Column(row, fs[i]) == Column(was, ps[i]) && Column(now, ps[i]).Datum?;
    }
  }

  /** Its key goes to null unnoticed: a row that held it refers to nothing. */
  lemma Dangles(row: Row, fs: seq<Name>, owners: seq<Row>, ps: seq<Name>, k: nat, now: Row)
    requires |fs| == |ps| && k < |owners| && UniqueKeys(owners, ps)
    requires Holds(row, fs, owners[k], ps) && !Complete(now, ps)
    ensures !Refers(row, fs, owners[k := now], ps)
  {
    var after := owners[k := now];
    forall j | 0 <= j < |after|
      ensures !Holds(row, fs, after[j], ps)
    {
    }
  }

  lemma RekeyedHolds(row: Row, fs: seq<Name>, now: Row, ps: seq<Name>)
    requires |fs| == |ps| && Distinct(fs) && Complete(Rekeyed(row, fs, now, ps), fs)
    ensures Holds(Rekeyed(row, fs, now, ps), fs, now, ps)
  {
    forall i | 0 <= i < |fs|
      ensures Column(Rekeyed(row, fs, now, ps), fs[i]) == Column(now, ps[i])
    {
      assert fs[i] in fs;
      assert LastAt(fs, fs[i]) == i;
    }
  }

  /** What either update trigger relies on: the firing condition notices the change, or there is none, or no row cares. */
  ghost predicate Noticed(rows: seq<Row>, fs: seq<Name>, was: Row, now: Row, ps: seq<Name>)
    requires |fs| == |ps|
  {
    Moved(was, now, ps) || Complete(now, ps) || !Held(rows, fs, was, ps)
  }

  /** Not firing is right exactly when the change needed no notice. */
  lemma Untouched(rows: seq<Row>, fs: seq<Name>, ps: seq<Name>, owners: seq<Row>, k: nat, now: Row)
    requires |fs| == |ps| && k < |owners|
    requires Integrity(rows, fs, owners, ps) && UniqueKeys(owners, ps) && !Moved(owners[k], now, ps)
    ensures Integrity(rows, fs, owners[k := now], ps) <==> Noticed(rows, fs, owners[k], now, ps)
  {
    if Noticed(rows, fs, owners[k], now, ps) {
      forall i | 0 <= i < |rows|
        ensures Refers(rows[i], fs, owners[k := now], ps)
      {
        if Holds(rows[i], fs, owners[k], ps) {
          StillHolds(rows[i], fs, owners[k], now, ps);
          assert owners[k := now][k] == now;
        } else {
          OthersRefer(rows[i], fs, owners, ps, k, now);
        }
      }
    } else {
      var i :| 0 <= i < |rows| && Holds(rows[i], fs, owners[k], ps);
      Dangles(rows[i], fs, owners, ps, k, now);
    }
  }

  /** After an update with cascade, integrity holds exactly if the key's change was noticed. */
  lemma UpdateCascadeIntegrity(rel: Name, fs: seq<Name>, ps: seq<Name>, owners: seq<Row>, k: nat, now: Row, db: Database)
    requires |fs| == |ps| > 0 && Distinct(fs) && rel in db && k < |owners|
    requires Integrity(db[rel], fs, owners, ps) && UniqueKeys(owners, ps)
    ensures Integrity(RowsAfter(UpdateCascade(rel, fs, ps), owners[k], now, db, rel), fs, owners[k := now], ps)
       <==> Noticed(db[rel], fs, owners[k], now, ps)
  {
    var rows, was := db[rel], owners[k];
    var after := RowsAfter(UpdateCascade(rel, fs, ps), was, now, db, rel);
    UpdateCascadeMeans(rel, fs, ps, was, now, db);
    if Moved(was, now, ps) {
      forall i | 0 <= i < |after|
        ensures Refers(after[i], fs, owners[k := now], ps)
      {
        if Holds(rows[i], fs, was, ps) {
          if Complete(after[i], fs) {
            RekeyedHolds(rows[i], fs, now, ps);
            assert owners[k := now][k] == now;
          }
        } else {
          OthersRefer(rows[i], fs, owners, ps, k, now);
        }
      }
    } else {
      assert after == rows;
      Untouched(rows, fs, ps, owners, k, now);
    }
  }

  /** Referenced keys are PRIMARY KEY or UNIQUE, whose columns must be NOT NULL: then both update triggers always keep integrity. */
  lemma CompleteKeysKeepIntegrity(rel: Name, fs: seq<Name>, ps: seq<Name>, owners: seq<Row>, k: nat, now: Row, db: Database)
    requires |fs| == |ps| > 0 && Distinct(fs) && rel in db && k < |owners| && Complete(now, ps)
    requires Integrity(db[rel], fs, owners, ps) && UniqueKeys(owners, ps)
    ensures Integrity(RowsAfter(UpdateCascade(rel, fs, ps), owners[k], now, db, rel), fs, owners[k := now], ps)
    ensures Integrity(RowsAfter(SetNull(rel, fs, ps, true), owners[k], now, db, rel), fs, owners[k := now], ps)
  {
    UpdateCascadeIntegrity(rel, fs, ps, owners, k, now, db);
    SetNullOnUpdateIntegrity(rel, fs, ps, owners, k, now, db);
  }

  /** Without NOT NULL a key column set to null would compare as unknown, the trigger would not fire and the reference would dangle. */
  lemma NullSlipsThrough()
    ensures var p: Name, f: Name, rel: Name := [80], [70], [82];
            var was: Row, now: Row, row: Row := map[p := Datum(1)], map[p := Missing], map[f := Datum(1)];
            && Integrity([row], [f], [was], [p])
            && !Integrity(RowsAfter(UpdateCascade(rel, [f], [p]), was, now, map[rel := [row]], rel), [f], [now], [p])
  {
    var p: Name, f: Name, rel: Name := [80], [70], [82];
    var was: Row, now: Row, row: Row := map[p := Datum(1)], map[p := Missing], map[f := Datum(1)];
    var db: Database := map[rel := [row]];
    assert Holds([row][0], [f], [was][0], [p]);
    assert !Complete(now, [p]) by { assert Column(now, [p][0]) == Missing; }
    assert [was][0 := now] == [now];
    UpdateCascadeIntegrity(rel, [f], [p], [was], 0, now, db);
  }

  lemma ClearedRefers(row: Row, fs: seq<Name>, owners: seq<Row>, ps: seq<Name>)
    requires |fs| == |ps| > 0
    ensures Refers(Cleared(row, fs), fs, owners, ps)
  {
    assert fs[0] in fs;
    assert Column(Cleared(row, fs), fs[0]) == Missing;
  }

  lemma SetNullOnUpdateIntegrity(rel: Name, fs: seq<Name>, ps: seq<Name>, owners: seq<Row>, k: nat, now: Row, db: Database)
    requires |fs| == |ps| > 0 && rel in db && k < |owners|
    requires Integrity(db[rel], fs, owners, ps) && UniqueKeys(owners, ps)
    ensures Integrity(RowsAfter(SetNull(rel, fs, ps, true), owners[k], now, db, rel), fs, owners[k := now], ps)
       <==> Noticed(db[rel], fs, owners[k], now, ps)
  {
    var rows, was := db[rel], owners[k];
    var after := RowsAfter(SetNull(rel, fs, ps, true), was, now, db, rel);
    SetNullMeans(rel, fs, ps, true, was, now, db);
    if Moved(was, now, ps) {
      forall i | 0 <= i < |after|
        ensures Refers(after[i], fs, owners[k := now], ps)
      {
        if Holds(rows[i], fs, was, ps) {
          ClearedRefers(rows[i], fs, owners[k := now], ps);
        } else {
          OthersRefer(rows[i], fs, owners, ps, k, now);
        }
      }
    } else {
      assert after == rows;
      Untouched(rows, fs, ps, owners, k, now);
    }
  }

  /** The delete triggers keep integrity whatever the keys. */
  lemma SetNullOnDeleteIntegrity(rel: Name, fs: seq<Name>, ps: seq<Name>, owners: seq<Row>, k: nat, db: Database)
    requires |fs| == |ps| > 0 && rel in db && k < |owners| && Integrity(db[rel], fs, owners, ps)
    ensures Integrity(RowsAfter(SetNull(rel, fs, ps, false), owners[k], owners[k], db, rel),
                      fs, owners[..k] + owners[k + 1..], ps)
  {
    var rows, was := db[rel], owners[k];
    SetNullMeans(rel, fs, ps, false, was, was, db);
    var after := RowsAfter(SetNull(rel, fs, ps, false), was, was, db, rel);
    forall i | 0 <= i < |after|
      ensures Refers(after[i], fs, owners[..k] + owners[k + 1..], ps)
    {
      if Holds(rows[i], fs, was, ps) {
        ClearedRefers(rows[i], fs, owners[..k] + owners[k + 1..], ps);
      } else {
        OthersRefer(rows[i], fs, owners, ps, k, was);
      }
    }
  }

  lemma {:induction false} SurvivorsAre(rows: seq<Row>, fs: seq<Name>, was: Row, ps: seq<Name>, row: Row)
    requires |fs| == |ps|
    ensures row in Survivors(rows, fs, was, ps) <==> row in rows && !Holds(row, fs, was, ps)
  {
    if rows != [] {
      assert rows == [rows[0]] + rows[1..];
      SurvivorsAre(rows[1..], fs, was, ps, row);
    }
  }

  lemma DeleteCascadeIntegrity(rel: Name, fs: seq<Name>, ps: seq<Name>, owners: seq<Row>, k: nat, db: Database)
    requires |fs| == |ps| > 0 && rel in db && k < |owners| && Integrity(db[rel], fs, owners, ps)
    ensures Integrity(RowsAfter(DeleteCascade(rel, fs, ps), owners[k], owners[k], db, rel),
                      fs, owners[..k] + owners[k + 1..], ps)
  {
    var was := owners[k];
    DeleteCascadeMeans(rel, fs, ps, was, was, db);
    var after := RowsAfter(DeleteCascade(rel, fs, ps), was, was, db, rel);
    forall i | 0 <= i < |after|
      ensures Refers(after[i], fs, owners[..k] + owners[k + 1..], ps)
    {
      SurvivorsAre(db[rel], fs, was, ps, after[i]);
      OthersRefer(after[i], fs, owners, ps, k, was);
    }
  }
}
