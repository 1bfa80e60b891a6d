/**
 The central server's bookkeeping (csv/csv.c): the database names it services, the attachments made
 under them, and when it may shut down. Messages are handled one at a time.
 */
module Attachments {

  import opened Bytes

  /** A transaction of an attachment; limbo once it has been prepared. */
  datatype Rtr = Rtr(handle: int, limbo: bool)

  /** An attachment, and the name block (rdb_dbn) it was made under. */
  datatype Rdb = Rdb(handle: int, connection: int, dbn: int, transactions: seq<Rtr>)

  /** A name block; `id` is its address, `server` the server's own attachment. */
  datatype Dbn = Dbn(id: int, name: string, attaches: int, max: int, disable: bool, kill: bool, server: Own)
  datatype Own = NoOwn | Own(handle: int)

  /** Whether the server attaches a database it is to service (-a), and how that went. */
  datatype Service = NotTried | Attached(handle: int) | Failed

  function OwnOf(service: Service): Own { if service.Attached? then Own(service.handle) else NoOwn }

  datatype Call = Rollback(handle: int) | Detach(handle: int)

  datatype Command = Kill | Disable | Reenable

  // ---- the invariant ----

  function Count(ds: seq<Rdb>, id: int): nat
  {
    if ds == [] then 0 else (if ds[0].dbn == id then 1 else 0) + Count(ds[1..], id)
  }

  ghost predicate Listed(names: seq<Dbn>, id: int) { exists k :: 0 <= k < |names| && names[k].id == id }

  /** Name blocks and connections are distinct, every attachment's name block is listed, and every count is exact. */
  ghost predicate Books(ds: seq<Rdb>, names: seq<Dbn>)
  {
    && (forall i, j :: 0 <= i < j < |names| ==> names[i].id != names[j].id)
    && (forall i, j :: 0 <= i < j < |ds| ==> ds[i].connection != ds[j].connection)
    && (forall i :: 0 <= i < |ds| ==> Listed(names, ds[i].dbn))
    && (forall k :: 0 <= k < |names| ==> names[k].attaches == Count(ds, names[k].id))
  }

  lemma {:induction false} CountDrop(ds: seq<Rdb>, i: nat, id: int)
    requires i < |ds|
    ensures Count(ds, id) == Count(ds[..i] + ds[i + 1..], id) + if ds[i].dbn == id then 1 else 0
  {
    if i == 0 {
      assert ds[..0] + ds[1..] == ds[1..];
    } else {
      CountDrop(ds[1..], i - 1, id);
      assert (ds[..i] + ds[i + 1..])[1..] == ds[1..][..i - 1] + ds[1..][i..];
    }
  }

  lemma {:induction false} CountZero(ds: seq<Rdb>, id: int)
    ensures Count(ds, id) == 0 <==> forall i :: 0 <= i < |ds| ==> ds[i].dbn != id
  {
    if ds != [] {
      CountZero(ds[1..], id);
      assert forall i :: 0 < i < |ds| ==> ds[i] == ds[1..][i - 1];
    }
  }

  function Without<T>(s: seq<T>, i: nat): seq<T>
    requires i < |s|
  {
    s[..i] + s[i + 1..]
  }

  /** One attachment more under a listed name. */
  lemma BooksAttach(ds: seq<Rdb>, names: seq<Dbn>, k: nat, rdb: Rdb)
    requires Books(ds, names) && k < |names| && rdb.dbn == names[k].id && forall i :: 0 <= i < |ds| ==> ds[i].connection != rdb.connection
    ensures Books([rdb] + ds, names[k := names[k].(attaches := names[k].attaches + 1)])
  {
    var names' := names[k := names[k].(attaches := names[k].attaches + 1)];
    var ds' := [rdb] + ds;
    assert ds'[1..] == ds;
    forall i | 0 <= i < |ds'| ensures Listed(names', ds'[i].dbn) {
      if i == 0 {
        assert names'[k].id == rdb.dbn;
      } else {
        var m :| 0 <= m < |names| && names[m].id == ds[i - 1].dbn;
        assert names'[m].id == ds'[i].dbn;
      }
    }
  }

  /** One attachment less. */
  lemma BooksRelease(ds: seq<Rdb>, names: seq<Dbn>, i: nat, k: nat)
    requires Books(ds, names) && i < |ds| && k < |names| && ds[i].dbn == names[k].id
    ensures Books(Without(ds, i), names[k := names[k].(attaches := names[k].attaches - 1)])
  {
    var names', ds' := names[k := names[k].(attaches := names[k].attaches - 1)], Without(ds, i);
    forall m | 0 <= m < |names'| ensures names'[m].attaches == Count(ds', names'[m].id) {
      CountDrop(ds, i, names[m].id);
    }
    forall j | 0 <= j < |ds'| ensures Listed(names', ds'[j].dbn) {
      var o := if j < i then j else j + 1;
      assert ds'[j] == ds[o];
      var m :| 0 <= m < |names| && names[m].id == ds[o].dbn;
      assert names'[m].id == ds'[j].dbn;
    }
    assert forall j :: 0 <= j < |ds'| ==> ds'[j] == ds[if j < i then j else j + 1];
  }

  /** A new name, with nobody attached. */
  lemma BooksEnter(ds: seq<Rdb>, names: seq<Dbn>, d: Dbn)
    requires Books(ds, names) && !Listed(names, d.id) && d.attaches == 0
    ensures Books(ds, [d] + names)
  {
    var names' := [d] + names;
    forall i | 0 <= i < |ds| ensures Listed(names', ds[i].dbn) && ds[i].dbn != d.id {
      var m :| 0 <= m < |names| && names[m].id == ds[i].dbn;
      assert names'[m + 1].id == ds[i].dbn;
    }
    CountZero(ds, d.id);
  }

  /** A name without attachments can go. */
  lemma BooksForget(ds: seq<Rdb>, names: seq<Dbn>, k: nat)
    requires Books(ds, names) && k < |names| && names[k].attaches == 0
    ensures Books(ds, Without(names, k))
  {
    var names' := Without(names, k);
    assert forall j :: 0 <= j < |names'| ==> names'[j] == names[if j < k then j else j + 1];
    CountZero(ds, names[k].id);
    forall i | 0 <= i < |ds| ensures Listed(names', ds[i].dbn) {
      var m :| 0 <= m < |names| && names[m].id == ds[i].dbn;
      assert m != k;
      assert names'[if m < k then m else m - 1].id == ds[i].dbn;
    }
  }

  // ---- what a disconnect asks of the engine ----

  /** Rolls back each transaction that is not in limbo. */
  function Rollbacks(ts: seq<Rtr>): seq<Call>
  {
    if ts == [] then [] else (if ts[0].limbo then [] else [Rollback(ts[0].handle)]) + Rollbacks(ts[1..])
  }

  function Limbo(ts: seq<Rtr>): seq<Rtr>
  {
    if ts == [] then [] else (if ts[0].limbo then [ts[0]] else []) + Limbo(ts[1..])
  }

  /** What has been rolled back and kept so far, with what is still to come behind position `j`. */
  ghost predicate Aborting(log: seq<Call>, left: seq<Rtr>, j: nat, log0: seq<Call>, ts: seq<Rtr>)
    requires j <= |left|
  {
    && log + Rollbacks(left[j..]) == log0 + Rollbacks(ts)
    && left[..j] + Limbo(left[j..]) == Limbo(ts)
  }

  lemma AbortStep(log: seq<Call>, left: seq<Rtr>, j: nat, log0: seq<Call>, ts: seq<Rtr>)
    requires j < |left| && Aborting(log, left, j, log0, ts)
    ensures if left[j].limbo then Aborting(log, left, j + 1, log0, ts)
            else Aborting(log + [Rollback(left[j].handle)], Without(left, j), j, log0, ts)
  {
    assert left[j..][0] == left[j] && left[j..][1..] == left[j + 1..];
    if left[j].limbo {
      assert left[..j + 1] == left[..j] + [left[j]];
      assert left[..j] + ([left[j]] + Limbo(left[j + 1..])) == left[..j + 1] + Limbo(left[j + 1..]);
      assert [] + Rollbacks(left[j + 1..]) == Rollbacks(left[j + 1..]);
    } else {
      assert Without(left, j)[j..] == left[j + 1..] && Without(left, j)[..j] == left[..j];
      var call := [Rollback(left[j].handle)];
      assert log + (call + Rollbacks(left[j + 1..])) == (log + call) + Rollbacks(left[j + 1..]);
      assert [] + Limbo(left[j + 1..]) == Limbo(left[j + 1..]);
    }
  }

  function Farewell(rdb: Rdb): seq<Call> { Rollbacks(rdb.transactions) + [Detach(rdb.handle)] }

  /** The farewells of all attachments under a name, in list order. */
  function Farewells(ds: seq<Rdb>, id: int): seq<Call>
  {
    if ds == [] then [] else (if ds[0].dbn == id then Farewell(ds[0]) else []) + Farewells(ds[1..], id)
  }

  function Others(ds: seq<Rdb>, id: int): seq<Rdb>
  {
    if ds == [] then [] else (if ds[0].dbn == id then [] else [ds[0]]) + Others(ds[1..], id)
  }

  lemma HeadCounts<T>(x: T, rest: seq<T>, y: T)
    ensures multiset([x] + rest)[y] == (if x == y then 1 else 0) + multiset(rest)[y]
  {
  }

  /** A transaction is rolled back as often as it occurs outside limbo, and never from limbo. */
  lemma {:induction false} RollbacksAre(ts: seq<Rtr>, h: int)
    ensures multiset(Rollbacks(ts))[Rollback(h)] == multiset(ts)[Rtr(h, false)]
  {
    if ts != [] {
      RollbacksAre(ts[1..], h);
      assert ts == [ts[0]] + ts[1..];
      HeadCounts(ts[0], ts[1..], Rtr(h, false));
      if ts[0].limbo {
        assert Rollbacks(ts) == Rollbacks(ts[1..]);
      } else {
        HeadCounts(Rollback(ts[0].handle), Rollbacks(ts[1..]), Rollback(h));
      }
    }
  }

  /** Exactly the transactions in limbo are left. */
  lemma {:induction false} LimboAre(ts: seq<Rtr>, t: Rtr)
    ensures multiset(Limbo(ts))[t] == if t.limbo then multiset(ts)[t] else 0
  {
    if ts != [] {
      LimboAre(ts[1..], t);
      assert ts == [ts[0]] + ts[1..];
      HeadCounts(ts[0], ts[1..], t);
      if ts[0].limbo {
        HeadCounts(ts[0], Limbo(ts[1..]), t);
      } else {
        assert Limbo(ts) == Limbo(ts[1..]);
      }
    }
  }

  // ---- letting go of a name ----

  /** Disabled or killed, and nobody attached any more. */
  predicate Spent(d: Dbn) { (d.disable || d.kill) && d.attaches == 0 }

  function Settled(names: seq<Dbn>, k: nat): seq<Dbn>
    requires k < |names|
  {
    if Spent(names[k]) then Without(names, k) else names
  }

  function OwnCall(d: Dbn): seq<Call> { if d.server.Own? then [Detach(d.server.handle)] else [] }

  function Lowered(names: seq<Dbn>, k: nat): seq<Dbn>
    requires k < |names|
  {
    names[k := names[k].(attaches := names[k].attaches - 1)]
  }

  /** strncmp over the length of the name that a client or the utility gives. */
  predicate Begins(d: Dbn, name: string) { |name| <= |d.name| && d.name[..|name|] == name }

  /** The first block in the list that serves the name: neither disabled nor killed, and of that name. */
  ghost predicate FirstFor(names: seq<Dbn>, name: string, k: int)
  {
    && 0 <= k < |names| && !names[k].disable && !names[k].kill && Begins(names[k], name)
    && forall j :: 0 <= j < k ==> names[j].disable || names[j].kill || !Begins(names[j], name)
  }

  class Server {
    var databases: seq<Rdb>
    var names: seq<Dbn>
    var shutdown: bool
    var log: seq<Call>

    constructor (names: seq<Dbn>)
      requires forall i, j :: 0 <= i < j < |names| ==> names[i].id != names[j].id
      requires forall i :: 0 <= i < |names| ==> names[i].attaches == 0
      ensures Valid() && this.names == names && databases == [] && !shutdown && log == []
    {
      this.names, databases, shutdown, log := names, [], false, [];
    }

    ghost predicate Valid()
      reads this
    {
      Books(databases, names) && (shutdown ==> names == [])
    }

    /** The server goes down only when no name and no attachment is left. */
    lemma ShutdownIsSafe()
      requires Valid() && shutdown
      ensures names == [] && databases == []
    {
      AllGone(databases, names);
    }

    method FindName(name: string, search: bool) returns (k: int)
      ensures -1 <= k < |names|
      ensures k >= 0 ==> name <= names[k].name && (search || !(names[k].disable || names[k].kill))
      ensures forall j :: 0 <= j < (if k >= 0 then k else |names|) ==>
                !(name <= names[j].name && (search || !(names[j].disable || names[j].kill)))
    {
      k := 0;
      while k < |names|
        invariant 0 <= k <= |names|
        invariant forall j :: 0 <= j < k ==> !(name <= names[j].name && (search || !(names[j].disable || names[j].kill)))
      {
        if (search || !(names[k].disable || names[k].kill)) && name <= names[k].name { return; }
        k := k + 1;
      }
      k := -1;
    }

    /** attach_database: `handle` is what the engine answers, NoOwn when it refuses; `k` is the name block used, or -1. */
    method Attach(name: string, connection: int, handle: Own) returns (k: int)
      requires Valid() && forall i :: 0 <= i < |databases| ==> databases[i].connection != connection
      modifies `databases, `names
      ensures Valid() && -1 <= k < |names| == |old(names)|
      ensures k >= 0 <==> handle.Own? && exists j :: FirstFor(old(names), name, j)
                                                      && (old(names)[j].max == 0 || old(names)[j].attaches < old(names)[j].max)
      ensures k >= 0 ==> && FirstFor(old(names), name, k)
                         && names == old(names)[k := old(names)[k].(attaches := old(names)[k].attaches + 1)]
                         && (names[k].max != 0 ==> names[k].attaches <= names[k].max)
                         && databases == [Rdb(handle.handle, connection, names[k].id, [])] + old(databases)
      ensures k < 0 ==> databases == old(databases) && names == old(names)
    {
      k := FindName(name, false);
      if k < 0 || (names[k].max != 0 && names[k].attaches >= names[k].max) || handle.NoOwn? {
        return -1;
      }
      var rdb := Rdb(handle.handle, connection, names[k].id, []);
      BooksAttach(databases, names, k, rdb);
      databases := [rdb] + databases;
      names := names[k := names[k].(attaches := names[k].attaches + 1)];
    }

    /** check_if_done on the name block at `k`. */
    method CheckIfDone(k: nat)
      requires Valid() && k < |names|
      modifies `names, `shutdown, `log
      ensures Valid() && names == Settled(old(names), k)
      ensures log == old(log) + if Spent(old(names)[k]) then OwnCall(old(names)[k]) else []
      ensures shutdown == (old(shutdown) || (Spent(old(names)[k]) && names == []))
      ensures var d := old(names)[k];
              if (d.disable || d.kill) && d.attaches == 0 then
                && names == old(names)[..k] + old(names)[k + 1..]
                && log == (match d.server case Own(h) => old(log) + [Detach(h)] case NoOwn => old(log))
                && (names == [] ==> shutdown)
              else names == old(names) && log == old(log) && shutdown == old(shutdown)
    {
      var d := names[k];
      if !(d.disable || d.kill) || d.attaches != 0 {
        return;
      }
      if d.server.Own? {
        log := log + [Detach(d.server.handle)];
      }
      BooksForget(databases, names, k);
      names := names[..k] + names[k + 1..];
      if names == [] {
        shutdown := true;
      }
    }

    /** release_database on the attachment at `i`, made under the name block at `k`. */
    method ReleaseDatabase(i: nat, k: nat)
      requires Valid() && i < |databases| && k < |names| && databases[i].dbn == names[k].id
      modifies `databases, `names, `shutdown, `log
      ensures Valid() && databases == Without(old(databases), i)
      ensures names == Settled(Lowered(old(names), k), k)
      ensures log == old(log) + if Spent(Lowered(old(names), k)[k]) then OwnCall(old(names)[k]) else []
      ensures shutdown == (old(shutdown) || (Spent(Lowered(old(names), k)[k]) && names == []))
      ensures var d := old(names)[k];
              if (d.disable || d.kill) && d.attaches == 1 then
                && names == old(names)[..k] + old(names)[k + 1..]
                && log == (match d.server case Own(h) => old(log) + [Detach(h)] case NoOwn => old(log))
              else names == old(names)[k := d.(attaches := d.attaches - 1)] && log == old(log)
    {
      BooksRelease(databases, names, i, k);
      databases := databases[..i] + databases[i + 1..];
      names := names[k := names[k].(attaches := names[k].attaches - 1)];
      CheckIfDone(k);
    }

    /** Aborts what is outstanding: every transaction not in limbo is rolled back once and released. */
    method AbortTransactions(ts: seq<Rtr>) returns (left: seq<Rtr>)
      modifies `log
      ensures log == old(log) + Rollbacks(ts) && left == Limbo(ts)
    {
      left := ts;
      var j := 0;
      assert ts[0..] == ts;
      while j < |left|
        invariant 0 <= j <= |left|
        invariant Aborting(log, left, j, old(log), ts)
        decreases |left| - j
      {
        AbortStep(log, left, j, old(log), ts);
        if !left[j].limbo {
          log := log + [Rollback(left[j].handle)];
          left := left[..j] + left[j + 1..];
        } else {
          j := j + 1;
        }
      }
    }

    /** Where a name block stands in the list. */
    method Locate(id: int) returns (k: nat)
      requires Listed(names, id)
      ensures k < |names| && names[k].id == id
    {
      k := 0;
      while names[k].id != id
        invariant 0 <= k < |names|
        invariant exists m :: k <= m < |names| && names[m].id == id
        decreases |names| - k
      {
        k := k + 1;
      }
    }

    /** disconnect; `i` and `k` are -1 when no attachment has this connection. */
    method Disconnect(connection: int) returns (i: int, k: int)
      requires Valid()
      modifies this
      ensures Valid()
      ensures i < 0 ==> databases == old(databases) && names == old(names) && log == old(log) && shutdown == old(shutdown)
      ensures i < 0 ==> forall j :: 0 <= j < |databases| ==> databases[j].connection != connection
      ensures i >= 0 ==> && i < |old(databases)| && old(databases)[i].connection == connection
                         && 0 <= k < |old(names)| && old(databases)[i].dbn == old(names)[k].id
                         && databases == Without(old(databases), i) && names == Settled(Lowered(old(names), k), k)
                         && log == old(log) + Farewell(old(databases)[i])
                                   + (if Spent(Lowered(old(names), k)[k]) then OwnCall(old(names)[k]) else [])
                         && shutdown == (old(shutdown) || (Spent(Lowered(old(names), k)[k]) && names == []))
      ensures i >= 0 ==> var rdb, d := old(databases)[i], old(names)[k];
                         log == old(log) + (Rollbacks(rdb.transactions) + [Detach(rdb.handle)])
                                + (if d.server.Own? && (d.disable || d.kill) && d.attaches == 1 then [Detach(d.server.handle)] else [])
    {
      i, k := 0, 0;
      while i < |databases| && databases[i].connection != connection
        invariant 0 <= i <= |databases|
        invariant forall j :: 0 <= j < i ==> databases[j].connection != connection
      {
        i := i + 1;
      }
      if i == |databases| {
        return -1, -1;
      }
      k := Locate(databases[i].dbn);
      Regroup(log, Rollbacks(databases[i].transactions), [Detach(databases[i].handle)]);
      var left := AbortTransactions(databases[i].transactions);
      log := log + [Detach(databases[i].handle)];
      ReleaseDatabase(i, k);
    }

    /** Sets a flag of the name block at `k`; the books do not depend on it. */
    method Flag(k: nat, disable: bool, kill: bool)
      requires Valid() && k < |names|
      modifies `names
      ensures Valid() && names == old(names)[k := old(names)[k].(disable := disable, kill := kill)]
    {
      var was := names;
      names := names[k := names[k].(disable := disable, kill := kill)];
      forall i | 0 <= i < |databases| ensures Listed(names, databases[i].dbn) {
        var m :| 0 <= m < |was| && was[m].id == databases[i].dbn;
        assert names[m].id == databases[i].dbn;
      }
    }

    /** disable_or_kill on the name block at `k`. */
    method DisableOrKill(k: nat, cmd: Command)
      requires Valid() && k < |names|
      modifies this
      ensures Valid() && (cmd != Kill ==> databases == old(databases))
      ensures cmd == Reenable ==> names == old(names)[k := old(names)[k].(disable := false)] && log == old(log) && shutdown == old(shutdown)
      ensures cmd == Disable ==> names == Settled(old(names)[k := old(names)[k].(disable := true)], k)
      ensures cmd == Disable ==> log == old(log) + if old(names)[k].attaches == 0 then OwnCall(old(names)[k]) else []
      ensures cmd == Disable ==> shutdown == (old(shutdown) || (old(names)[k].attaches == 0 && names == []))
      ensures cmd == Kill ==> databases == Others(old(databases), old(names)[k].id) && names == Without(old(names), k)
      ensures cmd == Kill ==> log == old(log) + Farewells(old(databases), old(names)[k].id) + OwnCall(old(names)[k])
      ensures cmd == Kill ==> shutdown == (old(shutdown) || names == [])
    {
      if cmd == Reenable {
        Flag(k, false, names[k].kill);
        assert names[k] == old(names)[k].(disable := false);
        return;
      }
      if cmd == Disable {
        DisableName(k);
        return;
      }
      KillName(k);
    }

    /** The disable command: the flag and the quick check. */
    method DisableName(k: nat)
      requires Valid() && k < |names|
      modifies `names, `shutdown, `log
      ensures Valid() && names == Settled(old(names)[k := old(names)[k].(disable := true)], k)
      ensures log == old(log) + if old(names)[k].attaches == 0 then OwnCall(old(names)[k]) else []
      ensures shutdown == (old(shutdown) || (old(names)[k].attaches == 0 && names == []))
    {
      Flag(k, true, names[k].kill);
      assert names[k] == old(names)[k].(disable := true);
      CheckIfDone(k);
    }

    /** The kill command: the flag, the quick check, and then the attachments. */
    method KillName(k: nat)
      requires Valid() && k < |names|
      modifies this
      ensures Valid() && databases == Others(old(databases), old(names)[k].id) && names == Without(old(names), k)
      ensures log == old(log) + Farewells(old(databases), old(names)[k].id) + OwnCall(old(names)[k])
      ensures shutdown == (old(shutdown) || names == [])
    {
      var id := names[k].id;
      Updated(names, k, names[k].(kill := true));
      NothingSaid(databases, id);
      ghost var flagged, said := names[k := names[k].(kill := true)], Farewells(databases, id);
      OnceOnly(log, OwnCall(flagged[k]), said, Spent(flagged[k]));
      Condemn(k);
      KillAttachments(id, k, flagged, Spent(flagged[k]));
    }

    /** The flag and the quick check. */
    method Condemn(k: nat)
      requires Valid() && k < |names|
      modifies `names, `shutdown, `log
      ensures var flagged := old(names)[k := old(names)[k].(kill := true)];
              && Valid() && Dying(flagged, k, Spent(flagged[k]))
              && log == old(log) + (if Spent(flagged[k]) then OwnCall(flagged[k]) else [])
              && shutdown == (old(shutdown) || (Spent(flagged[k]) && names == []))
    {
      ghost var flagged := names[k := names[k].(kill := true)];
      assert flagged[k := flagged[k]] == flagged && flagged[k].attaches == Count(databases, flagged[k].id);
      Flag(k, names[k].disable, true);
      assert names == flagged;
      CheckIfDone(k);
    }

    /** One round of server_utility's loop over all names: the next position is the same one if the name went away. */
    method OneName(i: nat, cmd: Command) returns (next: nat)
      requires Valid() && i < |names|
      modifies this
      ensures Valid() && next <= |names| && |names| - next < |old(names)| - i
      ensures names[..next] == old(names)[..i] + Left(cmd, [old(names)[i]]) && names[next..] == old(names)[i + 1..]
      ensures databases == if cmd == Kill then Others(old(databases), old(names)[i].id) else old(databases)
      ensures log == old(log) + Said(cmd, old(databases), old(names)[i])
      ensures shutdown == (old(shutdown) || names == [])
    {
      var id := names[i].id;
      ghost var was := names;
      if cmd == Kill { Regroup(log, Farewells(databases, id), OwnCall(was[i])); }
      DisableOrKill(i, cmd);
      next := if i < |names| && names[i].id == id then i + 1 else i;
      Rounded(cmd, was, i, names);
    }

    /** server_utility with a command for all names. */
    method AllNames(cmd: Command)
      requires Valid()
      modifies this
      ensures Valid() && names == Left(cmd, old(names))
      ensures databases == if cmd == Kill then [] else old(databases)
      ensures log == old(log) + SaidAll(cmd, old(databases), old(names))
      ensures shutdown == (old(shutdown) || (old(names) != [] && names == []))
    {
      var i := 0;
      ghost var said := [];
      assert names[0..] == names && names[..0] == [];
      while i < |names|
        invariant 0 <= i <= |names| && Valid()
        invariant names[..i] + Left(cmd, names[i..]) == Left(cmd, old(names))
        invariant shutdown == (old(shutdown) || (names == [] && old(names) != []))
        invariant cmd != Kill ==> databases == old(databases)
        invariant log == old(log) + said && said + SaidAll(cmd, databases, names[i..]) == SaidAll(cmd, old(databases), old(names))
        decreases |names| - i
      {
        ghost var was, ds, j := names, databases, i;
        SaidStep(cmd, ds, was, j, said, old(log));
        i := OneName(i, cmd);
        LeftRound(cmd, was, j, names, i);
        said := said + Said(cmd, ds, was[j]);
      }
      assert names[..i] == names && names[i..] == [];
      if cmd == Kill {
        AllGone(databases, names);
      }
    }

    /** server_utility's enable: a name not yet serviced is entered, unless the server is to make its own attachment and fails. */
    method Enable(name: string, id: int, service: Service) returns (ok: bool)
      requires Valid() && !shutdown && !Listed(names, id)
      modifies `names
      ensures Valid() && ok == ((forall k :: 0 <= k < |old(names)| ==> !(name <= old(names)[k].name)) && service != Failed)
      ensures names == if ok then [Dbn(id, name, 0, 0, false, false, OwnOf(service))] + old(names) else old(names)
      ensures ok ==> names[0].server == if service.Attached? then Own(service.handle) else NoOwn
    {
      var k := FindName(name, true);
      ok := k < 0 && service != Failed;
      if ok {
        var d := Dbn(id, name, 0, 0, false, false, OwnOf(service));
        BooksEnter(databases, names, d);
        names := [d] + names;
      }
    }

    /** A new transaction of an attachment (make_transaction), at the head of its list. */
    method StartTransaction(i: nat, handle: int)
      requires Valid() && i < |databases|
      modifies `databases
      ensures Valid()
      ensures var rdb := old(databases)[i];
              databases == old(databases)[i := rdb.(transactions := [Rtr(handle, false)] + rdb.transactions)]
    {
      SetTransactions(i, [Rtr(handle, false)] + databases[i].transactions);
    }

    /** A prepared or commit-retained transaction counts as limbo. */
    method MarkLimbo(i: nat, j: nat)
      requires Valid() && i < |databases| && j < |databases[i].transactions|
      modifies `databases
      ensures Valid()
      ensures var rdb := old(databases)[i];
              databases == old(databases)[i := rdb.(transactions := rdb.transactions[j := rdb.transactions[j].(limbo := true)])]
    {
      SetTransactions(i, databases[i].transactions[j := databases[i].transactions[j].(limbo := true)]);
    }

    /** A committed or rolled-back transaction is released. */
    method EndTransaction(i: nat, j: nat)
      requires Valid() && i < |databases| && j < |databases[i].transactions|
      modifies `databases
      ensures Valid()
      ensures var rdb := old(databases)[i];
              databases == old(databases)[i := rdb.(transactions := Without(rdb.transactions, j))]
    {
      SetTransactions(i, Without(databases[i].transactions, j));
    }

    method SetTransactions(i: nat, ts: seq<Rtr>)
      requires Valid() && i < |databases|
      modifies `databases
      ensures Valid() && databases == old(databases)[i := old(databases)[i].(transactions := ts)]
    {
      ghost var ds := databases;
      databases := databases[i := databases[i].(transactions := ts)];
      SameCounts(ds, databases);
    }

    /** How the name block at `k` of `was` stands while its attachments are being killed. */
    ghost predicate Dying(was: seq<Dbn>, k: nat, gone: bool)
      requires k < |was|
      reads this
    {
      if gone then names == Without(was, k) && Count(databases, was[k].id) == 0
      else names == was[k := was[k].(attaches := Count(databases, was[k].id))] && Count(databases, was[k].id) > 0
    }

    /** Kills the attachment at `i`; with the last one the name block goes too. */
    method KillOne(i: nat, ghost was: seq<Dbn>, ghost k: nat) returns (ghost gone: bool)
      requires Valid() && k < |was| && was[k].kill && Dying(was, k, false) && i < |databases| && databases[i].dbn == was[k].id
      modifies this
      ensures Valid() && Dying(was, k, gone) && databases == Without(old(databases), i)
      ensures log == old(log) + Farewell(old(databases)[i]) + (if gone then OwnCall(was[k]) else [])
      ensures shutdown == (old(shutdown) || (gone && names == []))
    {
      CountDrop(databases, i, was[k].id);
      ghost var ns := names;
      var j, m := Disconnect(databases[i].connection);
      OnlyOne(old(databases), ns, i, j, k, m);
      gone := Spent(Lowered(ns, k)[k]);
    }

    /** How far the kill command has come at position `i`, seen from where it began. */
    ghost predicate Killing(i: nat, id: int, was: seq<Dbn>, k: nat, gone: bool, said: seq<Call>, ds: seq<Rdb>, before: seq<Call>, already: bool)
      requires k < |was|
      reads this
    {
      && Valid() && Dying(was, k, gone) && (already ==> gone)
      && Progress(databases, i, id, said, ds)
      && log == before + said + (if gone && !already then OwnCall(was[k]) else [])
    }

    /** One round of the loop. */
    method KillStep(i: nat, id: int, ghost was: seq<Dbn>, ghost k: nat, ghost gone: bool, ghost said: seq<Call>,
                    ghost ds: seq<Rdb>, ghost before: seq<Call>, ghost already: bool)
      returns (next: nat, ghost gone': bool, ghost said': seq<Call>)
      requires k < |was| && was[k].kill && was[k].id == id && i < |databases|
      requires Killing(i, id, was, k, gone, said, ds, before, already)
      modifies this
      ensures Killing(next, id, was, k, gone', said', ds, before, already) && |databases| - next < |old(databases)| - i
      ensures gone ==> gone'
      ensures shutdown == (old(shutdown) || (gone' && !gone && names == []))
      ensures gone == gone' ==> (names == [] <==> old(names) == [])
    {
      Onward(databases, i, id, said, ds);
      if databases[i].dbn == id {
        assert !gone;
        Regroup(before, said, Farewell(databases[i]));
        assert before + said + [] == before + said;
        said' := said + Farewell(databases[i]);
        gone' := KillOne(i, was, k);
        next := i;
      } else {
        next, gone', said' := i + 1, gone, said;
      }
    }

    /** The loop of the kill command. */
    method KillAttachments(id: int, ghost k: nat, ghost was: seq<Dbn>, ghost already: bool)
      requires Valid() && k < |was| && was[k].kill && was[k].id == id && Dying(was, k, already)
      modifies this
      ensures Valid() && databases == Others(old(databases), id) && names == Without(was, k)
      ensures log == old(log) + Farewells(old(databases), id) + (if already then [] else OwnCall(was[k]))
      ensures shutdown == (old(shutdown) || (!already && names == []))
    {
      var i: nat := 0;
      ghost var gone, said := already, [];
      Start(databases, id);
      while i < |databases|
        invariant i <= |databases| && Killing(i, id, was, k, gone, said, old(databases), old(log), already)
        invariant shutdown == (old(shutdown) || (gone && !already && names == []))
        decreases |databases| - i
      {
        i, gone, said := KillStep(i, id, was, k, gone, said, old(databases), old(log), already);
      }
      Finish(databases, id, said, old(databases));
    }
  }

  /** Everything before `i` stays; what has been said and what the rest will say make up the farewells. */
  ghost predicate Progress(ds: seq<Rdb>, i: nat, id: int, said: seq<Call>, was: seq<Rdb>)
  {
    && i <= |ds| && (forall j :: 0 <= j < i ==> ds[j].dbn != id)
    && ds[..i] + Others(ds[i..], id) == Others(was, id)
    && said + Farewells(ds[i..], id) == Farewells(was, id)
  }

  lemma Start(ds: seq<Rdb>, id: int)
    ensures Progress(ds, 0, id, [], ds)
  {
    assert ds[0..] == ds;
  }

  lemma Finish(ds: seq<Rdb>, id: int, said: seq<Call>, was: seq<Rdb>)
    requires Progress(ds, |ds|, id, said, was)
    ensures ds == Others(was, id) && said == Farewells(was, id) && Count(ds, id) == 0
  {
    assert ds[|ds|..] == [] && ds[..|ds|] == ds;
    CountZero(ds, id);
  }

  lemma {:induction false} Pass(ds: seq<Rdb>, i: nat, id: int, said: seq<Call>, was: seq<Rdb>)
    requires i < |ds| && Progress(ds, i, id, said, was) && ds[i].dbn != id
    ensures Progress(ds, i + 1, id, said, was)
  {
    assert ds[i..][0] == ds[i] && ds[i..][1..] == ds[i + 1..];
    assert ds[..i + 1] == ds[..i] + [ds[i]];
    assert Others(ds[i..], id) == [ds[i]] + Others(ds[i + 1..], id);
    assert Farewells(ds[i..], id) == Farewells(ds[i + 1..], id);
    Regroup(ds[..i], [ds[i]], Others(ds[i + 1..], id));
  }

  lemma {:induction false} Part(ds: seq<Rdb>, i: nat, id: int, said: seq<Call>, was: seq<Rdb>)
    requires i < |ds| && Progress(ds, i, id, said, was) && ds[i].dbn == id
    ensures Progress(Without(ds, i), i, id, said + Farewell(ds[i]), was)
  {
    var ds' := Without(ds, i);
    assert ds[i..][1..] == ds[i + 1..];
    assert ds'[..i] == ds[..i] && ds'[i..] == ds[i + 1..];
    Regroup(said, Farewell(ds[i]), Farewells(ds[i + 1..], id));
  }

  /** Passing the attachment at `i`, or dropping it. */
  lemma {:induction false} Onward(ds: seq<Rdb>, i: nat, id: int, said: seq<Call>, was: seq<Rdb>)
    requires i < |ds| && Progress(ds, i, id, said, was)
    ensures ds[i].dbn != id ==> Progress(ds, i + 1, id, said, was)
    ensures ds[i].dbn == id ==> Progress(Without(ds, i), i, id, said + Farewell(ds[i]), was) && Count(ds, id) > 0
  {
    CountZero(ds, id);
    if ds[i].dbn == id { Part(ds, i, id, said, was); } else { Pass(ds, i, id, said, was); }
  }

  /** The server's own call comes once, before everybody else's when those are none, or behind them. */
  lemma OnceOnly(before: seq<Call>, own: seq<Call>, said: seq<Call>, early: bool)
    requires early ==> said == []
    ensures before + (if early then own else []) + said + (if early then [] else own) == before + said + own
  {
  }

  lemma Updated<T>(s: seq<T>, k: nat, x: T)
    requires k < |s|
    ensures Without(s[k := x], k) == Without(s, k)
  {
  }

  lemma {:induction false} NothingSaid(ds: seq<Rdb>, id: int)
    ensures Count(ds, id) == 0 ==> Farewells(ds, id) == []
  {
    if ds != [] { NothingSaid(ds[1..], id); }
  }

  /** The names that stay when all are disabled. */
  function Busy(names: seq<Dbn>): seq<Dbn>
  {
    if names == [] then [] else (if names[0].attaches == 0 then [] else [names[0].(disable := true)]) + Busy(names[1..])
  }

  /** All names, none disabled. */
  function Enabled(names: seq<Dbn>): seq<Dbn>
  {
    if names == [] then [] else [names[0].(disable := false)] + Enabled(names[1..])
  }

  /** What a command for all names leaves of them. */
  function Left(cmd: Command, names: seq<Dbn>): seq<Dbn>
  {
    match cmd
    case Kill => []
    case Disable => Busy(names)
    case Reenable => Enabled(names)
  }

  lemma {:induction false} LeftStep(cmd: Command, names: seq<Dbn>, i: nat)
    requires i < |names|
    ensures Left(cmd, names[i..]) == Left(cmd, [names[i]]) + Left(cmd, names[i + 1..])
  {
    assert names[i..][1..] == names[i + 1..];
    LeftOne(names[i]);
  }

  lemma {:induction false} LeftOne(d: Dbn)
    ensures Busy([d]) == (if d.attaches == 0 then [] else [d.(disable := true)]) && Enabled([d]) == [d.(disable := false)]
  {
    assert [d][1..] == [];
  }

  /** What became of the name at `i`, told by whether it is still there. */
  lemma {:induction false} Rounded(cmd: Command, was: seq<Dbn>, i: nat, names: seq<Dbn>)
    requires i < |was| && forall j :: i < j < |was| ==> was[j].id != was[i].id
    requires names == match cmd
                      case Kill => Without(was, i)
                      case Disable => Settled(was[i := was[i].(disable := true)], i)
                      case Reenable => was[i := was[i].(disable := false)]
    ensures var next := if i < |names| && names[i].id == was[i].id then i + 1 else i;
            && next <= |names| && |names| - next < |was| - i
            && names[..next] == was[..i] + Left(cmd, [was[i]]) && names[next..] == was[i + 1..]
  {
    LeftOne(was[i]);
    if cmd == Kill || (cmd == Disable && was[i].attaches == 0) {
      Updated(was, i, was[i].(disable := true));
      assert names == was[..i] + was[i + 1..];
    }
  }

  /** One round leaves the goal as it was. */
  lemma {:induction false} LeftRound(cmd: Command, was: seq<Dbn>, i: nat, names: seq<Dbn>, next: nat)
    requires i < |was| && next <= |names|
    requires names[..next] == was[..i] + Left(cmd, [was[i]]) && names[next..] == was[i + 1..]
    ensures names[..next] + Left(cmd, names[next..]) == was[..i] + Left(cmd, was[i..])
  {
    LeftStep(cmd, was, i);
    var front, one, rest := was[..i], Left(cmd, [was[i]]), Left(cmd, was[i + 1..]);
    assert front + one + rest == front + (one + rest);
  }

  /** Without names there are no attachments. */
  lemma AllGone(ds: seq<Rdb>, names: seq<Dbn>)
    requires Books(ds, names)
    ensures names == [] ==> ds == []
  {
    assert ds != [] ==> Listed(names, ds[0].dbn);
  }

  /** What a command for one name makes the server say to the engine, and then for all of them, in list order. */
  function Said(cmd: Command, ds: seq<Rdb>, d: Dbn): seq<Call>
  {
    match cmd
    case Kill => Farewells(ds, d.id) + OwnCall(d)
    case Disable => if d.attaches == 0 then OwnCall(d) else []
    case Reenable => []
  }

  function SaidAll(cmd: Command, ds: seq<Rdb>, names: seq<Dbn>): seq<Call>
  {
    if names == [] then [] else Said(cmd, ds, names[0]) + SaidAll(cmd, ds, names[1..])
  }

  lemma {:induction false} OthersSpeak(ds: seq<Rdb>, gone: int, id: int)
    requires id != gone
    ensures Farewells(Others(ds, gone), id) == Farewells(ds, id)
  {
    if ds != [] {
      OthersSpeak(ds[1..], gone, id);
      var o := Others(ds[1..], gone);
      if ds[0].dbn == gone {
        assert Others(ds, gone) == o;
      } else {
        assert Others(ds, gone) == [ds[0]] + o && ([ds[0]] + o)[1..] == o;
      }
    }
  }

  /** Killing one name leaves the farewells of the others as they are. */
  lemma {:induction false} OthersSaid(ds: seq<Rdb>, gone: int, names: seq<Dbn>)
    requires forall i :: 0 <= i < |names| ==> names[i].id != gone
    ensures SaidAll(Kill, Others(ds, gone), names) == SaidAll(Kill, ds, names)
  {
    if names != [] {
      OthersSpeak(ds, gone, names[0].id);
      OthersSaid(ds, gone, names[1..]);
    }
  }

  lemma {:induction false} SaidStep(cmd: Command, ds: seq<Rdb>, names: seq<Dbn>, i: nat, said: seq<Call>, before: seq<Call>)
    requires i < |names| && Books(ds, names)
    ensures var one := Said(cmd, ds, names[i]);
            var ds' := if cmd == Kill then Others(ds, names[i].id) else ds;
            && said + SaidAll(cmd, ds, names[i..]) == said + one + SaidAll(cmd, ds', names[i + 1..])
            && before + said + one == before + (said + one)
  {
    assert names[i..][1..] == names[i + 1..];
    Regroup(said, Said(cmd, ds, names[i]), SaidAll(cmd, ds, names[i + 1..]));
    Regroup(before, said, Said(cmd, ds, names[i]));
    if cmd == Kill {
      var rest := names[i + 1..];
      forall j | 0 <= j < |rest| ensures rest[j].id != names[i].id {
        assert rest[j] == names[i + 1 + j];
      }
      OthersSaid(ds, names[i].id, names[i + 1..]);
    }
  }

  /** Counting looks only at the names the attachments were made under. */
  lemma {:induction false} SameCounts(ds: seq<Rdb>, ds': seq<Rdb>)
    requires |ds| == |ds'| && forall i :: 0 <= i < |ds| ==> ds[i].dbn == ds'[i].dbn
    ensures forall id :: Count(ds, id) == Count(ds', id)
  {
    if ds != [] { SameCounts(ds[1..], ds'[1..]); }
  }

  lemma OnlyOne(ds: seq<Rdb>, names: seq<Dbn>, i: nat, j: int, k: nat, m: int)
    requires Books(ds, names) && i < |ds| && 0 <= j < |ds| && ds[i].connection == ds[j].connection
    requires k < |names| && 0 <= m < |names| && names[m].id == names[k].id
    ensures i == j && k == m
  {
  }
}
