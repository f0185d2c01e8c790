/**
 What the account store guarantees over every run: quotas, the default collection, the meaning of
 "created", whose rows a request can touch, and that no lock is held for ever.
 */
module AccountStore {
  import opened Database
  import opened Services
  import opened Invariant

  // ---- quotas ----

  /** Before its commit no transaction has rows of its own. */
  lemma {:induction false} NoRowsBefore(cfg: Config, db: State, me: ClientId, pc: Pc, c: CltId)
    requires LocalsOk(cfg, db, me, pc) && !pc.ToCommit?
    ensures Rows(Tx(db, me), c) == map[]
  {}

  lemma {:induction false} OneRowAtCommit(cfg: Config, db: State, me: ClientId, w: Work, c: CltId)
    requires WorkOk(cfg, db, me, w) && Rows(Tx(db, me), c) != map[]
    ensures w.ColorIn? && w.created && w.clt == c && Rows(Tx(db, me), c) == map[w.hex := cfg.feel(w.hex)]
  {}

  lemma {:induction false} PendingRow(cfg: Config, db: State, me: ClientId, pc: Pc, c: CltId)
    requires LocalsOk(cfg, db, me, pc) && Rows(Tx(db, me), c) != map[]
    ensures |SeenRows(db, me, c)| <= cfg.colorQuota
  {
    if pc.ToCommit? {
      OneRowAtCommit(cfg, db, me, pc.work, c);
      assert SeenRows(db, me, c) == Rows(db.tables, c)[pc.work.hex := cfg.feel(pc.work.hex)];
    } else {
      NoRowsBefore(cfg, db, me, pc, c);
    }
  }

  lemma {:induction false} SeenRowsFit(cfg: Config, db: State, me: ClientId, pc: Pc, c: CltId)
    requires ColorsOk(cfg, db.tables) && LocalsOk(cfg, db, me, pc) && cfg.Valid()
    ensures |SeenRows(db, me, c)| <= cfg.colorQuota
  {
    if Rows(Tx(db, me), c) != map[] {
      PendingRow(cfg, db, me, pc, c);
    } else {
      assert SeenRows(db, me, c) == Rows(db.tables, c);
      assert c in db.tables.colors ==> RowsOk(cfg, db.tables.colors[c]);
    }
  }

  /**
   No collection ever holds more colors than the quota, not even to a transaction that counts its
   own uncommitted insert on top of the committed rows.
   */
  lemma {:induction false} ColorQuotaHolds(cfg: Config, run: seq<Event>, me: ClientId, c: CltId)
    requires cfg.Valid()
    ensures var db := After(cfg, run).db;
            && |Rows(db.tables, c)| <= cfg.colorQuota
            && |SeenRows(db, me, c)| <= cfg.colorQuota
  {
    var s := After(cfg, run);
    Reachable(cfg, run);
    assert ClientOk(cfg, s.db, me, PcOf(s, me));
    SeenRowsFit(cfg, s.db, me, PcOf(s, me), c);
    assert c in s.db.tables.colors ==> RowsOk(cfg, s.db.tables.colors[c]);
  }

  /** Every stored color_key is the key of its hex, which `sort=color` paging relies on. */
  lemma {:induction false} ColorKeysAreDerived(cfg: Config, run: seq<Event>, c: CltId, h: Hex)
    requires cfg.Valid() && h in Rows(After(cfg, run).db.tables, c)
    ensures Rows(After(cfg, run).db.tables, c)[h] == cfg.feel(h)
  {
    Reachable(cfg, run);
    assert RowsOk(cfg, After(cfg, run).db.tables.colors[c]);
  }

  lemma {:induction false} CommittedCollectionsFit(cfg: Config, t: Tables, h: History, u: UserId)
    requires cfg.Valid() && TablesOk(cfg, t, h)
    ensures |Owned(t.collections, u)| <= cfg.cltQuota
    ensures u !in t.users ==> Owned(t.collections, u) == {}
  {
    assert forall c | c in t.collections :: CollectionOk(t, h, c);
  }

  /** The pending collection of a transaction about to commit, seen on top of the committed ones. */
  lemma {:induction false} PendingCollectionFits(cfg: Config, db: State, me: ClientId, w: Work, u: UserId)
    requires cfg.Valid() && TablesOk(cfg, db.tables, db.history)
    requires WorkOk(cfg, db, me, w) && !w.ColorIn?
    ensures |Owned(SeenCollections(db, me), u)| <= cfg.cltQuota
  {
    CommittedCollectionsFit(cfg, db.tables, db.history, u);
    if w.AccountIn? { CommittedCollectionsFit(cfg, db.tables, db.history, w.user); }
    var row := Tx(db, me).collections[w.clt];
    assert SeenCollections(db, me) == db.tables.collections[w.clt := row];
    OwnedGrows(db.tables.collections, w.clt, row, u);
  }

  lemma {:induction false} NoneInserted(cfg: Config, db: State, me: ClientId, pc: Pc)
    requires ClientOk(cfg, db, me, pc) && !(pc.ToCommit? && !pc.work.ColorIn?)
    ensures SeenCollections(db, me) == db.tables.collections
  {
    assert Tx(db, me).collections == map[];
  }

  lemma {:induction false} SeenCollectionsFit(cfg: Config, db: State, me: ClientId, pc: Pc, u: UserId)
    requires cfg.Valid() && TablesOk(cfg, db.tables, db.history) && ClientOk(cfg, db, me, pc)
    ensures |Owned(SeenCollections(db, me), u)| <= cfg.cltQuota
  {
    if pc.ToCommit? && !pc.work.ColorIn? {
      PendingCollectionFits(cfg, db, me, pc.work, u);
    } else {
      CommittedCollectionsFit(cfg, db.tables, db.history, u);
      NoneInserted(cfg, db, me, pc);
    }
  }

  /** No user ever holds more collections than the quota, the default one included. */
  lemma {:induction false} CollectionQuotaHolds(cfg: Config, run: seq<Event>, me: ClientId, u: UserId)
    requires cfg.Valid()
    ensures var db := After(cfg, run).db;
            && |Owned(db.tables.collections, u)| <= cfg.cltQuota
            && |Owned(SeenCollections(db, me), u)| <= cfg.cltQuota
  {
    var s := After(cfg, run);
    Reachable(cfg, run);
    assert ClientOk(cfg, s.db, me, PcOf(s, me));
    CommittedCollectionsFit(cfg, s.db.tables, s.db.history, u);
    SeenCollectionsFit(cfg, s.db, me, PcOf(s, me), u);
  }

  lemma {:induction false} AfterNext(cfg: Config, run: seq<Event>, e: Event)
    ensures After(cfg, run + [e]) == Step(cfg, After(cfg, run), e)
  {
    assert (run + [e])[..|run + [e]| - 1] == run;
  }

  lemma {:induction false} SignupStarts(cfg: Config, nickname: string)
    ensures var s := After(cfg, [Submit(0, SignupReq(nickname)), Exec(0, 0, 0)]);
            PcOf(s, 0) == SignupDefault(0, nickname) && s.db.tables == EMPTY
            && Tx(s.db, 0) == EMPTY.(users := map[0 := nickname]) && s.db.history.clts == map[]
  {
    var run := [Submit(0, SignupReq(nickname))];
    assert [] + run == run;
    AfterNext(cfg, [], run[0]);
    AfterNext(cfg, run, Exec(0, 0, 0));
  }

  /** One signup: the account and its default collection appear together at the commit. */
  lemma {:induction false} DefaultInserted(cfg: Config, s: System, nickname: string)
    requires PcOf(s, 0) == SignupDefault(0, nickname) && s.db.tables == EMPTY && s.db.history.clts == map[]
    requires Tx(s.db, 0) == EMPTY.(users := map[0 := nickname])
    ensures var s' := Step(cfg, s, Exec(0, 0, 0));
            && PcOf(s', 0) == ToCommit(AccountIn(0, 0, nickname)) && s'.db.tables == EMPTY
            && Tx(s'.db, 0).collections == map[0 := Collection(0, DEF_COLLECTION_NAME, true)]
            && Tx(s'.db, 0).colors == map[]
  {}

  lemma {:induction false} SignupRun(cfg: Config, nickname: string) returns (run: seq<Event>)
    ensures Owned(After(cfg, run).db.tables.collections, 0) == {0}
  {
    var e := Exec(0, 0, 0);
    var started := [Submit(0, SignupReq(nickname)), e];
    SignupStarts(cfg, nickname);
    DefaultInserted(cfg, After(cfg, started), nickname);
    AfterNext(cfg, started, e);
    FirstAccountCommits(cfg, After(cfg, started + [e]), nickname);
    AfterNext(cfg, started + [e], e);
    run := started + [e] + [e];
  }

  lemma {:induction false} FirstAccountCommits(cfg: Config, s: System, nickname: string)
    requires PcOf(s, 0) == ToCommit(AccountIn(0, 0, nickname)) && s.db.tables == EMPTY
    requires Tx(s.db, 0).collections == map[0 := Collection(0, DEF_COLLECTION_NAME, true)]
    requires Tx(s.db, 0).colors == map[]
    ensures Owned(Step(cfg, s, Exec(0, 0, 0)).db.tables.collections, 0) == {0}
  {
    MergeNoColors(s.db.tables, Tx(s.db, 0));
  }

  /**
   Signup writes the default collection without counting, so the collection quota holds over all
   runs exactly when it is at least one.
   */
  lemma {:induction false} CollectionQuotaHoldsIffPositive(cfg: Config)
    requires cfg.colorQuota >= 1
    ensures (forall run, u :: |Owned(After(cfg, run).db.tables.collections, u)| <= cfg.cltQuota) <==> cfg.cltQuota >= 1
  {
    if cfg.cltQuota >= 1 {
      forall run, u ensures |Owned(After(cfg, run).db.tables.collections, u)| <= cfg.cltQuota {
        CollectionQuotaHolds(cfg, run, 0, u);
      }
    } else {
      var run := SignupRun(cfg, "ada");
      assert |Owned(After(cfg, run).db.tables.collections, 0)| == 1;
    }
  }

  // ---- the default collection ----

  ghost predicate ExactlyOneDefault(t: Tables, u: UserId) {
    exists c :: c in Owned(t.collections, u) && t.collections[c].isDefault
             && forall d | d in Owned(t.collections, u) && t.collections[d].isDefault :: d == c
  }

  /** In every committed state every account has exactly one default collection. */
  lemma {:induction false} OneDefaultEach(cfg: Config, run: seq<Event>, u: UserId)
    requires cfg.Valid() && u in After(cfg, run).db.tables.users
    ensures ExactlyOneDefault(After(cfg, run).db.tables, u)
  {
    var db := After(cfg, run).db;
    Reachable(cfg, run);
    assert DefaultOk(db.tables, db.history, u);
    var c := db.history.defaults[u];
    assert c in Owned(db.tables.collections, u);
    forall d | d in Owned(db.tables.collections, u) && db.tables.collections[d].isDefault ensures d == c {
      assert CollectionOk(db.tables, db.history, d);
    }
  }

  // ---- what AddColor answers ----

  /** How many statements a client holding a lock still has to run before it lets go. */
  function Remaining(pc: Pc): nat {
    match pc
    case AddCount(_, _, _) => 3
    case NewCount(_, _) => 3
    case AddDecide(_, _, _, _) => 2
    case NewDecide(_, _, _) => 2
    case ToCommit(_) => 1
    case ToRollback(_) => 1
    case _ => 0
  }

  /** The deciding statement of AddColor, read off the committed rows of its instant and the number it carries. */
  lemma {:induction false} DecideFromCommitted(cfg: Config, s: System, me: ClientId, pc: Pc)
    requires Inv(cfg, s) && pc == PcOf(s, me) && pc.AddDecide?
    ensures DecidesRight(cfg, s, me, pc, ExecAddDecide(cfg, s, me, pc))
    ensures Remaining(PcOf(ExecAddDecide(cfg, s, me, pc), me)) == 1
  {
    assert ClientOk(cfg, s.db, me, pc);
    NothingPendingElsewhere(cfg, s, me, pc.clt, pc.hex);
    if pc.n >= cfg.colorQuota {
      DecideAtQuota(cfg, s, me, pc);
    } else {
      DecideBelowQuota(cfg, s, me, pc, AddColor(s.db, me, pc.clt, pc.hex, cfg.feel(pc.hex)));
    }
  }

  /** What the statement should do to `s`, read off the committed rows. */
  ghost predicate DecidesRight(cfg: Config, s: System, me: ClientId, pc: Pc, s': System)
    requires pc.AddDecide?
  {
    var rows := Rows(s.db.tables, pc.clt);
    && |rows| <= pc.n && s'.db.tables == s.db.tables
    && PcOf(s', me) ==
         if pc.hex in rows then ToCommit(ColorIn(pc.user, pc.clt, pc.hex, false))
         else if pc.n >= cfg.colorQuota then ToRollback(ColorQuotaFull)
         else ToCommit(ColorIn(pc.user, pc.clt, pc.hex, true))
  }

  lemma {:induction false} DecideAtQuota(cfg: Config, s: System, me: ClientId, pc: Pc)
    requires pc.AddDecide? && Tx(s.db, me) == EMPTY && |Rows(s.db.tables, pc.clt)| <= pc.n
    requires pc.n >= cfg.colorQuota
    ensures DecidesRight(cfg, s, me, pc, ExecAddDecide(cfg, s, me, pc))
    ensures Remaining(PcOf(ExecAddDecide(cfg, s, me, pc), me)) == 1
  {
    var has := pc.hex in Rows(s.db.tables, pc.clt);
    HasCommitted(s.db, me, pc.clt, pc.hex);
    AtQuota(cfg, s, me, pc, has);
    RightAtQuota(cfg, s, me, pc, has, ExecAddDecide(cfg, s, me, pc));
  }

  lemma {:induction false} HasCommitted(db: State, me: ClientId, c: CltId, h: Hex)
    requires Tx(db, me) == EMPTY
    ensures HasColor(db, me, c, h) <==> h in Rows(db.tables, c)
  {
    SeesCommittedRows(db, me, c);
  }

  lemma {:induction false} RightAtQuota(cfg: Config, s: System, me: ClientId, pc: Pc, has: bool, s': System)
    requires pc.AddDecide? && |Rows(s.db.tables, pc.clt)| <= pc.n && pc.n >= cfg.colorQuota
    requires has == (pc.hex in Rows(s.db.tables, pc.clt))
    requires var next := if has then ToCommit(ColorIn(pc.user, pc.clt, pc.hex, false)) else ToRollback(ColorQuotaFull);
             s' == Goto(s, me, s.db, next)
    ensures DecidesRight(cfg, s, me, pc, s') && Remaining(PcOf(s', me)) == 1
  {}

  lemma {:induction false} DecideBelowQuota(cfg: Config, s: System, me: ClientId, pc: Pc, r: Reply<bool>)
    requires pc.AddDecide? && Tx(s.db, me) == EMPTY && |Rows(s.db.tables, pc.clt)| <= pc.n
    requires pc.clt in s.db.tables.collections && !PendingElsewhere(s.db, me, pc.clt, pc.hex)
    requires pc.n < cfg.colorQuota && r == AddColor(s.db, me, pc.clt, pc.hex, cfg.feel(pc.hex))
    ensures DecidesRight(cfg, s, me, pc, ExecAddDecide(cfg, s, me, pc))
    ensures Remaining(PcOf(ExecAddDecide(cfg, s, me, pc), me)) == 1
  {
    FirstColorInsert(s.db, me, pc.clt, pc.hex, cfg.feel(pc.hex));
    BelowQuota(cfg, s, me, pc, r);
    RightBelowQuota(cfg, s, me, pc, r, ExecAddDecide(cfg, s, me, pc));
  }

  lemma {:induction false} RightBelowQuota(
      cfg: Config, s: System, me: ClientId, pc: Pc, r: Reply<bool>, s': System)
    requires pc.AddDecide? && |Rows(s.db.tables, pc.clt)| <= pc.n && pc.n < cfg.colorQuota
    requires r.Returns? && r.value == (pc.hex !in Rows(s.db.tables, pc.clt)) && r.db.tables == s.db.tables
    requires s' == Goto(s, me, r.db, ToCommit(ColorIn(pc.user, pc.clt, pc.hex, r.value)))
    ensures DecidesRight(cfg, s, me, pc, s') && Remaining(PcOf(s', me)) == 1
  {}

  lemma {:induction false} AtQuota(cfg: Config, s: System, me: ClientId, pc: Pc, has: bool)
    requires pc.AddDecide? && pc.n >= cfg.colorQuota && has == HasColor(s.db, me, pc.clt, pc.hex)
    ensures var next := if has then ToCommit(ColorIn(pc.user, pc.clt, pc.hex, false)) else ToRollback(ColorQuotaFull);
            ExecAddDecide(cfg, s, me, pc) == Goto(s, me, s.db, next)
  {}

  lemma {:induction false} BelowQuota(cfg: Config, s: System, me: ClientId, pc: Pc, r: Reply<bool>)
    requires pc.AddDecide? && pc.n < cfg.colorQuota && r.Returns?
    requires r == AddColor(s.db, me, pc.clt, pc.hex, cfg.feel(pc.hex))
    ensures ExecAddDecide(cfg, s, me, pc) == Goto(s, me, r.db, ToCommit(ColorIn(pc.user, pc.clt, pc.hex, r.value)))
  {}

  /** Below the quota the insert neither waits nor fails: the lock keeps everybody else out. */
  lemma {:induction false} InsertReturns(cfg: Config, run: seq<Event>, me: ClientId, pc: Pc)
    requires cfg.Valid() && pc == PcOf(After(cfg, run), me) && pc.AddDecide?
    ensures AddColor(After(cfg, run).db, me, pc.clt, pc.hex, cfg.feel(pc.hex)).Returns?
  {
    var s := After(cfg, run);
    Reachable(cfg, run);
    assert ClientOk(cfg, s.db, me, pc);
    NothingPendingElsewhere(cfg, s, me, pc.clt, pc.hex);
    FirstColorInsert(s.db, me, pc.clt, pc.hex, cfg.feel(pc.hex));
  }

  /** Only the holder of the lock of a collection has uncommitted rows in it. */
  lemma {:induction false} NothingPendingElsewhere(cfg: Config, s: System, me: ClientId, c: CltId, h: Hex)
    requires Inv(cfg, s) && HoldsClt(s.db, me, c)
    ensures !PendingElsewhere(s.db, me, c, h)
  {
    forall you | you in s.db.txs && you != me ensures h !in Rows(s.db.txs[you], c) {
      assert ClientOk(cfg, s.db, you, PcOf(s, you));
      assert Tx(s.db, you) == s.db.txs[you];
    }
  }

  /**
   AddColor answers "created" exactly when its commit put in a row that was absent, and then the
   commit changes nothing else; otherwise the commit changes no table.
   */
  lemma {:induction false} CreatedMeansInserted(
      cfg: Config, run: seq<Event>, me: ClientId, newClt: CltId, newUser: UserId)
    requires cfg.Valid()
    requires PcOf(After(cfg, run), me).ToCommit? && PcOf(After(cfg, run), me).work.ColorIn?
    ensures var s := After(cfg, run);
            var w := PcOf(s, me).work;
            var s' := Step(cfg, s, Exec(me, newClt, newUser));
            var t, t' := s.db.tables, s'.db.tables;
            && PcOf(s', me).Idle?
            && (PcOf(s', me).last == Created <==> w.created)
            && (PcOf(s', me).last == AlreadySaved <==> !w.created)
            && (w.created ==>
                  && w.hex !in Rows(t, w.clt)
                  && t' == t.(colors := t.colors[w.clt := Rows(t, w.clt)[w.hex := cfg.feel(w.hex)]]))
            && (!w.created ==> t' == t)
  {
    var s := After(cfg, run);
    Reachable(cfg, run);
    assert ClientOk(cfg, s.db, me, PcOf(s, me));
    CommitWrites(cfg, s.db, me, PcOf(s, me).work);
  }

  // ---- what CreateCollection and CreateUser rely on ----

  /** Below the quota the insert of a collection succeeds: the lock keeps the user row in place. */
  lemma {:induction false} CollectionInsertReturns(cfg: Config, run: seq<Event>, me: ClientId, pc: Pc, newId: CltId)
    requires cfg.Valid() && pc == PcOf(After(cfg, run), me) && pc.NewDecide?
    requires newId !in After(cfg, run).db.history.clts
    ensures CreateCollection(After(cfg, run).db, me, pc.user, pc.name, false, newId).Returns?
  {
    Reachable(cfg, run);
    assert ClientOk(cfg, After(cfg, run).db, me, pc);
  }

  /** A new account has no default yet, so the second statement of signup succeeds. */
  lemma {:induction false} DefaultInsertReturns(cfg: Config, run: seq<Event>, me: ClientId, pc: Pc, newId: CltId)
    requires cfg.Valid() && pc == PcOf(After(cfg, run), me) && pc.SignupDefault?
    requires newId !in After(cfg, run).db.history.clts
    ensures CreateCollection(After(cfg, run).db, me, pc.user, DEF_COLLECTION_NAME, true, newId).Returns?
  {
    var db := After(cfg, run).db;
    Reachable(cfg, run);
    assert ClientOk(cfg, db, me, pc);
    forall c | c in SeenCollections(db, me) ensures SeenCollections(db, me)[c].owner != pc.user {
      assert CollectionOk(db.tables, db.history, c);
    }
  }

  lemma {:induction false} CollectionCommits(
      cfg: Config, run: seq<Event>, me: ClientId, u: UserId, c: CltId, name: string)
    requires cfg.Valid() && PcOf(After(cfg, run), me) == ToCommit(CollectionIn(u, c, name))
    ensures var t := After(cfg, run).db.tables;
            && c !in t.collections
            && Commit(After(cfg, run).db, me).tables
                 == t.(collections := t.collections[c := Collection(u, name, false)])
  {
    var db := After(cfg, run).db;
    Reachable(cfg, run);
    assert ClientOk(cfg, db, me, PcOf(After(cfg, run), me));
    CommitWrites(cfg, db, me, CollectionIn(u, c, name));
  }

  lemma {:induction false} AccountCommits(
      cfg: Config, run: seq<Event>, me: ClientId, u: UserId, c: CltId, nickname: string)
    requires cfg.Valid() && PcOf(After(cfg, run), me) == ToCommit(AccountIn(u, c, nickname))
    ensures var t := After(cfg, run).db.tables;
            && c !in t.collections && u !in t.users
            && Commit(After(cfg, run).db, me).tables
                 == t.(users := t.users[u := nickname],
                       collections := t.collections[c := Collection(u, "Main", true)])
  {
    var db := After(cfg, run).db;
    Reachable(cfg, run);
    assert ClientOk(cfg, db, me, PcOf(After(cfg, run), me));
    CommitWrites(cfg, db, me, AccountIn(u, c, nickname));
  }

  /** A collection that passed the check of DeleteCollection is not a default when the delete runs. */
  lemma {:induction false} DropsNoDefault(cfg: Config, run: seq<Event>, me: ClientId, u: UserId, c: CltId)
    requires cfg.Valid() && PcOf(After(cfg, run), me) == DropAct(u, c)
    requires c in After(cfg, run).db.tables.collections
    ensures After(cfg, run).db.tables.collections[c].owner == u
    ensures !After(cfg, run).db.tables.collections[c].isDefault
  {
    var db := After(cfg, run).db;
    Reachable(cfg, run);
    assert ClientOk(cfg, db, me, DropAct(u, c));
    BirthOf(db.tables, db.history, c);
  }

  // ---- whose rows a request touches ----

  /** The account a client's request acts for, None for a signup. */
  datatype Actor = Nobody | For(user: UserId)

  function ActorOf(pc: Pc): Actor {
    match pc
    case Idle(_) => Nobody
    case SignupUser(_) => Nobody
    case ToRollback(_) => Nobody
    case ToCommit(w) => For(w.user)
    case _ => For(pc.user)
  }

  /** The collection row `c` and its colors are the same in both tables. */
  ghost predicate SameCollection(t: Tables, t': Tables, c: CltId) {
    && (c in t.collections <==> c in t'.collections)
    && (c in t.collections ==> t'.collections[c] == t.collections[c])
    && Rows(t', c) == Rows(t, c)
  }

  lemma {:induction false} AddWritesNothing(cfg: Config, s: System, me: ClientId, pc: Pc)
    ensures pc.AddLock? ==> ExecAddLock(s, me, pc).db.tables == s.db.tables
    ensures pc.AddDecide? ==> ExecAddDecide(cfg, s, me, pc).db.tables == s.db.tables
  {}

  lemma {:induction false} NewWritesNothing(
      cfg: Config, s: System, me: ClientId, pc: Pc, newClt: CltId, newUser: UserId)
    ensures pc.NewLock? ==> ExecNewLock(s, me, pc).db.tables == s.db.tables
    ensures pc.NewDecide? ==> ExecNewDecide(cfg, s, me, pc, newClt).db.tables == s.db.tables
    ensures pc.SignupUser? ==> ExecSignupUser(s, me, pc, newUser).db.tables == s.db.tables
    ensures pc.SignupDefault? ==> ExecSignupDefault(s, me, pc, newClt).db.tables == s.db.tables
  {}

  /** Until it commits, a transaction changes no committed table; a read never does. */
  lemma {:induction false} WritesNothing(cfg: Config, s: System, me: ClientId, newClt: CltId, newUser: UserId)
    requires var pc := PcOf(s, me); !(pc.ToCommit? || pc.Act? || pc.Rename? || pc.DropAct? || pc.DropRows?)
    ensures ExecNext(cfg, s, me, newClt, newUser).db.tables == s.db.tables
  {
    var pc := PcOf(s, me);
    match pc
    case AddLock(_, _, _) => AddWritesNothing(cfg, s, me, pc);
    case AddDecide(_, _, _, _) => AddWritesNothing(cfg, s, me, pc);
    case NewLock(_, _) => NewWritesNothing(cfg, s, me, pc, newClt, newUser);
    case NewDecide(_, _, _) => NewWritesNothing(cfg, s, me, pc, newClt, newUser);
    case SignupUser(_) => NewWritesNothing(cfg, s, me, pc, newClt, newUser);
    case SignupDefault(_, _) => NewWritesNothing(cfg, s, me, pc, newClt, newUser);
    case DropAccount(_) => assert LockUser(s.db, me, pc.user).Returns? ==>
                                    LockUser(s.db, me, pc.user).db.tables == s.db.tables;
    case _ =>
  }

  lemma {:induction false} CommitStaysHome(cfg: Config, db: State, me: ClientId, w: Work, c: CltId)
    requires WorkOk(cfg, db, me, w) && c in db.history.clts && w.user != db.history.clts[c].owner
    ensures SameCollection(db.tables, Committed(cfg, db, me, w), c)
  {
    match w {
      case ColorIn(_, x, _, _) => assert x != c;
      case CollectionIn(_, x, _) => assert x != c;
      case AccountIn(_, x, _) => assert x != c;
    }
  }

  lemma {:induction false} SetRowsStaysHome(t: Tables, x: CltId, rows: map<Hex, int>, c: CltId)
    requires x != c
    ensures SameCollection(t, SetRows(t, x, rows), c)
  {}

  lemma {:induction false} ActStaysHome(s: System, me: ClientId, pc: Pc, c: CltId)
    requires pc.Act? && pc.clt != c
    ensures SameCollection(s.db.tables, ExecAct(s, me, pc).db.tables, c)
  {
    var rows := Rows(s.db.tables, pc.clt);
    match pc.action
    case RemoveColor(h) =>
      SetRowsStaysHome(s.db.tables, pc.clt, rows - {h}, c);
      AnswerStaysHome(s, me, DeleteColor(s.db, pc.clt, h), c);
    case RemoveAll =>
      SetRowsStaysHome(s.db.tables, pc.clt, map[], c);
      AnswerStaysHome(s, me, DeleteAllColors(s.db, pc.clt), c);
    case List =>
  }

  lemma {:induction false} RowStaysHome(db: State, me: ClientId, u: UserId, x: CltId, name: string, c: CltId)
    requires c in db.tables.collections ==> db.tables.collections[c].owner != u
    ensures UpdateCollection(db, me, u, x, name).Returns? ==>
              SameCollection(db.tables, UpdateCollection(db, me, u, x, name).db.tables, c)
    ensures SameCollection(db.tables, DeleteUser(db, me, u).tables, c)
  {}

  lemma {:induction false} DropStaysHome(db: State, me: ClientId, u: UserId, x: CltId, c: CltId)
    requires c in db.tables.collections ==> db.tables.collections[c].owner != u
    requires c in db.tables.colors ==> c in db.tables.collections
    ensures DeleteCollection(db, me, u, x).Returns? ==>
              SameCollection(db.tables, DeleteCollection(db, me, u, x).db.tables, c)
  {}

  lemma {:induction false} AnswerStaysHome(s: System, me: ClientId, r: Reply<()>, c: CltId)
    requires r.Returns? ==> SameCollection(s.db.tables, r.db.tables, c)
    ensures SameCollection(s.db.tables, Answered(s, me, r).db.tables, c)
  {}

  lemma {:induction false} CascadeStaysHome(s: System, me: ClientId, pc: Pc, x: CltId, c: CltId)
    requires pc.DropRows? && SameCollection(s.db.tables, DeleteUser(s.db, me, pc.user).tables, c)
    ensures SameCollection(s.db.tables, ExecDropRows(s, me, pc, x).db.tables, c)
  {}

  lemma {:induction false} RenameStaysHome(
      cfg: Config, s: System, me: ClientId, newClt: CltId, newUser: UserId, c: CltId)
    requires c in s.db.tables.collections ==> ActorOf(PcOf(s, me)) != For(s.db.tables.collections[c].owner)
    requires PcOf(s, me).Rename?
    ensures SameCollection(s.db.tables, ExecNext(cfg, s, me, newClt, newUser).db.tables, c)
  {
    var pc := PcOf(s, me);
    RowStaysHome(s.db, me, pc.user, pc.clt, pc.name, c);
    AnswerStaysHome(s, me, UpdateCollection(s.db, me, pc.user, pc.clt, pc.name), c);
  }

  lemma {:induction false} LoneStaysHome(
      cfg: Config, s: System, me: ClientId, newClt: CltId, newUser: UserId, c: CltId)
    requires c in s.db.tables.collections ==> ActorOf(PcOf(s, me)) != For(s.db.tables.collections[c].owner)
    requires c in s.db.tables.colors ==> c in s.db.tables.collections
    requires var pc := PcOf(s, me); pc.Rename? || pc.DropAct? || pc.DropRows?
    ensures SameCollection(s.db.tables, ExecNext(cfg, s, me, newClt, newUser).db.tables, c)
  {
    match PcOf(s, me)
    case Rename(_, _, _) => RenameStaysHome(cfg, s, me, newClt, newUser, c);
    case DropAct(u, x) =>
      DropStaysHome(s.db, me, u, x, c);
      AnswerStaysHome(s, me, DeleteCollection(s.db, me, u, x), c);
    case DropRows(u) =>
      RowStaysHome(s.db, me, u, 0, "", c);
      CascadeStaysHome(s, me, PcOf(s, me), newClt, c);
  }

  lemma {:induction false} StatementStaysHome(
      cfg: Config, s: System, me: ClientId, newClt: CltId, newUser: UserId, c: CltId)
    requires Inv(cfg, s) && c in s.db.history.clts
    requires ActorOf(PcOf(s, me)) != For(s.db.history.clts[c].owner)
    ensures SameCollection(s.db.tables, ExecNext(cfg, s, me, newClt, newUser).db.tables, c)
  {
    var pc := PcOf(s, me);
    if pc.ToCommit? {
      assert ClientOk(cfg, s.db, me, pc);
      CommitWrites(cfg, s.db, me, pc.work);
      CommitStaysHome(cfg, s.db, me, pc.work, c);
      assert ExecNext(cfg, s, me, newClt, newUser).db.tables == Commit(s.db, me).tables;
    } else if pc.Act? {
      assert ClientOk(cfg, s.db, me, pc);
      ActStaysHome(s, me, pc, c);
    } else if pc.Rename? || pc.DropAct? || pc.DropRows? {
      assert c in s.db.tables.collections ==> CollectionOk(s.db.tables, s.db.history, c);
      LoneStaysHome(cfg, s, me, newClt, newUser, c);
    } else {
      WritesNothing(cfg, s, me, newClt, newUser);
    }
  }

  /**
   A step of one client changes no collection of any other account and no color in one, whatever
   happened since the request resolved the collection it names.
   */
  lemma {:induction false} StepStaysHome(cfg: Config, run: seq<Event>, e: Event, c: CltId)
    requires cfg.Valid() && c in After(cfg, run).db.history.clts
    requires ActorOf(PcOf(After(cfg, run), e.client)) != For(After(cfg, run).db.history.clts[c].owner)
    ensures SameCollection(After(cfg, run).db.tables, Step(cfg, After(cfg, run), e).db.tables, c)
  {
    var s := After(cfg, run);
    Reachable(cfg, run);
    match e
    case Submit(_, _) =>
    case Exec(me, newClt, newUser) => StatementStaysHome(cfg, s, me, newClt, newUser, c);
    case Abort(_) =>
  }

  /** A listing shows rows of a collection of the caller, or nothing. */
  lemma {:induction false} ListsOwnRows(cfg: Config, run: seq<Event>, me: ClientId, newClt: CltId, newUser: UserId)
    requires cfg.Valid()
    requires PcOf(After(cfg, run), me).Act? && PcOf(After(cfg, run), me).action.List?
    ensures var s := After(cfg, run);
            var pc := PcOf(s, me);
            var s' := Step(cfg, s, Exec(me, newClt, newUser));
            && PcOf(s', me) == Idle(Listed(Rows(s.db.tables, pc.clt)))
            && (pc.clt in s.db.tables.collections ==> s.db.tables.collections[pc.clt].owner == pc.user)
            && (pc.clt !in s.db.tables.collections ==> Rows(s.db.tables, pc.clt) == map[])
  {
    var s := After(cfg, run);
    var pc := PcOf(s, me);
    Reachable(cfg, run);
    assert ClientOk(cfg, s.db, me, pc);
    assert pc.clt in s.db.tables.collections ==> CollectionOk(s.db.tables, s.db.history, pc.clt);
  }

  // ---- ids over a whole run ----

  ghost predicate Extends(h: History, h': History) {
    && (forall c | c in h.clts :: c in h'.clts && h'.clts[c] == h.clts[c])
    && (forall u | u in h.users :: u in h'.users && h'.users[u] == h.users[u])
  }

  /** Handed out, deleted, and in nobody's open transaction. */
  ghost predicate Gone(s: System, c: CltId) {
    && c in s.db.history.clts && c !in s.db.tables.collections
    && forall you: ClientId :: c !in Tx(s.db, you).collections
  }

  /** What one statement can do to ids: nothing, or hand out one that was never handed out. */
  ghost predicate IdStep(db: State, db': State, me: ClientId) {
    && Extends(db.history, db'.history)
    && (forall c | c in db'.tables.collections :: c in db.tables.collections || c in Tx(db, me).collections)
    && (forall you: ClientId :: forall c | c in Tx(db', you).collections ::
          c in Tx(db, you).collections || c !in db.history.clts)
  }

  lemma {:induction false} AddSteps(s: System, me: ClientId, pc: Pc)
    ensures pc.AddLock? ==> IdStep(s.db, ExecAddLock(s, me, pc).db, me)
    ensures pc.AddCount? ==> IdStep(s.db, ExecAddCount(s, me, pc).db, me)
  {}

  lemma {:induction false} DecideStep(cfg: Config, s: System, me: ClientId, pc: Pc)
    requires pc.AddDecide?
    ensures IdStep(s.db, ExecAddDecide(cfg, s, me, pc).db, me)
  {
    AddColorMovesNoIds(s.db, me, pc.clt, pc.hex, cfg.feel(pc.hex));
  }

  lemma {:induction false} AddColorMovesNoIds(db: State, me: ClientId, c: CltId, h: Hex, key: int)
    ensures var r := AddColor(db, me, c, h, key);
            r.Returns? ==>
              && r.db.history == db.history && r.db.tables == db.tables
              && forall you :: Tx(r.db, you).collections == Tx(db, you).collections
  {}

  lemma {:induction false} NewSteps(cfg: Config, s: System, me: ClientId, pc: Pc, newClt: CltId)
    ensures pc.NewLock? ==> IdStep(s.db, ExecNewLock(s, me, pc).db, me)
    ensures pc.NewCount? ==> IdStep(s.db, ExecNewCount(s, me, pc).db, me)
    ensures pc.NewDecide? ==> IdStep(s.db, ExecNewDecide(cfg, s, me, pc, newClt).db, me)
  {}

  lemma {:induction false} SignupSteps(s: System, me: ClientId, pc: Pc, newClt: CltId, newUser: UserId)
    ensures pc.SignupUser? ==> IdStep(s.db, ExecSignupUser(s, me, pc, newUser).db, me)
    ensures pc.SignupDefault? ==> IdStep(s.db, ExecSignupDefault(s, me, pc, newClt).db, me)
  {}

  lemma {:induction false} EndSteps(s: System, me: ClientId)
    ensures IdStep(s.db, Rollback(s.db, me), me) && IdStep(s.db, Commit(s.db, me), me)
  {}

  lemma {:induction false} LoneSteps(s: System, me: ClientId, pc: Pc)
    ensures pc.Resolve? ==> IdStep(s.db, ExecResolve(s, me, pc).db, me)
    ensures pc.Act? ==> IdStep(s.db, ExecAct(s, me, pc).db, me)
    ensures pc.DropCheck? ==> IdStep(s.db, ExecDropCheck(s, me, pc).db, me)
  {}

  lemma {:induction false} RowSteps(s: System, me: ClientId, pc: Pc)
    ensures pc.Rename? ==> IdStep(s.db, Answered(s, me, UpdateCollection(s.db, me, pc.user, pc.clt, pc.name)).db, me)
    ensures pc.DropAct? ==> IdStep(s.db, Answered(s, me, DeleteCollection(s.db, me, pc.user, pc.clt)).db, me)
  {}

  lemma {:induction false} CascadeSteps(s: System, me: ClientId, pc: Pc, c: CltId)
    ensures pc.DropAccount? ==> IdStep(s.db, ExecDropAccount(s, me, pc).db, me)
    ensures pc.DropRows? ==> IdStep(s.db, ExecDropRows(s, me, pc, c).db, me)
  {}

  lemma {:induction false} StepMovesIds(cfg: Config, s: System, e: Event)
    ensures IdStep(s.db, Step(cfg, s, e).db, e.client)
  {
    var me, pc := e.client, PcOf(s, e.client);
    EndSteps(s, me);
    if e.Exec? { ExecMovesIds(cfg, s, me, pc, e.clt, e.newUser); }
  }

  lemma {:induction false} ExecMovesIds(
      cfg: Config, s: System, me: ClientId, pc: Pc, clt: CltId, newUser: UserId)
    requires pc == PcOf(s, me)
    ensures IdStep(s.db, ExecNext(cfg, s, me, clt, newUser).db, me)
  {
    match pc
    case Idle(_) =>
    case ToCommit(_) => EndSteps(s, me);
    case ToRollback(_) => EndSteps(s, me);
    case Rename(_, _, _) => LoneMovesIds(cfg, s, me, pc, clt, newUser);
    case DropAct(_, _) => LoneMovesIds(cfg, s, me, pc, clt, newUser);
    case DropAccount(_) => LoneMovesIds(cfg, s, me, pc, clt, newUser);
    case DropRows(_) => LoneMovesIds(cfg, s, me, pc, clt, newUser);
    case AddLock(_, _, _) => AddSteps(s, me, pc);
    case AddCount(_, _, _) => AddSteps(s, me, pc);
    case AddDecide(_, _, _, _) => DecideStep(cfg, s, me, pc);
    case NewLock(_, _) => NewSteps(cfg, s, me, pc, clt);
    case NewCount(_, _) => NewSteps(cfg, s, me, pc, clt);
    case NewDecide(_, _, _) => NewSteps(cfg, s, me, pc, clt);
    case SignupUser(_) => SignupSteps(s, me, pc, clt, newUser);
    case SignupDefault(_, _) => SignupSteps(s, me, pc, clt, newUser);
    case _ => LoneSteps(s, me, pc);
  }

  lemma {:induction false} LoneMovesIds(
      cfg: Config, s: System, me: ClientId, pc: Pc, clt: CltId, newUser: UserId)
    requires pc == PcOf(s, me) && (pc.Rename? || pc.DropAct? || pc.DropAccount? || pc.DropRows?)
    ensures IdStep(s.db, ExecNext(cfg, s, me, clt, newUser).db, me)
  {
    RowSteps(s, me, pc);
    CascadeSteps(s, me, pc, clt);
  }

  lemma {:induction false} StepLeavesGone(cfg: Config, s: System, e: Event, c: CltId)
    requires Gone(s, c)
    ensures Gone(Step(cfg, s, e), c)
  {
    StepMovesIds(cfg, s, e);
  }

  lemma {:induction false} CommittedIsNotPending(cfg: Config, s: System, c: CltId)
    requires Inv(cfg, s) && c in s.db.tables.collections
    ensures forall you: ClientId :: c !in Tx(s.db, you).collections
  {
    forall you: ClientId ensures c !in Tx(s.db, you).collections {
      assert ClientOk(cfg, s.db, you, PcOf(s, you));
    }
  }

  lemma {:induction false} HistoryExtends(cfg: Config, run: seq<Event>, more: seq<Event>)
    ensures Extends(After(cfg, run).db.history, After(cfg, run + more).db.history)
  {
    if more == [] {
      assert run + more == run;
    } else {
      var n := |more| - 1;
      HistoryExtends(cfg, run, more[..n]);
      assert run + more == (run + more[..n]) + [more[n]];
      NextExtends(cfg, run + more[..n], more[n]);
      ExtendsThrough(
        After(cfg, run).db.history, After(cfg, run + more[..n]).db.history, After(cfg, run + more).db.history);
    }
  }

  lemma {:induction false} NextExtends(cfg: Config, run: seq<Event>, e: Event)
    ensures Extends(After(cfg, run).db.history, After(cfg, run + [e]).db.history)
  {
    AfterNext(cfg, run, e);
    StepMovesIds(cfg, After(cfg, run), e);
  }

  lemma {:induction false} ExtendsThrough(a: History, b: History, c: History)
    requires Extends(a, b) && Extends(b, c)
    ensures Extends(a, c)
  {}

  /** Ownership proved by one statement still holds at any later one: no owner or default mark changes. */
  lemma {:induction false} OwnerNeverChanges(cfg: Config, run: seq<Event>, more: seq<Event>, c: CltId)
    requires cfg.Valid()
    requires c in After(cfg, run).db.tables.collections && c in After(cfg, run + more).db.tables.collections
    ensures var before := After(cfg, run).db.tables.collections[c];
            var later := After(cfg, run + more).db.tables.collections[c];
            later.owner == before.owner && later.isDefault == before.isDefault
  {
    Reachable(cfg, run);
    Reachable(cfg, run + more);
    HistoryExtends(cfg, run, more);
    assert CollectionOk(After(cfg, run).db.tables, After(cfg, run).db.history, c);
    assert CollectionOk(After(cfg, run + more).db.tables, After(cfg, run + more).db.history, c);
  }

  lemma {:induction false} GoneStaysGone(cfg: Config, run: seq<Event>, more: seq<Event>, c: CltId)
    requires Gone(After(cfg, run), c)
    ensures Gone(After(cfg, run + more), c)
  {
    if more == [] {
      assert run + more == run;
    } else {
      var n := |more| - 1;
      GoneStaysGone(cfg, run, more[..n], c);
      assert (run + more)[..|run + more| - 1] == run + more[..n];
      StepLeavesGone(cfg, After(cfg, run + more[..n]), more[n], c);
    }
  }

  lemma {:induction false} RemovedIsGone(cfg: Config, s: System, e: Event, c: CltId)
    requires Inv(cfg, s) && c in s.db.tables.collections
    ensures c !in Step(cfg, s, e).db.tables.collections ==> Gone(Step(cfg, s, e), c)
  {
    assert CollectionOk(s.db.tables, s.db.history, c);
    CommittedIsNotPending(cfg, s, c);
    StepMovesIds(cfg, s, e);
  }

  lemma {:induction false} GoneNext(cfg: Config, s: System, e: Event, c: CltId)
    requires (c in s.db.tables.collections && Inv(cfg, s)) || Gone(s, c)
    ensures c !in Step(cfg, s, e).db.tables.collections ==> Gone(Step(cfg, s, e), c)
  {
    if c in s.db.tables.collections { RemovedIsGone(cfg, s, e, c); } else { StepLeavesGone(cfg, s, e, c); }
  }

  /** The step that deletes a collection. */
  lemma {:induction false} DeletedIsGone(cfg: Config, run: seq<Event>, more: seq<Event>, c: CltId)
    requires cfg.Valid() && c in After(cfg, run).db.tables.collections
    ensures c !in After(cfg, run + more).db.tables.collections ==> Gone(After(cfg, run + more), c)
  {
    if more == [] {
      assert run + more == run;
    } else {
      var n := |more| - 1;
      var s := After(cfg, run + more[..n]);
      assert run + more == (run + more[..n]) + [more[n]];
      AfterNext(cfg, run + more[..n], more[n]);
      if c in s.db.tables.collections {
        Reachable(cfg, run + more[..n]);
      } else {
        DeletedIsGone(cfg, run, more[..n], c);
      }
      GoneNext(cfg, s, more[n], c);
    }
  }

  /** A deleted collection never comes back: its id is not used again, in any longer run. */
  lemma {:induction false} DeletedForGood(cfg: Config, run: seq<Event>, more: seq<Event>, rest: seq<Event>, c: CltId)
    requires cfg.Valid() && c in After(cfg, run).db.tables.collections
    requires c !in After(cfg, run + more).db.tables.collections
    ensures c !in After(cfg, run + more + rest).db.tables.collections
  {
    DeletedIsGone(cfg, run, more, c);
    GoneStaysGone(cfg, run + more, rest, c);
  }

  // ---- locks ----

  ghost predicate Advances(s: System, s': System, me: ClientId) {
    && 1 <= Remaining(PcOf(s, me)) <= 3
    && Remaining(PcOf(s', me)) == Remaining(PcOf(s, me)) - 1
    && (Remaining(PcOf(s', me)) == 0 ==> Lockless(s'.db, me))
  }

  /**
   Whoever holds a lock, a cascade aside, never waits: its next statement runs, and after at most three
   of them the lock is free.
   */
  lemma {:induction false} LockHolderAdvances(
      cfg: Config, run: seq<Event>, me: ClientId, newClt: CltId, newUser: UserId)
    requires cfg.Valid() && !Lockless(After(cfg, run).db, me) && !PcOf(After(cfg, run), me).DropRows?
    requires newClt !in After(cfg, run).db.history.clts
    ensures Advances(After(cfg, run), Step(cfg, After(cfg, run), Exec(me, newClt, newUser)), me)
  {
    Reachable(cfg, run);
    HolderAdvances(cfg, After(cfg, run), me, newClt, newUser);
  }

  lemma {:induction false} EndLetsGo(db: State, me: ClientId)
    ensures Lockless(Rollback(db, me), me) && Lockless(Commit(db, me), me)
  {}

  lemma {:induction false} NewCollectionDecides(cfg: Config, s: System, me: ClientId, newClt: CltId)
    requires PcOf(s, me).NewDecide? && newClt !in s.db.history.clts
    ensures Remaining(PcOf(ExecNewDecide(cfg, s, me, PcOf(s, me), newClt), me)) == 1
  {}

  lemma {:induction false} FinisherAdvances(cfg: Config, s: System, me: ClientId, newClt: CltId, newUser: UserId)
    requires PcOf(s, me).ToCommit? || PcOf(s, me).ToRollback?
    ensures Advances(s, ExecNext(cfg, s, me, newClt, newUser), me)
  {
    EndLetsGo(s.db, me);
  }

  /** A client that only moves on, with statements still to run. */
  lemma {:induction false} MoveAdvances(s: System, me: ClientId, pc: Pc)
    requires 1 <= Remaining(PcOf(s, me)) <= 3 && Remaining(pc) == Remaining(PcOf(s, me)) - 1 >= 1
    ensures Advances(s, Goto(s, me, s.db, pc), me)
  {}

  lemma {:induction false} PastLockAdvances(cfg: Config, s: System, me: ClientId, newClt: CltId, newUser: UserId)
    requires PastLock(PcOf(s, me)) && !PcOf(s, me).AddDecide? && !PcOf(s, me).DropRows? && newClt !in s.db.history.clts
    ensures Advances(s, ExecNext(cfg, s, me, newClt, newUser), me)
  {
    match PcOf(s, me)
    case NewDecide(_, _, _) => NewCollectionDecides(cfg, s, me, newClt);
    case ToCommit(_) => FinisherAdvances(cfg, s, me, newClt, newUser);
    case ToRollback(_) => FinisherAdvances(cfg, s, me, newClt, newUser);
    case AddCount(u, c, h) => MoveAdvances(s, me, AddDecide(u, c, h, CountColors(s.db, me, c)));
    case NewCount(u, name) => MoveAdvances(s, me, NewDecide(u, name, CountCollections(s.db, me, u)));
  }

  lemma {:induction false} HolderAdvances(cfg: Config, s: System, me: ClientId, newClt: CltId, newUser: UserId)
    requires Inv(cfg, s) && !Lockless(s.db, me) && !PcOf(s, me).DropRows? && newClt !in s.db.history.clts
    ensures Advances(s, ExecNext(cfg, s, me, newClt, newUser), me)
  {
    assert PastLock(PcOf(s, me)) by {
      assert ClientOk(cfg, s.db, me, PcOf(s, me));
    }
    if PcOf(s, me).AddDecide? {
      DecideFromCommitted(cfg, s, me, PcOf(s, me));
    } else {
      PastLockAdvances(cfg, s, me, newClt, newUser);
    }
  }
}
