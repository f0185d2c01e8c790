/**
 The invariant of the account store, and the proof that every statement of every client keeps it.

 What one client's program relies on (`ClientOk`) mentions only rows it has locked and ids it was
 given, so a statement of another client can only disturb it in the ways `Respects` rules out.
 */
module Invariant {
  import opened Database
  import opened Services

  // ---- the committed tables ----

  ghost predicate CollectionOk(t: Tables, h: History, c: CltId)
    requires c in t.collections
  {
    var row := t.collections[c];
    && row.owner in t.users
    && c in h.clts && h.clts[c].owner == row.owner && h.clts[c].isDefault == row.isDefault
    && (row.isDefault ==> row.owner in h.defaults && h.defaults[row.owner] == c)
  }

  ghost predicate DefaultOk(t: Tables, h: History, u: UserId) {
    && u in h.users
    && u in h.defaults && h.defaults[u] in t.collections
    && t.collections[h.defaults[u]].owner == u
    && t.collections[h.defaults[u]].isDefault
  }

  ghost predicate RowsOk(cfg: Config, rows: map<Hex, int>) {
    && |rows| <= cfg.colorQuota
    && forall h | h in rows :: rows[h] == cfg.feel(h)
  }

  ghost predicate CollectionsOk(t: Tables, h: History) {
    forall c | c in t.collections :: CollectionOk(t, h, c)
  }

  ghost predicate UsersOk(cfg: Config, t: Tables, h: History) {
    && (forall u | u in t.users :: DefaultOk(t, h, u))
    && (forall u | u in t.users :: |Owned(t.collections, u)| <= cfg.cltQuota)
  }

  ghost predicate ColorsOk(cfg: Config, t: Tables) {
    forall c | c in t.colors :: c in t.collections && RowsOk(cfg, t.colors[c])
  }

  ghost predicate TablesOk(cfg: Config, t: Tables, h: History) {
    CollectionsOk(t, h) && UsersOk(cfg, t, h) && ColorsOk(cfg, t)
  }

  /** A locked row exists: what holds a lock is safe from every delete. */
  ghost predicate LocksOk(db: State) {
    && (forall c | c in db.cltLocks :: c in db.tables.collections)
    && (forall u | u in db.userLocks :: u in db.tables.users)
  }

  // ---- what the next statement of a client relies on ----

  ghost predicate HoldsClt(db: State, me: ClientId, c: CltId) {
    c in db.cltLocks && db.cltLocks[c] == me
  }

  ghost predicate HoldsUser(db: State, me: ClientId, u: UserId) {
    u in db.userLocks && db.userLocks[u] == me
  }

  /** The generator gave `c` to `me` for a collection of `u`, and no committed row has it. */
  ghost predicate Unused(t: Tables, h: History, me: ClientId, c: CltId, u: UserId, isDefault: bool) {
    c in h.clts && h.clts[c] == Birth(u, me, isDefault) && c !in t.collections
  }

  ghost predicate UnusedUser(t: Tables, h: History, me: ClientId, u: UserId) {
    u in h.users && h.users[u] == me && u !in t.users
  }

  ghost predicate WorkOk(cfg: Config, db: State, me: ClientId, w: Work) {
    var tx := Tx(db, me);
    match w
    case ColorIn(u, c, h, created) =>
      && HoldsClt(db, me, c) && Knows(db.history, c, u)
      && (if created then
            && tx == Tables(map[], map[], map[c := map[h := cfg.feel(h)]])
            && h !in Rows(db.tables, c)
            && |Rows(db.tables, c)| + 1 <= cfg.colorQuota
          else tx == EMPTY)
    case CollectionIn(u, c, name) =>
      && HoldsUser(db, me, u)
      && Unused(db.tables, db.history, me, c, u, false)
      && |Owned(db.tables.collections, u)| + 1 <= cfg.cltQuota
      && tx == Tables(map[], map[c := Collection(u, name, false)], map[])
    case AccountIn(u, c, nickname) =>
      && UnusedUser(db.tables, db.history, me, u)
      && Unused(db.tables, db.history, me, c, u, true)
      && u in db.history.defaults && db.history.defaults[u] == c
      && tx == Tables(map[u := nickname], map[c := Collection(u, DEF_COLLECTION_NAME, true)], map[])
  }

  ghost predicate Knows(h: History, c: CltId, u: UserId) {
    c in h.clts && h.clts[c].owner == u
  }

  ghost predicate Lockless(db: State, me: ClientId) {
    (forall c :: !HoldsClt(db, me, c)) && (forall u :: !HoldsUser(db, me, u))
  }

  ghost predicate ClientOk(cfg: Config, db: State, me: ClientId, pc: Pc) {
    (PastLock(pc) || Lockless(db, me)) && LocalsOk(cfg, db, me, pc)
  }

  ghost predicate LocalsOk(cfg: Config, db: State, me: ClientId, pc: Pc) {
    match pc
    case AddCount(u, c, _) => Tx(db, me) == EMPTY && HoldsClt(db, me, c) && Knows(db.history, c, u)
    case AddDecide(u, c, _, n) =>
      && Tx(db, me) == EMPTY && HoldsClt(db, me, c) && Knows(db.history, c, u)
      && |Rows(db.tables, c)| <= n
    case NewCount(u, _) => Tx(db, me) == EMPTY && HoldsUser(db, me, u)
    case NewDecide(u, _, n) => Tx(db, me) == EMPTY && HoldsUser(db, me, u) && |Owned(db.tables.collections, u)| <= n
    case SignupDefault(u, nickname) =>
      UnusedUser(db.tables, db.history, me, u) && Tx(db, me) == Tables(map[u := nickname], map[], map[])
    case ToCommit(w) => WorkOk(cfg, db, me, w)
    case ToRollback(_) => Tx(db, me).collections == map[] && Tx(db, me).colors == map[]
    case Act(u, c, _) => Tx(db, me) == EMPTY && Knows(db.history, c, u)
    case DropAct(u, c) => Tx(db, me) == EMPTY && Knows(db.history, c, u) && !db.history.clts[c].isDefault
    case DropRows(u) =>
      && Tx(db, me) == EMPTY && HoldsUser(db, me, u)
      && (forall v | HoldsUser(db, me, v) :: v == u)
      && (forall c | HoldsClt(db, me, c) :: Knows(db.history, c, u))
    case _ => Tx(db, me) == EMPTY
  }

  ghost predicate Inv(cfg: Config, s: System) {
    && TablesOk(cfg, s.db.tables, s.db.history)
    && LocksOk(s.db)
    && forall me: ClientId :: ClientOk(cfg, s.db, me, PcOf(s, me))
  }

  // ---- interference ----

  ghost predicate KeepsLocks(db: State, db': State, you: ClientId) {
    && Tx(db', you) == Tx(db, you)
    && (forall c :: HoldsClt(db, you, c) <==> HoldsClt(db', you, c))
    && (forall u :: HoldsUser(db, you, u) <==> HoldsUser(db', you, u))
  }

  ghost predicate KeepsRows(db: State, db': State, you: ClientId) {
    && (forall c | HoldsClt(db, you, c) :: Rows(db'.tables, c).Keys <= Rows(db.tables, c).Keys)
    && (forall u | HoldsUser(db, you, u) :: Owned(db'.tables.collections, u) <= Owned(db.tables.collections, u))
  }

  ghost predicate KeepsIds(t: Tables, h: History, t': Tables, h': History, you: ClientId) {
    && (forall c | c in h.clts :: c in h'.clts && h'.clts[c] == h.clts[c])
    && (forall c | c in h.clts && h.clts[c].issuer == you && c !in t.collections :: c !in t'.collections)
    && (forall u | UnusedUser(t, h, you, u) ::
          && UnusedUser(t', h', you, u)
          && (u in h.defaults ==> u in h'.defaults && h'.defaults[u] == h.defaults[u]))
  }

  /** A move from `db` to `db'` by somebody else leaves what `you` relies on in place. */
  ghost predicate Respects(db: State, db': State, you: ClientId) {
    && KeepsLocks(db, db', you)
    && KeepsRows(db, db', you)
    && KeepsIds(db.tables, db.history, db'.tables, db'.history, you)
  }

  lemma {:induction false} FewerRows(a: map<Hex, int>, b: map<Hex, int>)
    requires a.Keys <= b.Keys
    ensures |a| <= |b|
  {
    Fewer(a.Keys, b.Keys);
  }

  lemma {:induction false} Fewer<T>(a: set<T>, b: set<T>)
    requires a <= b
    ensures |a| <= |b|
  {
    if a != {} {
      var x :| x in a;
      Fewer(a - {x}, b - {x});
    }
  }

  lemma {:induction false} RespectedStaysOk(cfg: Config, db: State, db': State, you: ClientId, pc: Pc)
    requires ClientOk(cfg, db, you, pc) && Respects(db, db', you)
    ensures ClientOk(cfg, db', you, pc)
  {
    match pc
    case AddDecide(_, c, _, _) => FewerRows(Rows(db'.tables, c), Rows(db.tables, c));
    case NewDecide(u, _, _) => Fewer(Owned(db'.tables.collections, u), Owned(db.tables.collections, u));
    case ToCommit(w) =>
      match w {
        case ColorIn(_, c, _, _) => FewerRows(Rows(db'.tables, c), Rows(db.tables, c));
        case CollectionIn(u, _, _) => Fewer(Owned(db'.tables.collections, u), Owned(db.tables.collections, u));
        case AccountIn(_, _, _) =>
      }
    case _ =>
  }

  /** `me` may move the database to `db'` and go on at `pc`. */
  ghost predicate GoodMove(cfg: Config, db: State, db': State, me: ClientId, pc: Pc) {
    && TablesOk(cfg, db'.tables, db'.history)
    && LocksOk(db')
    && ClientOk(cfg, db', me, pc)
    && forall you: ClientId | you != me :: Respects(db, db', you)
  }

  lemma {:induction false} GoodMoveKeepsInv(cfg: Config, s: System, me: ClientId, db': State, pc: Pc)
    requires Inv(cfg, s) && GoodMove(cfg, s.db, db', me, pc)
    ensures Inv(cfg, Goto(s, me, db', pc))
  {
    var s' := Goto(s, me, db', pc);
    forall you: ClientId ensures ClientOk(cfg, s'.db, you, PcOf(s', you)) {
      if you != me {
        assert PcOf(s', you) == PcOf(s, you);
        RespectedStaysOk(cfg, s.db, db', you, PcOf(s, you));
      }
    }
  }

  /** A client that moves without changing the database. */
  lemma {:induction false} StayKeepsInv(cfg: Config, s: System, me: ClientId, pc: Pc)
    requires Inv(cfg, s) && ClientOk(cfg, s.db, me, pc)
    ensures Inv(cfg, Goto(s, me, s.db, pc))
  {
    GoodMoveKeepsInv(cfg, s, me, s.db, pc);
  }

  // ---- statements inside a transaction ----

  /** Committing inserts that hold no color leaves the colors alone. */
  lemma {:induction false} MergeNoColors(t: Tables, d: Tables)
    requires d.colors == map[]
    ensures Merge(t, d) == Tables(t.users + d.users, t.collections + d.collections, t.colors)
  {
    var m := map c | c in t.colors.Keys + d.colors.Keys :: Rows(t, c) + Rows(d, c);
    assert m.Keys == t.colors.Keys;
    forall c | c in t.colors ensures m[c] == t.colors[c] {
      assert Rows(t, c) + map[] == Rows(t, c);
    }
    assert m == t.colors;
  }

  lemma {:induction false} MergeOneColor(t: Tables, c: CltId, h: Hex, key: int)
    ensures Merge(t, Tables(map[], map[], map[c := map[h := key]]))
         == t.(colors := t.colors[c := Rows(t, c)[h := key]])
  {
    var d := Tables(map[], map[], map[c := map[h := key]]);
    var m := map x | x in t.colors.Keys + d.colors.Keys :: Rows(t, x) + Rows(d, x);
    var want := t.colors[c := Rows(t, c)[h := key]];
    assert m.Keys == want.Keys;
    forall x | x in want ensures m[x] == want[x] {
      RowsWithOne(t, c, h, key, x);
    }
    assert m == want;
  }

  lemma {:induction false} RowsWithOne(t: Tables, c: CltId, h: Hex, key: int, x: CltId)
    ensures Rows(t, x) + Rows(Tables(map[], map[], map[c := map[h := key]]), x)
         == if x == c then Rows(t, c)[h := key] else Rows(t, x)
  {}

  lemma {:induction false} SeesCommitted(db: State, me: ClientId)
    requires Tx(db, me) == EMPTY
    ensures SeenUsers(db, me) == db.tables.users && SeenCollections(db, me) == db.tables.collections
  {}

  lemma {:induction false} SeesCommittedRows(db: State, me: ClientId, c: CltId)
    requires Tx(db, me) == EMPTY
    ensures SeenRows(db, me, c) == Rows(db.tables, c)
  {}

  /** The generator remembers the owner and the default mark of every committed collection. */
  lemma {:induction false} BirthOf(t: Tables, h: History, c: CltId)
    requires CollectionsOk(t, h) && c in t.collections
    ensures c in h.clts
    ensures h.clts[c].owner == t.collections[c].owner && h.clts[c].isDefault == t.collections[c].isDefault
  {
    assert CollectionOk(t, h, c);
  }

  /** Taking a lock nobody else holds. */
  lemma {:induction false} LockRespects(db: State, db': State, me: ClientId, you: ClientId)
    requires you != me && db' == db.(cltLocks := db'.cltLocks, userLocks := db'.userLocks)
    requires forall c :: HoldsClt(db', you, c) <==> HoldsClt(db, you, c)
    requires forall u :: HoldsUser(db', you, u) <==> HoldsUser(db, you, u)
    ensures Respects(db, db', you)
  {}

  lemma {:induction false} CltLockTaken(db: State, me: ClientId, c: CltId, db': State)
    requires LocksOk(db) && !LockedByOther(db.cltLocks, c, me) && c in db.tables.collections
    requires db' == db.(cltLocks := db.cltLocks[c := me])
    ensures LocksOk(db') && forall you: ClientId | you != me :: Respects(db, db', you)
    ensures forall x :: HoldsClt(db', me, x) <==> x == c || HoldsClt(db, me, x)
    ensures forall u :: HoldsUser(db', me, u) <==> HoldsUser(db, me, u)
  {
    forall you: ClientId | you != me ensures Respects(db, db', you) {
      LockRespects(db, db', me, you);
    }
  }

  lemma {:induction false} UserLockTaken(db: State, me: ClientId, u: UserId, db': State)
    requires LocksOk(db) && !LockedByOther(db.userLocks, u, me) && u in db.tables.users
    requires db' == db.(userLocks := db.userLocks[u := me])
    ensures LocksOk(db') && forall you: ClientId | you != me :: Respects(db, db', you)
    ensures forall v :: HoldsUser(db', me, v) <==> v == u || HoldsUser(db, me, v)
    ensures forall c :: HoldsClt(db', me, c) <==> HoldsClt(db, me, c)
  {
    forall you: ClientId | you != me ensures Respects(db, db', you) {
      LockRespects(db, db', me, you);
    }
  }

  lemma {:induction false} TakeCltLock(cfg: Config, s: System, me: ClientId, u: UserId, c: CltId, h: Hex, db': State)
    requires Inv(cfg, s) && Tx(s.db, me) == EMPTY && !LockedByOther(s.db.cltLocks, c, me)
    requires c in s.db.tables.collections && Knows(s.db.history, c, u)
    requires db' == s.db.(cltLocks := s.db.cltLocks[c := me])
    ensures Inv(cfg, Goto(s, me, db', AddCount(u, c, h)))
  {
    CltLockTaken(s.db, me, c, db');
    assert ClientOk(cfg, db', me, AddCount(u, c, h));
    GoodMoveKeepsInv(cfg, s, me, db', AddCount(u, c, h));
  }

  lemma {:induction false} TakeUserLock(cfg: Config, s: System, me: ClientId, u: UserId, name: string, db': State)
    requires Inv(cfg, s) && Tx(s.db, me) == EMPTY && !LockedByOther(s.db.userLocks, u, me)
    requires u in s.db.tables.users
    requires db' == s.db.(userLocks := s.db.userLocks[u := me])
    ensures Inv(cfg, Goto(s, me, db', NewCount(u, name)))
  {
    UserLockTaken(s.db, me, u, db');
    assert ClientOk(cfg, db', me, NewCount(u, name));
    GoodMoveKeepsInv(cfg, s, me, db', NewCount(u, name));
  }

  lemma {:induction false} LockCollectionKeeps(cfg: Config, s: System, me: ClientId)
    requires Inv(cfg, s) && PcOf(s, me).AddLock?
    ensures Inv(cfg, ExecAddLock(s, me, PcOf(s, me)))
  {
    var pc := PcOf(s, me);
    assert ClientOk(cfg, s.db, me, pc);
    SeesCommitted(s.db, me);
    var r := LockCollection(s.db, me, pc.user, pc.clt);
    if r.Fails? {
      StayKeepsInv(cfg, s, me, ToRollback(Refused(r.error)));
    } else if r.Returns? {
      BirthOf(s.db.tables, s.db.history, pc.clt);
      TakeCltLock(cfg, s, me, pc.user, pc.clt, pc.hex, r.db);
    }
  }

  lemma {:induction false} CountColorsKeeps(cfg: Config, s: System, me: ClientId)
    requires Inv(cfg, s) && PcOf(s, me).AddCount?
    ensures Inv(cfg, ExecAddCount(s, me, PcOf(s, me)))
  {
    var pc := PcOf(s, me);
    assert ClientOk(cfg, s.db, me, pc);
    SeesCommittedRows(s.db, me, pc.clt);
    StayKeepsInv(cfg, s, me, AddDecide(pc.user, pc.clt, pc.hex, CountColors(s.db, me, pc.clt)));
  }

  /** An insert by `me` touches no lock, no committed row, and no id handed out before. */
  lemma {:induction false} InsertRespects(db: State, db': State, me: ClientId, you: ClientId)
    requires you != me
    requires db' == db.(txs := db'.txs, history := db'.history)
    requires Tx(db', you) == Tx(db, you)
    requires forall c | c in db.history.clts :: c in db'.history.clts && db'.history.clts[c] == db.history.clts[c]
    requires forall u | u in db.history.users :: u in db'.history.users && db'.history.users[u] == db.history.users[u]
    requires forall u | u in db.history.defaults && UnusedUser(db.tables, db.history, you, u) ::
               u in db'.history.defaults && db'.history.defaults[u] == db.history.defaults[u]
    ensures Respects(db, db', you)
  {}

  /** The INSERT of a transaction that has written nothing yet, read off the committed tables. */
  lemma {:induction false} FirstColorInsert(db: State, me: ClientId, c: CltId, h: Hex, key: int)
    requires Tx(db, me) == EMPTY
    ensures AddColor(db, me, c, h, key) ==
            if c !in db.tables.collections then Fails(NotFound)
            else if h in Rows(db.tables, c) then Returns(false, db)
            else if PendingElsewhere(db, me, c, h) then Waits
            else Returns(true, db.(txs := db.txs[me := Tables(map[], map[], map[c := map[h := key]])]))
  {
    SeesCommitted(db, me);
    SeesCommittedRows(db, me, c);
    assert Rows(EMPTY, c)[h := key] == map[h := key];
  }

  lemma {:induction false} InsertColorKeeps(
      cfg: Config, s: System, me: ClientId, u: UserId, c: CltId, h: Hex, db': State)
    requires Inv(cfg, s) && Tx(s.db, me) == EMPTY
    requires HoldsClt(s.db, me, c) && Knows(s.db.history, c, u)
    requires |Rows(s.db.tables, c)| < cfg.colorQuota && h !in Rows(s.db.tables, c)
    requires db' == s.db.(txs := s.db.txs[me := Tables(map[], map[], map[c := map[h := cfg.feel(h)]])])
    ensures Inv(cfg, Goto(s, me, db', ToCommit(ColorIn(u, c, h, true))))
  {
    forall you: ClientId | you != me ensures Respects(s.db, db', you) {
      InsertRespects(s.db, db', me, you);
    }
    assert WorkOk(cfg, db', me, ColorIn(u, c, h, true));
    GoodMoveKeepsInv(cfg, s, me, db', ToCommit(ColorIn(u, c, h, true)));
  }

  lemma {:induction false} TryInsertColorKeeps(cfg: Config, s: System, me: ClientId, pc: Pc, r: Reply<bool>)
    requires Inv(cfg, s) && pc == PcOf(s, me) && pc.AddDecide? && pc.n < cfg.colorQuota
    requires r == AddColor(s.db, me, pc.clt, pc.hex, cfg.feel(pc.hex))
    ensures r.Fails? ==> Inv(cfg, Goto(s, me, s.db, ToRollback(Refused(r.error))))
    ensures r.Returns? ==> Inv(cfg, Goto(s, me, r.db, ToCommit(ColorIn(pc.user, pc.clt, pc.hex, r.value))))
  {
    assert ClientOk(cfg, s.db, me, pc);
    FirstColorInsert(s.db, me, pc.clt, pc.hex, cfg.feel(pc.hex));
    match r
    case Waits =>
    case Fails(e) => StayKeepsInv(cfg, s, me, ToRollback(Refused(e)));
    case Returns(created, db') =>
      if created {
        InsertColorKeeps(cfg, s, me, pc.user, pc.clt, pc.hex, db');
      } else {
        StayKeepsInv(cfg, s, me, ToCommit(ColorIn(pc.user, pc.clt, pc.hex, false)));
      }
  }

  lemma {:induction false} DecideColorKeeps(cfg: Config, s: System, me: ClientId)
    requires Inv(cfg, s) && PcOf(s, me).AddDecide?
    ensures Inv(cfg, ExecAddDecide(cfg, s, me, PcOf(s, me)))
  {
    var pc := PcOf(s, me);
    assert ClientOk(cfg, s.db, me, pc);
    if pc.n < cfg.colorQuota {
      TryInsertColorKeeps(cfg, s, me, pc, AddColor(s.db, me, pc.clt, pc.hex, cfg.feel(pc.hex)));
    } else if HasColor(s.db, me, pc.clt, pc.hex) {
      StayKeepsInv(cfg, s, me, ToCommit(ColorIn(pc.user, pc.clt, pc.hex, false)));
    } else {
      StayKeepsInv(cfg, s, me, ToRollback(ColorQuotaFull));
    }
  }

  lemma {:induction false} LockUserKeeps(cfg: Config, s: System, me: ClientId)
    requires Inv(cfg, s) && PcOf(s, me).NewLock?
    ensures Inv(cfg, ExecNewLock(s, me, PcOf(s, me)))
  {
    var pc := PcOf(s, me);
    assert ClientOk(cfg, s.db, me, pc);
    SeesCommitted(s.db, me);
    var r := LockUser(s.db, me, pc.user);
    if r.Fails? {
      StayKeepsInv(cfg, s, me, ToRollback(Refused(r.error)));
    } else if r.Returns? {
      TakeUserLock(cfg, s, me, pc.user, pc.name, r.db);
    }
  }

  lemma {:induction false} CountCollectionsKeeps(cfg: Config, s: System, me: ClientId)
    requires Inv(cfg, s) && PcOf(s, me).NewCount?
    ensures Inv(cfg, ExecNewCount(s, me, PcOf(s, me)))
  {
    var pc := PcOf(s, me);
    assert ClientOk(cfg, s.db, me, pc);
    SeesCommitted(s.db, me);
    StayKeepsInv(cfg, s, me, NewDecide(pc.user, pc.name, CountCollections(s.db, me, pc.user)));
  }

  /** What an INSERT of a collection hands back, whichever service runs it. */
  lemma {:induction false} CollectionInsert(
      db: State, me: ClientId, u: UserId, name: string, isDefault: bool, newId: CltId)
    requires CreateCollection(db, me, u, name, isDefault, newId).Returns?
    requires isDefault ==> UnusedUser(db.tables, db.history, me, u)
    ensures var db' := CreateCollection(db, me, u, name, isDefault, newId).db;
            && db'.tables == db.tables && db'.cltLocks == db.cltLocks && db'.userLocks == db.userLocks
            && newId !in db.history.clts
            && Tx(db', me)
                 == Tx(db, me).(collections := Tx(db, me).collections[newId := Collection(u, name, isDefault)])
            && (forall you: ClientId | you != me :: Respects(db, db', you))
  {
    var db' := CreateCollection(db, me, u, name, isDefault, newId).db;
    forall you: ClientId | you != me ensures Respects(db, db', you) {
      InsertRespects(db, db', me, you);
    }
  }

  /** A fresh id and a fresh default leave the committed tables as consistent as they were. */
  lemma {:induction false} BirthKeepsTables(cfg: Config, t: Tables, h: History, c: CltId, b: Birth)
    requires TablesOk(cfg, t, h) && c !in h.clts && (b.isDefault ==> b.owner !in t.users)
    ensures TablesOk(cfg, t, h.(clts := h.clts[c := b],
                                defaults := if b.isDefault then h.defaults[b.owner := c] else h.defaults))
  {
    var h' := h.(clts := h.clts[c := b], defaults := if b.isDefault then h.defaults[b.owner := c] else h.defaults);
    forall x | x in t.collections ensures CollectionOk(t, h', x) {
      assert CollectionOk(t, h, x);
    }
    forall u | u in t.users ensures DefaultOk(t, h', u) {
      assert DefaultOk(t, h, u);
    }
  }

  lemma {:induction false} DecideCollectionKeeps(cfg: Config, s: System, me: ClientId, newId: CltId)
    requires Inv(cfg, s) && PcOf(s, me).NewDecide?
    ensures Inv(cfg, ExecNewDecide(cfg, s, me, PcOf(s, me), newId))
  {
    var pc := PcOf(s, me);
    assert ClientOk(cfg, s.db, me, pc);
    if pc.n >= cfg.cltQuota {
      StayKeepsInv(cfg, s, me, ToRollback(CltQuotaFull));
    } else {
      match CreateCollection(s.db, me, pc.user, pc.name, false, newId)
      case Waits =>
      case Fails(e) => StayKeepsInv(cfg, s, me, ToRollback(Refused(e)));
      case Returns(_, db) =>
        CollectionInsertIsGood(cfg, s, me, pc.user, pc.name, newId);
        GoodMoveKeepsInv(cfg, s, me, db, ToCommit(CollectionIn(pc.user, newId, pc.name)));
    }
  }

  lemma {:induction false} CollectionInsertIsGood(
      cfg: Config, s: System, me: ClientId, u: UserId, name: string, newId: CltId)
    requires Inv(cfg, s) && PcOf(s, me).NewDecide? && PcOf(s, me).user == u && PcOf(s, me).n < cfg.cltQuota
    requires CreateCollection(s.db, me, u, name, false, newId).Returns?
    ensures GoodMove(cfg, s.db, CreateCollection(s.db, me, u, name, false, newId).db, me,
                     ToCommit(CollectionIn(u, newId, name)))
  {
    var db := CreateCollection(s.db, me, u, name, false, newId).db;
    assert ClientOk(cfg, s.db, me, PcOf(s, me));
    CollectionInsert(s.db, me, u, name, false, newId);
    BirthKeepsTables(cfg, s.db.tables, s.db.history, newId, Birth(u, me, false));
    assert newId !in s.db.tables.collections;
    assert WorkOk(cfg, db, me, CollectionIn(u, newId, name));
  }

  lemma {:induction false} SignupUserKeeps(cfg: Config, s: System, me: ClientId, newId: UserId)
    requires Inv(cfg, s) && PcOf(s, me).SignupUser?
    ensures Inv(cfg, ExecSignupUser(s, me, PcOf(s, me), newId))
  {
    var pc := PcOf(s, me);
    assert ClientOk(cfg, s.db, me, pc);
    SeesCommitted(s.db, me);
    match CreateUser(s.db, me, pc.nickname, newId)
    case Waits =>
    case Fails(e) => StayKeepsInv(cfg, s, me, ToRollback(Refused(e)));
    case Returns(_, db) => SignupUserInserted(cfg, s, me, pc.nickname, newId, db);
  }

  lemma {:induction false} SignupUserInserted(
      cfg: Config, s: System, me: ClientId, nickname: string, newId: UserId, db': State)
    requires Inv(cfg, s) && Lockless(s.db, me) && Tx(s.db, me) == EMPTY && newId !in s.db.history.users
    requires db' == s.db.(
               txs := s.db.txs[me := Tables(map[newId := nickname], map[], map[])],
               history := s.db.history.(users := s.db.history.users[newId := me]))
    ensures Inv(cfg, Goto(s, me, db', SignupDefault(newId, nickname)))
  {
    SameLocksLockless(s.db, db', me);
    UserIdKeepsTables(cfg, s.db.tables, s.db.history, newId, me);
    forall you: ClientId | you != me ensures Respects(s.db, db', you) {
      InsertRespects(s.db, db', me, you);
    }
    assert ClientOk(cfg, db', me, SignupDefault(newId, nickname));
    GoodMoveKeepsInv(cfg, s, me, db', SignupDefault(newId, nickname));
  }

  /** A fresh user id is nobody's yet, and leaves the tables as consistent as they were. */
  lemma {:induction false} UserIdKeepsTables(cfg: Config, t: Tables, h: History, newId: UserId, me: ClientId)
    requires TablesOk(cfg, t, h) && newId !in h.users
    ensures TablesOk(cfg, t, h.(users := h.users[newId := me])) && newId !in t.users
  {
    var h' := h.(users := h.users[newId := me]);
    forall u | u in t.users ensures DefaultOk(t, h', u) {
      assert DefaultOk(t, h, u);
    }
    forall c | c in t.collections ensures CollectionOk(t, h', c) {
      assert CollectionOk(t, h, c);
    }
    assert newId in t.users ==> DefaultOk(t, h, newId);
  }

  lemma {:induction false} SameLocksLockless(db: State, db': State, me: ClientId)
    requires Lockless(db, me) && db'.cltLocks == db.cltLocks && db'.userLocks == db.userLocks
    ensures Lockless(db', me)
  {
    assert forall c :: HoldsClt(db', me, c) ==> HoldsClt(db, me, c);
    assert forall u :: HoldsUser(db', me, u) ==> HoldsUser(db, me, u);
  }

  lemma {:induction false} SignupDefaultKeeps(cfg: Config, s: System, me: ClientId, newId: CltId)
    requires Inv(cfg, s) && PcOf(s, me).SignupDefault?
    ensures Inv(cfg, ExecSignupDefault(s, me, PcOf(s, me), newId))
  {
    var pc := PcOf(s, me);
    assert ClientOk(cfg, s.db, me, pc);
    match CreateCollection(s.db, me, pc.user, DEF_COLLECTION_NAME, true, newId)
    case Waits =>
    case Fails(e) => StayKeepsInv(cfg, s, me, ToRollback(Refused(e)));
    case Returns(_, db) =>
      CollectionInsert(s.db, me, pc.user, DEF_COLLECTION_NAME, true, newId);
      BirthKeepsTables(cfg, s.db.tables, s.db.history, newId, Birth(pc.user, me, true));
      assert newId !in s.db.tables.collections;
      assert WorkOk(cfg, db, me, AccountIn(pc.user, newId, pc.nickname));
      GoodMoveKeepsInv(cfg, s, me, db, ToCommit(AccountIn(pc.user, newId, pc.nickname)));
  }

  lemma {:induction false} RollbackIsGood(cfg: Config, s: System, me: ClientId, answer: Answer)
    requires Inv(cfg, s)
    ensures GoodMove(cfg, s.db, Rollback(s.db, me), me, Idle(answer))
  {}

  lemma {:induction false} RollbackKeeps(cfg: Config, s: System, me: ClientId, answer: Answer)
    requires Inv(cfg, s)
    ensures Inv(cfg, Goto(s, me, Rollback(s.db, me), Idle(answer)))
  {
    RollbackIsGood(cfg, s, me, answer);
    GoodMoveKeepsInv(cfg, s, me, Rollback(s.db, me), Idle(answer));
  }

  // ---- COMMIT ----

  lemma {:induction false} OwnedGrows(cs: map<CltId, Collection>, c: CltId, row: Collection, u: UserId)
    requires c !in cs
    ensures Owned(cs[c := row], u) == if row.owner == u then Owned(cs, u) + {c} else Owned(cs, u)
  {}

  lemma {:induction false} ColorInKeepsTables(cfg: Config, t: Tables, h: History, c: CltId, hex: Hex)
    requires TablesOk(cfg, t, h) && c in t.collections
    requires hex !in Rows(t, c) && |Rows(t, c)| + 1 <= cfg.colorQuota
    ensures TablesOk(cfg, t.(colors := t.colors[c := Rows(t, c)[hex := cfg.feel(hex)]]), h)
  {
    var rows := Rows(t, c)[hex := cfg.feel(hex)];
    var t' := t.(colors := t.colors[c := rows]);
    assert RowsOk(cfg, rows);
    forall x | x in t.collections ensures CollectionOk(t', h, x) {
      assert CollectionOk(t, h, x);
    }
    forall u | u in t.users ensures DefaultOk(t', h, u) && Owned(t'.collections, u) == Owned(t.collections, u) {
      assert DefaultOk(t, h, u);
    }
  }

  lemma {:induction false} CollectionInKeepsTables(cfg: Config, t: Tables, h: History, c: CltId, row: Collection)
    requires TablesOk(cfg, t, h) && c !in t.collections
    requires row.owner in t.users && !row.isDefault && c in h.clts
    requires h.clts[c].owner == row.owner && !h.clts[c].isDefault
    requires |Owned(t.collections, row.owner)| + 1 <= cfg.cltQuota
    ensures TablesOk(cfg, t.(collections := t.collections[c := row]), h)
  {
    var t' := t.(collections := t.collections[c := row]);
    forall x | x in t'.collections ensures CollectionOk(t', h, x) {
      assert x != c ==> CollectionOk(t, h, x);
    }
    forall u | u in t'.users ensures |Owned(t'.collections, u)| <= cfg.cltQuota && DefaultOk(t', h, u) {
      OwnedGrows(t.collections, c, row, u);
      assert DefaultOk(t, h, u);
    }
  }

  lemma {:induction false} AccountInKeepsTables(
      cfg: Config, t: Tables, h: History, u: UserId, nickname: string, c: CltId, row: Collection)
    requires cfg.Valid() && TablesOk(cfg, t, h) && c !in t.collections && u !in t.users
    requires row.owner == u && row.isDefault && c in h.clts && u in h.users
    requires h.clts[c].owner == u && h.clts[c].isDefault && u in h.defaults && h.defaults[u] == c
    ensures TablesOk(cfg, t.(users := t.users[u := nickname], collections := t.collections[c := row]), h)
  {
    var t' := t.(users := t.users[u := nickname], collections := t.collections[c := row]);
    forall x | x in t'.collections ensures CollectionOk(t', h, x) {
      assert x != c ==> CollectionOk(t, h, x);
    }
    assert Owned(t.collections, u) == {} by {
      assert forall x | x in t.collections :: CollectionOk(t, h, x);
    }
    forall v | v in t'.users ensures |Owned(t'.collections, v)| <= cfg.cltQuota && DefaultOk(t', h, v) {
      OwnedGrows(t.collections, c, row, v);
      assert v != u ==> DefaultOk(t, h, v);
    }
  }

  /** What COMMIT makes of the committed tables. */
  function Committed(cfg: Config, db: State, me: ClientId, w: Work): Tables {
    var t := db.tables;
    match w
    case ColorIn(u, c, h, created) =>
      if created then t.(colors := t.colors[c := Rows(t, c)[h := cfg.feel(h)]]) else t
    case CollectionIn(u, c, name) => t.(collections := t.collections[c := Collection(u, name, false)])
    case AccountIn(u, c, nickname) =>
      t.(users := t.users[u := nickname],
         collections := t.collections[c := Collection(u, DEF_COLLECTION_NAME, true)])
  }

  lemma {:induction false} CommitMerges(db: State, me: ClientId)
    ensures Commit(db, me).tables == Merge(db.tables, Tx(db, me))
  {}

  lemma {:induction false} CommitWrites(cfg: Config, db: State, me: ClientId, w: Work)
    requires WorkOk(cfg, db, me, w)
    ensures Commit(db, me).tables == Committed(cfg, db, me, w)
  {
    CommitMerges(db, me);
    if w.ColorIn? && w.created {
      MergeOneColor(db.tables, w.clt, w.hex, cfg.feel(w.hex));
    } else {
      NoColorsWritten(cfg, db, me, w);
    }
  }

  lemma {:induction false} NoColorsWritten(cfg: Config, db: State, me: ClientId, w: Work)
    requires WorkOk(cfg, db, me, w) && !(w.ColorIn? && w.created)
    ensures Merge(db.tables, Tx(db, me)) == Committed(cfg, db, me, w)
  {
    MergeNoColors(db.tables, Tx(db, me));
    var t := db.tables;
    assert t.users + map[] == t.users && t.collections + map[] == t.collections;
  }

  lemma {:induction false} CommittedKeepsTables(cfg: Config, db: State, me: ClientId, w: Work)
    requires cfg.Valid() && TablesOk(cfg, db.tables, db.history) && LocksOk(db) && WorkOk(cfg, db, me, w)
    ensures TablesOk(cfg, Committed(cfg, db, me, w), db.history)
  {
    match w {
      case ColorIn(u, c, h, created) =>
        if created { ColorInKeepsTables(cfg, db.tables, db.history, c, h); }
      case CollectionIn(u, c, name) =>
        CollectionInKeepsTables(cfg, db.tables, db.history, c, Collection(u, name, false));
      case AccountIn(u, c, nickname) =>
        AccountInKeepsTables(
          cfg, db.tables, db.history, u, nickname, c, Collection(u, DEF_COLLECTION_NAME, true));
    }
  }

  /** A transaction that ends takes no lock from anybody else. */
  lemma {:induction false} EndKeepsLocks(db: State, t': Tables, me: ClientId, you: ClientId)
    requires you != me
    ensures KeepsLocks(db, Rollback(db, me).(tables := t'), you)
  {}

  /** The committed tables grow by rows no other client counts on. */
  lemma {:induction false} CommitKeepsRows(cfg: Config, db: State, db': State, me: ClientId, you: ClientId, w: Work)
    requires LocksOk(db) && WorkOk(cfg, db, me, w) && you != me
    requires db' == Rollback(db, me).(tables := Committed(cfg, db, me, w))
    ensures KeepsRows(db, db', you)
  {
    match w {
      case ColorIn(_, c, _, _) => assert !HoldsClt(db, you, c);
      case CollectionIn(u, _, _) => assert !HoldsUser(db, you, u);
      case AccountIn(u, _, _) => assert u !in db.userLocks;
    }
  }

  lemma {:induction false} CommitKeepsIds(cfg: Config, db: State, me: ClientId, you: ClientId, w: Work)
    requires WorkOk(cfg, db, me, w) && you != me
    ensures KeepsIds(db.tables, db.history, Committed(cfg, db, me, w), db.history, you)
  {}

  lemma {:induction false} CommitRespects(cfg: Config, db: State, db': State, me: ClientId, you: ClientId, w: Work)
    requires LocksOk(db) && WorkOk(cfg, db, me, w) && you != me
    requires db' == Rollback(db, me).(tables := Committed(cfg, db, me, w))
    ensures Respects(db, db', you)
  {
    EndKeepsLocks(db, db'.tables, me, you);
    CommitKeepsRows(cfg, db, db', me, you, w);
    CommitKeepsIds(cfg, db, me, you, w);
  }

  /** Nothing a lock is held on goes with a commit. */
  lemma {:induction false} CommitLeavesLocks(cfg: Config, db: State, me: ClientId, w: Work)
    requires LocksOk(db) && WorkOk(cfg, db, me, w)
    ensures var db' := Rollback(db, me).(tables := Committed(cfg, db, me, w));
            LocksOk(db') && Lockless(db', me) && Tx(db', me) == EMPTY
  {}

  lemma {:induction false} CommitKeeps(cfg: Config, s: System, me: ClientId)
    requires cfg.Valid() && Inv(cfg, s) && PcOf(s, me).ToCommit?
    ensures Inv(cfg, ExecCommit(s, me, PcOf(s, me)))
  {
    var w := PcOf(s, me).work;
    assert ClientOk(cfg, s.db, me, PcOf(s, me));
    CommitWrites(cfg, s.db, me, w);
    CommitIsGood(cfg, s.db, me, w, Rollback(s.db, me).(tables := Committed(cfg, s.db, me, w)));
    GoodMoveKeepsInv(cfg, s, me, Commit(s.db, me), Idle(AnswerOf(w)));
  }

  lemma {:induction false} CommitIsGood(cfg: Config, db: State, me: ClientId, w: Work, db': State)
    requires cfg.Valid() && TablesOk(cfg, db.tables, db.history) && LocksOk(db) && WorkOk(cfg, db, me, w)
    requires db' == Rollback(db, me).(tables := Committed(cfg, db, me, w))
    ensures GoodMove(cfg, db, db', me, Idle(AnswerOf(w)))
  {
    CommittedKeepsTables(cfg, db, me, w);
    CommitLeavesLocks(cfg, db, me, w);
    forall you: ClientId | you != me ensures Respects(db, db', you) {
      CommitRespects(cfg, db, db', me, you, w);
    }
  }

  // ---- statements of their own ----

  /** Rows go, and only rows without a lock: the tables stay consistent, and so does everybody else. */
  lemma {:induction false} DropCollectionsKeepsTables(cfg: Config, t: Tables, h: History, gone: set<CltId>)
    requires TablesOk(cfg, t, h)
    requires forall u | u in t.users :: h.defaults[u] !in gone
    ensures TablesOk(cfg, DropCollections(t, gone), h)
  {
    var t' := DropCollections(t, gone);
    forall u | u in t'.users ensures |Owned(t'.collections, u)| <= cfg.cltQuota && DefaultOk(t', h, u) {
      assert DefaultOk(t, h, u);
      Fewer(Owned(t'.collections, u), Owned(t.collections, u));
    }
    forall c | c in t'.collections ensures CollectionOk(t', h, c) {
      assert CollectionOk(t, h, c);
    }
  }

  lemma {:induction false} DropUserKeepsTables(cfg: Config, t: Tables, h: History, u: UserId)
    requires TablesOk(cfg, t, h)
    ensures TablesOk(cfg, DropUser(t, u), h)
  {
    var t' := DropUser(t, u);
    forall v | v in t'.users ensures |Owned(t'.collections, v)| <= cfg.cltQuota && DefaultOk(t', h, v) {
      assert DefaultOk(t, h, v);
      Fewer(Owned(t'.collections, v), Owned(t.collections, v));
    }
    forall c | c in t'.collections ensures CollectionOk(t', h, c) {
      assert CollectionOk(t, h, c);
    }
  }

  lemma {:induction false} SetRowsKeepsTables(cfg: Config, t: Tables, h: History, c: CltId, rows: map<Hex, int>)
    requires TablesOk(cfg, t, h)
    requires rows.Keys <= Rows(t, c).Keys && forall x | x in rows :: rows[x] == Rows(t, c)[x]
    ensures TablesOk(cfg, SetRows(t, c, rows), h)
  {
    var t' := SetRows(t, c, rows);
    if c in t.colors {
      FewerRows(rows, t.colors[c]);
      assert RowsOk(cfg, rows);
    }
    forall u | u in t'.users ensures Owned(t'.collections, u) == Owned(t.collections, u) && DefaultOk(t', h, u) {
      assert DefaultOk(t, h, u);
    }
    forall x | x in t'.collections ensures CollectionOk(t', h, x) {
      assert CollectionOk(t, h, x);
    }
  }

  lemma {:induction false} RenameKeepsTables(cfg: Config, t: Tables, h: History, c: CltId, name: string)
    requires TablesOk(cfg, t, h) && c in t.collections
    ensures TablesOk(cfg, t.(collections := t.collections[c := t.collections[c].(name := name)]), h)
  {
    var t' := t.(collections := t.collections[c := t.collections[c].(name := name)]);
    forall u | u in t'.users ensures Owned(t'.collections, u) == Owned(t.collections, u) && DefaultOk(t', h, u) {
      assert DefaultOk(t, h, u);
    }
    forall x | x in t'.collections ensures CollectionOk(t', h, x) {
      assert CollectionOk(t, h, x);
    }
  }

  /** No new row, no new id, no lock taken or lost: nobody is disturbed. */
  lemma {:induction false} ShrinkRespects(db: State, db': State, you: ClientId)
    requires db' == db.(tables := db'.tables)
    requires db'.tables.users.Keys <= db.tables.users.Keys
    requires db'.tables.collections.Keys <= db.tables.collections.Keys
    requires forall c | c in db'.tables.collections ::
               db'.tables.collections[c].owner == db.tables.collections[c].owner
    requires forall c :: Rows(db'.tables, c).Keys <= Rows(db.tables, c).Keys
    ensures Respects(db, db', you)
  {}

  lemma {:induction false} ShrinkKeeps(cfg: Config, s: System, me: ClientId, t': Tables, answer: Answer)
    requires Inv(cfg, s) && Tx(s.db, me) == EMPTY && Lockless(s.db, me)
    requires TablesOk(cfg, t', s.db.history) && LocksOk(s.db.(tables := t'))
    requires t'.users.Keys <= s.db.tables.users.Keys
    requires t'.collections.Keys <= s.db.tables.collections.Keys
    requires forall c | c in t'.collections :: t'.collections[c].owner == s.db.tables.collections[c].owner
    requires forall c :: Rows(t', c).Keys <= Rows(s.db.tables, c).Keys
    ensures Inv(cfg, Goto(s, me, s.db.(tables := t'), Idle(answer)))
  {
    var db' := s.db.(tables := t');
    forall you: ClientId | you != me ensures Respects(s.db, db', you) {
      ShrinkRespects(s.db, db', you);
    }
    assert Lockless(db', me) by {
      assert forall c :: HoldsClt(db', me, c) ==> HoldsClt(s.db, me, c);
      assert forall u :: HoldsUser(db', me, u) ==> HoldsUser(s.db, me, u);
    }
    GoodMoveKeepsInv(cfg, s, me, db', Idle(answer));
  }

  lemma {:induction false} ResolveKeeps(cfg: Config, s: System, me: ClientId)
    requires Inv(cfg, s) && PcOf(s, me).Resolve?
    ensures Inv(cfg, ExecResolve(s, me, PcOf(s, me)))
  {
    var pc := PcOf(s, me);
    assert ClientOk(cfg, s.db, me, pc);
    SeesCommitted(s.db, me);
    match ResolveCollection(s.db, me, pc.user, pc.clt)
    case Fails(e) => StayKeepsInv(cfg, s, me, Idle(Refused(e)));
    case Returns(_, db) =>
      BirthOf(db.tables, db.history, pc.clt);
      StayKeepsInv(cfg, s, me, Act(pc.user, pc.clt, pc.action));
    case _ =>
  }

  lemma {:induction false} SetRowsKeeps(cfg: Config, s: System, me: ClientId, c: CltId, rows: map<Hex, int>)
    requires Inv(cfg, s) && Tx(s.db, me) == EMPTY && Lockless(s.db, me)
    requires rows.Keys <= Rows(s.db.tables, c).Keys && forall x | x in rows :: rows[x] == Rows(s.db.tables, c)[x]
    ensures Inv(cfg, Goto(s, me, s.db.(tables := SetRows(s.db.tables, c, rows)), Idle(Done)))
  {
    SetRowsKeepsTables(cfg, s.db.tables, s.db.history, c, rows);
    ShrinkKeeps(cfg, s, me, SetRows(s.db.tables, c, rows), Done);
  }

  lemma {:induction false} RemoveColorKeeps(cfg: Config, s: System, me: ClientId, c: CltId, h: Hex)
    requires Inv(cfg, s) && Tx(s.db, me) == EMPTY && Lockless(s.db, me)
    ensures Inv(cfg, Answered(s, me, DeleteColor(s.db, c, h)))
  {
    var rows := Rows(s.db.tables, c);
    if h in rows {
      SetRowsKeeps(cfg, s, me, c, rows - {h});
    } else {
      StayKeepsInv(cfg, s, me, Idle(Refused(NotFound)));
    }
  }

  lemma {:induction false} ActKeeps(cfg: Config, s: System, me: ClientId)
    requires Inv(cfg, s) && PcOf(s, me).Act?
    ensures Inv(cfg, ExecAct(s, me, PcOf(s, me)))
  {
    var pc := PcOf(s, me);
    var rows := Rows(s.db.tables, pc.clt);
    assert ClientOk(cfg, s.db, me, pc);
    match pc.action
    case RemoveColor(h) => RemoveColorKeeps(cfg, s, me, pc.clt, h);
    case RemoveAll => SetRowsKeeps(cfg, s, me, pc.clt, map[]);
    case List => StayKeepsInv(cfg, s, me, Idle(Listed(rows)));
  }

  lemma {:induction false} RenameKeeps(cfg: Config, s: System, me: ClientId)
    requires Inv(cfg, s) && PcOf(s, me).Rename?
    ensures var pc := PcOf(s, me);
            Inv(cfg, Answered(s, me, UpdateCollection(s.db, me, pc.user, pc.clt, pc.name)))
  {
    var pc := PcOf(s, me);
    assert ClientOk(cfg, s.db, me, pc);
    match UpdateCollection(s.db, me, pc.user, pc.clt, pc.name)
    case Waits =>
    case Fails(e) => StayKeepsInv(cfg, s, me, Idle(Refused(e)));
    case Returns(_, db) =>
      RenameKeepsTables(cfg, s.db.tables, s.db.history, pc.clt, pc.name);
      ShrinkKeeps(cfg, s, me, db.tables, Done);
  }

  lemma {:induction false} DropCheckKeeps(cfg: Config, s: System, me: ClientId)
    requires Inv(cfg, s) && PcOf(s, me).DropCheck?
    ensures Inv(cfg, ExecDropCheck(s, me, PcOf(s, me)))
  {
    var pc := PcOf(s, me);
    assert ClientOk(cfg, s.db, me, pc);
    SeesCommitted(s.db, me);
    match CollectionById(s.db, me, pc.user, pc.clt)
    case Fails(e) => StayKeepsInv(cfg, s, me, Idle(Refused(e)));
    case Returns(clt, db) =>
      BirthOf(db.tables, db.history, pc.clt);
      if clt.isDefault {
        StayKeepsInv(cfg, s, me, Idle(DefaultKept));
      } else {
        StayKeepsInv(cfg, s, me, DropAct(pc.user, pc.clt));
      }
    case _ =>
  }

  /** A delete that got past the locks of the others removes no locked row. */
  lemma {:induction false} DeleteSparesLocks(db: State, me: ClientId, t': Tables)
    requires LocksOk(db) && Lockless(db, me)
    requires forall c | c in db.tables.collections && c !in t'.collections :: !LockedByOther(db.cltLocks, c, me)
    requires forall u | u in db.tables.users && u !in t'.users :: !LockedByOther(db.userLocks, u, me)
    ensures LocksOk(db.(tables := t'))
  {
    assert forall c | c in db.cltLocks :: !HoldsClt(db, me, c);
    assert forall u | u in db.userLocks :: !HoldsUser(db, me, u);
  }

  lemma {:induction false} DropActKeeps(cfg: Config, s: System, me: ClientId)
    requires Inv(cfg, s) && PcOf(s, me).DropAct?
    ensures var pc := PcOf(s, me); Inv(cfg, Answered(s, me, DeleteCollection(s.db, me, pc.user, pc.clt)))
  {
    var pc := PcOf(s, me);
    var t := s.db.tables;
    assert ClientOk(cfg, s.db, me, pc);
    match DeleteCollection(s.db, me, pc.user, pc.clt)
    case Waits =>
    case Fails(e) => StayKeepsInv(cfg, s, me, Idle(Refused(e)));
    case Returns(_, db) => DroppedKeeps(cfg, s, me, pc.clt);
  }

  lemma {:induction false} NoDefaultIs(t: Tables, cfg: Config, h: History, c: CltId)
    requires TablesOk(cfg, t, h) && c in h.clts && !h.clts[c].isDefault && c in t.collections
    ensures forall u | u in t.users :: h.defaults[u] != c
  {
    assert CollectionOk(t, h, c);
    forall u | u in t.users ensures h.defaults[u] != c {
      assert DefaultOk(t, h, u);
    }
  }

  lemma {:induction false} DroppedKeeps(cfg: Config, s: System, me: ClientId, c: CltId)
    requires Inv(cfg, s) && Tx(s.db, me) == EMPTY && Lockless(s.db, me)
    requires c in s.db.tables.collections && !LockedByOther(s.db.cltLocks, c, me)
    requires c in s.db.history.clts && !s.db.history.clts[c].isDefault
    ensures Inv(cfg, Goto(s, me, s.db.(tables := DropCollections(s.db.tables, {c})), Idle(Done)))
  {
    var t' := DropCollections(s.db.tables, {c});
    NoDefaultIs(s.db.tables, cfg, s.db.history, c);
    DropCollectionsKeepsTables(cfg, s.db.tables, s.db.history, {c});
    DeleteSparesLocks(s.db, me, t');
    ShrinkKeeps(cfg, s, me, t', Done);
  }

  lemma {:induction false} DropAccountKeeps(cfg: Config, s: System, me: ClientId)
    requires Inv(cfg, s) && PcOf(s, me).DropAccount?
    ensures Inv(cfg, ExecDropAccount(s, me, PcOf(s, me)))
  {
    var pc := PcOf(s, me);
    assert ClientOk(cfg, s.db, me, pc);
    SeesCommitted(s.db, me);
    match LockUser(s.db, me, pc.user)
    case Waits =>
    case Fails(e) => StayKeepsInv(cfg, s, me, Idle(Refused(e)));
    case Returns(_, db) => StartCascade(cfg, s, me, pc.user, db);
  }

  lemma {:induction false} StartCascade(cfg: Config, s: System, me: ClientId, u: UserId, db': State)
    requires Inv(cfg, s) && Tx(s.db, me) == EMPTY && Lockless(s.db, me) && !LockedByOther(s.db.userLocks, u, me)
    requires u in s.db.tables.users
    requires db' == s.db.(userLocks := s.db.userLocks[u := me])
    ensures Inv(cfg, Goto(s, me, db', DropRows(u)))
  {
    UserLockTaken(s.db, me, u, db');
    assert ClientOk(cfg, db', me, DropRows(u));
    GoodMoveKeepsInv(cfg, s, me, db', DropRows(u));
  }

  lemma {:induction false} TakeRowKeeps(cfg: Config, s: System, me: ClientId, u: UserId, c: CltId, db': State)
    requires Inv(cfg, s) && PcOf(s, me) == DropRows(u) && !LockedByOther(s.db.cltLocks, c, me)
    requires c in Owned(s.db.tables.collections, u)
    requires db' == s.db.(cltLocks := s.db.cltLocks[c := me])
    ensures Inv(cfg, Goto(s, me, db', DropRows(u)))
  {
    assert ClientOk(cfg, s.db, me, DropRows(u));
    BirthOf(s.db.tables, s.db.history, c);
    CltLockTaken(s.db, me, c, db');
    assert ClientOk(cfg, db', me, DropRows(u));
    GoodMoveKeepsInv(cfg, s, me, db', DropRows(u));
  }

  /** A rollback of `me` and rows that go: whoever else holds a lock keeps it, and no row comes. */
  lemma {:induction false} DeleteRespects(db: State, me: ClientId, u: UserId, you: ClientId)
    requires you != me
    ensures Respects(db, DeleteUser(db, me, u), you)
  {}

  /** Every row the cascade removes is locked by it, so nobody else's lock loses its row. */
  lemma {:induction false} DeleteLeavesLocks(db: State, me: ClientId, u: UserId)
    requires LocksOk(db) && HoldsUser(db, me, u) && ToTake(db, me, u) == {}
    ensures LocksOk(DeleteUser(db, me, u)) && Lockless(DeleteUser(db, me, u), me)
  {
    var db' := DeleteUser(db, me, u);
    forall c | c in db'.cltLocks ensures c in db'.tables.collections {
      assert c !in ToTake(db, me, u);
    }
  }

  lemma {:induction false} DropRowsKeeps(cfg: Config, s: System, me: ClientId, c: CltId)
    requires Inv(cfg, s) && PcOf(s, me).DropRows?
    ensures Inv(cfg, ExecDropRows(s, me, PcOf(s, me), c))
  {
    var u := PcOf(s, me).user;
    var left := ToTake(s.db, me, u);
    assert ClientOk(cfg, s.db, me, PcOf(s, me));
    if left == {} {
      CascadeEnds(cfg, s, me, u);
    } else if c in left && !LockedByOther(s.db.cltLocks, c, me) {
      TakeRowKeeps(cfg, s, me, u, c, s.db.(cltLocks := s.db.cltLocks[c := me]));
    }
  }

  lemma {:induction false} CascadeEnds(cfg: Config, s: System, me: ClientId, u: UserId)
    requires Inv(cfg, s) && HoldsUser(s.db, me, u) && ToTake(s.db, me, u) == {} && Tx(s.db, me) == EMPTY
    ensures Inv(cfg, Goto(s, me, DeleteUser(s.db, me, u), Idle(Done)))
  {
    var db' := DeleteUser(s.db, me, u);
    DropUserKeepsTables(cfg, s.db.tables, s.db.history, u);
    DeleteLeavesLocks(s.db, me, u);
    forall you: ClientId | you != me ensures Respects(s.db, db', you) {
      DeleteRespects(s.db, me, u, you);
    }
    GoodMoveKeepsInv(cfg, s, me, db', Idle(Done));
  }

  // ---- every event ----

  lemma {:induction false} SubmitKeeps(cfg: Config, s: System, me: ClientId, r: Request)
    requires Inv(cfg, s) && PcOf(s, me).Idle?
    ensures Inv(cfg, Goto(s, me, s.db, FirstStatement(r)))
  {
    assert ClientOk(cfg, s.db, me, PcOf(s, me));
    StayKeepsInv(cfg, s, me, FirstStatement(r));
  }

  lemma {:induction false} LoneKeeps(cfg: Config, s: System, me: ClientId, newClt: CltId, newUser: UserId)
    requires cfg.Valid() && Inv(cfg, s)
    requires var pc := PcOf(s, me); pc.Resolve? || pc.Act? || pc.Rename? || pc.DropCheck?
    ensures Inv(cfg, ExecNext(cfg, s, me, newClt, newUser))
  {
    match PcOf(s, me)
    case Resolve(_, _, _) => ResolveKeeps(cfg, s, me);
    case Act(_, _, _) => ActKeeps(cfg, s, me);
    case Rename(_, _, _) => RenameKeeps(cfg, s, me);
    case DropCheck(_, _) => DropCheckKeeps(cfg, s, me);
  }

  lemma {:induction false} DeleteKeeps(cfg: Config, s: System, me: ClientId, newClt: CltId, newUser: UserId)
    requires cfg.Valid() && Inv(cfg, s) && (PcOf(s, me).DropAct? || PcOf(s, me).DropAccount?)
    ensures Inv(cfg, ExecNext(cfg, s, me, newClt, newUser))
  {
    match PcOf(s, me)
    case DropAct(_, _) => DropActKeeps(cfg, s, me);
    case DropAccount(_) => DropAccountKeeps(cfg, s, me);
  }

  lemma {:induction false} CascadeKeeps(cfg: Config, s: System, me: ClientId, clt: CltId, newUser: UserId)
    requires cfg.Valid() && Inv(cfg, s) && PcOf(s, me).DropRows?
    ensures Inv(cfg, ExecNext(cfg, s, me, clt, newUser))
  {
    DropRowsKeeps(cfg, s, me, clt);
  }

  lemma {:induction false} ExecKeeps(cfg: Config, s: System, me: ClientId, newClt: CltId, newUser: UserId)
    requires cfg.Valid() && Inv(cfg, s)
    ensures Inv(cfg, ExecNext(cfg, s, me, newClt, newUser))
  {
    match PcOf(s, me)
    case Idle(_) =>
    case AddLock(_, _, _) => LockCollectionKeeps(cfg, s, me);
    case AddCount(_, _, _) => CountColorsKeeps(cfg, s, me);
    case AddDecide(_, _, _, _) => DecideColorKeeps(cfg, s, me);
    case NewLock(_, _) => LockUserKeeps(cfg, s, me);
    case NewCount(_, _) => CountCollectionsKeeps(cfg, s, me);
    case NewDecide(_, _, _) => DecideCollectionKeeps(cfg, s, me, newClt);
    case SignupUser(_) => SignupUserKeeps(cfg, s, me, newUser);
    case SignupDefault(_, _) => SignupDefaultKeeps(cfg, s, me, newClt);
    case ToCommit(_) => CommitKeeps(cfg, s, me);
    case ToRollback(answer) => RollbackKeeps(cfg, s, me, answer);
    case DropAct(_, _) => DeleteKeeps(cfg, s, me, newClt, newUser);
    case DropAccount(_) => DeleteKeeps(cfg, s, me, newClt, newUser);
    case DropRows(_) => CascadeKeeps(cfg, s, me, newClt, newUser);
    case _ => LoneKeeps(cfg, s, me, newClt, newUser);
  }

  /** Every event keeps the invariant, whoever it belongs to and whatever is in flight. */
  lemma {:induction false} StepKeepsInv(cfg: Config, s: System, e: Event)
    requires cfg.Valid() && Inv(cfg, s)
    ensures Inv(cfg, Step(cfg, s, e))
  {
    match e
    case Submit(me, r) => if PcOf(s, me).Idle? { SubmitKeeps(cfg, s, me, r); }
    case Exec(me, newClt, newUser) => ExecKeeps(cfg, s, me, newClt, newUser);
    case Abort(me) => RollbackKeeps(cfg, s, me, Aborted);
  }

  lemma {:induction false} Reachable(cfg: Config, run: seq<Event>)
    requires cfg.Valid()
    ensures Inv(cfg, After(cfg, run))
  {
    if run != [] {
      Reachable(cfg, run[..|run| - 1]);
      StepKeepsInv(cfg, After(cfg, run[..|run| - 1]), run[|run| - 1]);
    }
  }
}
