/**
 What every answer of the account services says about the committed tables, and what a statement that
 writes makes of them: each request is described by the rows anybody can see, over every run.
 */
module Answers {
  import opened Database
  import opened Services
  import opened Invariant
  import opened AccountStore

  predicate OwnedBy(t: Tables, c: CltId, u: UserId) {
    c in t.collections && t.collections[c].owner == u
  }

  /** The committed tables after the events `run`. */
  function TablesAt(cfg: Config, run: seq<Event>): Tables {
    After(cfg, run).db.tables
  }

  /** The client stood at `pc` from the instant after the i-th event of the run on, and before that at `earlier`. */
  ghost predicate StoodSince(cfg: Config, run: seq<Event>, i: nat, me: ClientId, earlier: Pc, pc: Pc) {
    && i < |run| && PcOf(After(cfg, run[..i]), me) == earlier
    && forall j | i < j <= |run| :: PcOf(After(cfg, run[..j]), me) == pc
  }

  lemma {:induction false} StandsOn(cfg: Config, run: seq<Event>, i: nat, me: ClientId, earlier: Pc, pc: Pc)
    requires run != [] && StoodSince(cfg, run[..|run| - 1], i, me, earlier, pc) && PcOf(After(cfg, run), me) == pc
    ensures StoodSince(cfg, run, i, me, earlier, pc)
  {
    var init := run[..|run| - 1];
    assert run[..|run|] == run;
    forall j | 0 <= j <= |init| ensures run[..j] == init[..j] {}
  }

  lemma {:induction false} JustArrived(cfg: Config, run: seq<Event>, me: ClientId, earlier: Pc, pc: Pc)
    requires run != [] && PcOf(After(cfg, run[..|run| - 1]), me) == earlier && PcOf(After(cfg, run), me) == pc
    ensures StoodSince(cfg, run, |run| - 1, me, earlier, pc)
  {
    assert run[..|run|] == run;
  }

  /** `db` was the database at some instant between the end of `from` and the end of `to`. */
  ghost predicate Stood(cfg: Config, from': seq<Event>, to': seq<Event>, db: State) {
    from' <= to' && exists i :: |from'| <= i <= |to'| && After(cfg, to'[..i]).db == db
  }

  lemma {:induction false} StandsNow(cfg: Config, from': seq<Event>, to': seq<Event>)
    requires from' <= to'
    ensures Stood(cfg, from', to', After(cfg, to').db)
  {
    assert to'[..|to'|] == to';
  }

  lemma {:induction false} StoodThen(
      cfg: Config, from': seq<Event>, a: seq<Event>, b: seq<Event>, to': seq<Event>, db: State)
    requires from' <= a && Stood(cfg, a, b, db) && b <= to'
    ensures Stood(cfg, from', to', db)
  {
    var i :| |a| <= i <= |b| && After(cfg, b[..i]).db == db;
    assert to'[..i] == b[..i];
  }

  // ---- the quota is compared with a count of the same transaction ----

  /** A client comes to its deciding statement from its count, and carries that count. */
  lemma {:induction false} ArrivesCounted(cfg: Config, s: System, e: Event, me: ClientId, pc: Pc)
    requires pc == PcOf(Step(cfg, s, e), me) && pc != PcOf(s, me)
    ensures pc.AddDecide? ==>
              PcOf(s, me) == AddCount(pc.user, pc.clt, pc.hex) && pc.n == CountColors(s.db, me, pc.clt)
    ensures pc.NewDecide? ==> PcOf(s, me) == NewCount(pc.user, pc.name) && pc.n == CountCollections(s.db, me, pc.user)
  {
    if e.Exec? && e.client == me { NextArrives(cfg, s, me, e.clt, e.newUser, pc); }
  }

  lemma {:induction false} NextArrives(
      cfg: Config, s: System, me: ClientId, clt: CltId, newUser: UserId, pc: Pc)
    requires pc == PcOf(ExecNext(cfg, s, me, clt, newUser), me) && pc != PcOf(s, me)
    ensures pc.AddDecide? ==>
              PcOf(s, me) == AddCount(pc.user, pc.clt, pc.hex) && pc.n == CountColors(s.db, me, pc.clt)
    ensures pc.NewDecide? ==> PcOf(s, me) == NewCount(pc.user, pc.name) && pc.n == CountCollections(s.db, me, pc.user)
  {}

  /** The number AddColor compares with the quota is how many committed rows there were when it counted. */
  lemma {:induction false} CountedColors(cfg: Config, run: seq<Event>, me: ClientId, pc: Pc) returns (i: nat)
    requires cfg.Valid() && pc == PcOf(After(cfg, run), me) && pc.AddDecide?
    ensures StoodSince(cfg, run, i, me, AddCount(pc.user, pc.clt, pc.hex), pc)
    ensures pc.n == |Rows(TablesAt(cfg, run[..i]), pc.clt)|
  {
    var init, e := run[..|run| - 1], run[|run| - 1];
    if PcOf(After(cfg, init), me) == pc {
      i := CountedColors(cfg, init, me, pc);
      StandsOn(cfg, run, i, me, AddCount(pc.user, pc.clt, pc.hex), pc);
      assert run[..i] == init[..i];
    } else {
      i := |init|;
      ArrivesCounted(cfg, After(cfg, init), e, me, pc);
      JustArrived(cfg, run, me, AddCount(pc.user, pc.clt, pc.hex), pc);
      Reachable(cfg, init);
      assert ClientOk(cfg, After(cfg, init).db, me, PcOf(After(cfg, init), me));
      SeesCommittedRows(After(cfg, init).db, me, pc.clt);
    }
  }

  lemma {:induction false} CountedCollections(cfg: Config, run: seq<Event>, me: ClientId, pc: Pc) returns (i: nat)
    requires cfg.Valid() && pc == PcOf(After(cfg, run), me) && pc.NewDecide?
    ensures StoodSince(cfg, run, i, me, NewCount(pc.user, pc.name), pc)
    ensures pc.n == |Owned(TablesAt(cfg, run[..i]).collections, pc.user)|
  {
    var init, e := run[..|run| - 1], run[|run| - 1];
    if PcOf(After(cfg, init), me) == pc {
      i := CountedCollections(cfg, init, me, pc);
      StandsOn(cfg, run, i, me, NewCount(pc.user, pc.name), pc);
      assert run[..i] == init[..i];
    } else {
      i := |init|;
      ArrivesCounted(cfg, After(cfg, init), e, me, pc);
      JustArrived(cfg, run, me, NewCount(pc.user, pc.name), pc);
      Reachable(cfg, init);
      assert ClientOk(cfg, After(cfg, init).db, me, PcOf(After(cfg, init), me));
      SeesCommitted(After(cfg, init).db, me);
    }
  }

  /** What AddColor does about the hex `h`, by the rows it counted and the rows that are there when it decides. */
  function ColorDecision(cfg: Config, u: UserId, c: CltId, h: Hex, counted: Tables, now: Tables): Pc {
    if h in Rows(now, c) then ToCommit(ColorIn(u, c, h, false))
    else if |Rows(counted, c)| >= cfg.colorQuota then ToRollback(ColorQuotaFull)
    else ToCommit(ColorIn(u, c, h, true))
  }

  /**
   The deciding statement of AddColor, in every reachable state: a saved color is answered as saved;
   any other is refused if and only if the collection was at the quota at an instant of the same
   transaction, and there are no more rows now than then.
   */
  lemma {:induction false} AddColorDecides(
      cfg: Config, run: seq<Event>, me: ClientId, pc: Pc, newClt: CltId, newUser: UserId) returns (i: nat)
    requires cfg.Valid() && pc == PcOf(After(cfg, run), me) && pc.AddDecide?
    ensures StoodSince(cfg, run, i, me, AddCount(pc.user, pc.clt, pc.hex), pc)
    ensures var counted, now := TablesAt(cfg, run[..i]), TablesAt(cfg, run);
            var s' := Step(cfg, After(cfg, run), Exec(me, newClt, newUser));
            && |Rows(now, pc.clt)| <= |Rows(counted, pc.clt)| && s'.db.tables == now
            && PcOf(s', me) == ColorDecision(cfg, pc.user, pc.clt, pc.hex, counted, now)
  {
    i := CountedColors(cfg, run, me, pc);
    Reachable(cfg, run);
    DecideFromCommitted(cfg, After(cfg, run), me, pc);
  }

  /**
   The deciding statement of CreateCollection, with an id the generator has not given out: refused if
   and only if the user was at the quota at an instant of the same transaction.
   */
  lemma {:induction false} CreateCollectionDecides(
      cfg: Config, run: seq<Event>, me: ClientId, pc: Pc, newClt: CltId, newUser: UserId) returns (i: nat)
    requires cfg.Valid() && pc == PcOf(After(cfg, run), me) && pc.NewDecide?
    requires newClt !in After(cfg, run).db.history.clts
    ensures StoodSince(cfg, run, i, me, NewCount(pc.user, pc.name), pc)
    ensures var counted, now := TablesAt(cfg, run[..i]), TablesAt(cfg, run);
            var s' := Step(cfg, After(cfg, run), Exec(me, newClt, newUser));
            && |Owned(now.collections, pc.user)| <= |Owned(counted.collections, pc.user)| && s'.db.tables == now
            && PcOf(s', me) == if |Owned(counted.collections, pc.user)| >= cfg.cltQuota then ToRollback(CltQuotaFull)
                               else ToCommit(CollectionIn(pc.user, newClt, pc.name))
  {
    i := CountedCollections(cfg, run, me, pc);
    Reachable(cfg, run);
    assert ClientOk(cfg, After(cfg, run).db, me, pc);
    if pc.n < cfg.cltQuota { CollectionInsertReturns(cfg, run, me, pc, newClt); }
    CollectionDecision(cfg, After(cfg, run), me, pc, newClt);
  }

  lemma {:induction false} CollectionDecision(cfg: Config, s: System, me: ClientId, pc: Pc, newClt: CltId)
    requires pc.NewDecide?
    requires pc.n < cfg.cltQuota ==> CreateCollection(s.db, me, pc.user, pc.name, false, newClt).Returns?
    ensures var s' := ExecNewDecide(cfg, s, me, pc, newClt);
            && s'.db.tables == s.db.tables
            && PcOf(s', me) == if pc.n >= cfg.cltQuota then ToRollback(CltQuotaFull)
                               else ToCommit(CollectionIn(pc.user, newClt, pc.name))
  {}

  // ---- every statement is of the request submitted last ----

  /** The statement at `pc` is one of the program that serves `r`, with the user, rows and names `r` gives. */
  predicate Serves(pc: Pc, r: Request) {
    pc.ToRollback? ||
    match r
    case AddColorReq(u, c, h) =>
      || pc == AddLock(u, c, h) || pc == AddCount(u, c, h) || (pc.AddDecide? && pc == AddDecide(u, c, h, pc.n))
      || (pc.ToCommit? && pc.work.ColorIn? && pc.work == ColorIn(u, c, h, pc.work.created))
    case ActReq(u, c, a) => pc == Resolve(u, c, a) || pc == Act(u, c, a)
    case CreateCltReq(u, name) =>
      || pc == NewLock(u, name) || pc == NewCount(u, name) || (pc.NewDecide? && pc == NewDecide(u, name, pc.n))
      || (pc.ToCommit? && pc.work.CollectionIn? && pc.work == CollectionIn(u, pc.work.clt, name))
    case RenameReq(u, c, name) => pc == Rename(u, c, name)
    case DropCltReq(u, c) => pc == DropCheck(u, c) || pc == DropAct(u, c)
    case SignupReq(nickname) =>
      || pc == SignupUser(nickname) || (pc.SignupDefault? && pc.nickname == nickname)
      || (pc.ToCommit? && pc.work.AccountIn? && pc.work == AccountIn(pc.work.user, pc.work.clt, nickname))
    case DropUserReq(u) => pc == DropAccount(u) || pc == DropRows(u)
  }

  /** The i-th event of the run submitted `r` for an idle client, which has been busy since. */
  ghost predicate Submitted(cfg: Config, run: seq<Event>, i: nat, me: ClientId, r: Request) {
    && i < |run| && run[i] == Submit(me, r) && PcOf(After(cfg, run[..i]), me).Idle?
    && forall j | i < j <= |run| :: !PcOf(After(cfg, run[..j]), me).Idle?
  }

  lemma {:induction false} SubmittedGoesOn(cfg: Config, run: seq<Event>, i: nat, me: ClientId, r: Request)
    requires run != [] && Submitted(cfg, run[..|run| - 1], i, me, r) && !PcOf(After(cfg, run), me).Idle?
    ensures Submitted(cfg, run, i, me, r)
  {
    var init := run[..|run| - 1];
    assert run[..|run|] == run;
    forall j | 0 <= j <= |init| ensures run[..j] == init[..j] {}
  }

  lemma {:induction false} StepServes(cfg: Config, s: System, e: Event, me: ClientId, r: Request)
    requires !PcOf(s, me).Idle? && Serves(PcOf(s, me), r) && !PcOf(Step(cfg, s, e), me).Idle?
    ensures Serves(PcOf(Step(cfg, s, e), me), r)
  {
    if e.Exec? && e.client == me { NextServes(cfg, s, me, e.clt, e.newUser, r); }
  }

  lemma {:induction false} NextServes(
      cfg: Config, s: System, me: ClientId, clt: CltId, newUser: UserId, r: Request)
    requires Serves(PcOf(s, me), r) && !PcOf(ExecNext(cfg, s, me, clt, newUser), me).Idle?
    ensures Serves(PcOf(ExecNext(cfg, s, me, clt, newUser), me), r)
  {}

  /**
   Over every run: a busy client is serving the one request it submitted last, and acts on no user, row
   or name but those of that request.
   */
  lemma {:induction false} ServesRequest(cfg: Config, run: seq<Event>, me: ClientId) returns (i: nat)
    requires !PcOf(After(cfg, run), me).Idle?
    ensures i < |run| && run[i].Submit? && Submitted(cfg, run, i, me, run[i].request)
    ensures Serves(PcOf(After(cfg, run), me), run[i].request)
  {
    var init, e := run[..|run| - 1], run[|run| - 1];
    if PcOf(After(cfg, init), me).Idle? {
      i := |init|;
      Starts(cfg, After(cfg, init), e, me);
      assert run[..|run|] == run;
    } else {
      i := ServesRequest(cfg, init, me);
      SubmittedGoesOn(cfg, run, i, me, init[i].request);
      StepServes(cfg, After(cfg, init), e, me, init[i].request);
    }
  }

  lemma {:induction false} Starts(cfg: Config, s: System, e: Event, me: ClientId)
    requires PcOf(s, me).Idle? && !PcOf(Step(cfg, s, e), me).Idle?
    ensures e.Submit? && e.client == me && Serves(PcOf(Step(cfg, s, e), me), e.request)
  {}

  // ---- what the first statement of a service answers ----

  /** The statement went on at `pc` and changed no committed table. */
  ghost predicate GoesOn(s: System, s': System, me: ClientId, pc: Pc) {
    PcOf(s', me) == pc && s'.db.tables == s.db.tables
  }

  /** A client that has written nothing reads the committed rows. */
  lemma {:induction false} ReadsCommitted(cfg: Config, run: seq<Event>, me: ClientId)
    requires cfg.Valid()
    requires var pc := PcOf(After(cfg, run), me);
             pc.AddLock? || pc.NewLock? || pc.Resolve? || pc.DropCheck? || pc.SignupUser? || pc.DropAccount?
    ensures SeenCollections(After(cfg, run).db, me) == TablesAt(cfg, run).collections
    ensures SeenUsers(After(cfg, run).db, me) == TablesAt(cfg, run).users
  {
    Reachable(cfg, run);
    assert ClientOk(cfg, After(cfg, run).db, me, PcOf(After(cfg, run), me));
    SeesCommitted(After(cfg, run).db, me);
  }

  /** AddColor is refused if and only if the collection is not the caller's; behind the lock it goes on. */
  lemma {:induction false} AddColorLocks(cfg: Config, run: seq<Event>, me: ClientId, newClt: CltId, newUser: UserId)
    requires cfg.Valid() && PcOf(After(cfg, run), me).AddLock?
    ensures var s := After(cfg, run);
            var pc, s' := PcOf(s, me), Step(cfg, s, Exec(me, newClt, newUser));
            if !OwnedBy(s.db.tables, pc.clt, pc.user) then GoesOn(s, s', me, ToRollback(Refused(NotFound)))
            else if exists you :: you != me && HoldsClt(s.db, you, pc.clt) then s' == s
            else GoesOn(s, s', me, AddCount(pc.user, pc.clt, pc.hex)) && HoldsClt(s'.db, me, pc.clt)
  {
    ReadsCommitted(cfg, run, me);
    RowLocked(After(cfg, run).db, me, PcOf(After(cfg, run), me).clt);
  }

  lemma RowLocked(db: State, me: ClientId, c: CltId)
    ensures LockedByOther(db.cltLocks, c, me) <==> exists you :: you != me && HoldsClt(db, you, c)
  {
    if LockedByOther(db.cltLocks, c, me) { assert HoldsClt(db, db.cltLocks[c], c); }
  }

  lemma AccountLocked(db: State, me: ClientId, u: UserId)
    ensures LockedByOther(db.userLocks, u, me) <==> exists you :: you != me && HoldsUser(db, you, u)
  {
    if LockedByOther(db.userLocks, u, me) { assert HoldsUser(db, db.userLocks[u], u); }
  }

  /** CreateCollection is refused here if and only if the account is gone. */
  lemma {:induction false} CreateCollectionLocks(
      cfg: Config, run: seq<Event>, me: ClientId, newClt: CltId, newUser: UserId)
    requires cfg.Valid() && PcOf(After(cfg, run), me).NewLock?
    ensures var s := After(cfg, run);
            var pc, s' := PcOf(s, me), Step(cfg, s, Exec(me, newClt, newUser));
            if pc.user !in s.db.tables.users then GoesOn(s, s', me, ToRollback(Refused(UserNotFound)))
            else if exists you :: you != me && HoldsUser(s.db, you, pc.user) then s' == s
            else GoesOn(s, s', me, NewCount(pc.user, pc.name)) && HoldsUser(s'.db, me, pc.user)
  {
    ReadsCommitted(cfg, run, me);
    AccountLocked(After(cfg, run).db, me, PcOf(After(cfg, run), me).user);
  }

  /** A request on the colors of a collection is refused if and only if the collection is not the caller's. */
  lemma {:induction false} ResolveAnswers(cfg: Config, run: seq<Event>, me: ClientId, newClt: CltId, newUser: UserId)
    requires cfg.Valid() && PcOf(After(cfg, run), me).Resolve?
    ensures var s := After(cfg, run);
            var pc, s' := PcOf(s, me), Step(cfg, s, Exec(me, newClt, newUser));
            GoesOn(s, s', me, if OwnedBy(s.db.tables, pc.clt, pc.user) then Act(pc.user, pc.clt, pc.action)
                              else Idle(Refused(NotFound)))
  {
    ReadsCommitted(cfg, run, me);
  }

  /** DeleteCollection goes on if and only if the collection is the caller's and not a default. */
  lemma {:induction false} DropCheckAnswers(cfg: Config, run: seq<Event>, me: ClientId, newClt: CltId, newUser: UserId)
    requires cfg.Valid() && PcOf(After(cfg, run), me).DropCheck?
    ensures var s := After(cfg, run);
            var pc, s' := PcOf(s, me), Step(cfg, s, Exec(me, newClt, newUser));
            GoesOn(s, s', me, if !OwnedBy(s.db.tables, pc.clt, pc.user) then Idle(Refused(NotFound))
                              else if s.db.tables.collections[pc.clt].isDefault then Idle(DefaultKept)
                              else DropAct(pc.user, pc.clt))
  {
    ReadsCommitted(cfg, run, me);
  }

  /** A signup is refused if and only if an account has the nickname, and waits only for a signup under it. */
  lemma {:induction false} SignupAnswers(cfg: Config, run: seq<Event>, me: ClientId, newClt: CltId, newUser: UserId)
    requires cfg.Valid() && PcOf(After(cfg, run), me).SignupUser? && newUser !in After(cfg, run).db.history.users
    ensures var s := After(cfg, run);
            var pc, s' := PcOf(s, me), Step(cfg, s, Exec(me, newClt, newUser));
            if exists u :: u in s.db.tables.users && s.db.tables.users[u] == pc.nickname
            then GoesOn(s, s', me, ToRollback(Refused(DuplicateNickname)))
            else if exists you, u :: you != me && u in Tx(s.db, you).users && Tx(s.db, you).users[u] == pc.nickname
            then s' == s
            else GoesOn(s, s', me, SignupDefault(newUser, pc.nickname))
  {
    ReadsCommitted(cfg, run, me);
    PendingNickname(After(cfg, run).db, me, PcOf(After(cfg, run), me).nickname);
  }

  lemma PendingNickname(db: State, me: ClientId, nickname: string)
    ensures NicknamePending(db, me, nickname) <==>
            exists you, u :: you != me && u in Tx(db, you).users && Tx(db, you).users[u] == nickname
  {
    if you: ClientId, u: UserId :| you != me && u in Tx(db, you).users && Tx(db, you).users[u] == nickname {
      assert you in db.txs && nickname in db.txs[you].users.Values;
    }
    if NicknamePending(db, me, nickname) {
      var you :| you in db.txs && you != me && nickname in db.txs[you].users.Values;
      var u :| u in db.txs[you].users && db.txs[you].users[u] == nickname;
      assert u in Tx(db, you).users && Tx(db, you).users[u] == nickname;
    }
  }

  /** Deleting an account is refused if and only if the account is gone. */
  lemma {:induction false} DropAccountLocks(cfg: Config, run: seq<Event>, me: ClientId, newClt: CltId, newUser: UserId)
    requires cfg.Valid() && PcOf(After(cfg, run), me).DropAccount?
    ensures var s := After(cfg, run);
            var pc, s' := PcOf(s, me), Step(cfg, s, Exec(me, newClt, newUser));
            if pc.user !in s.db.tables.users then GoesOn(s, s', me, Idle(Refused(UserNotFound)))
            else if exists you :: you != me && HoldsUser(s.db, you, pc.user) then s' == s
            else GoesOn(s, s', me, DropRows(pc.user)) && HoldsUser(s'.db, me, pc.user)
  {
    ReadsCommitted(cfg, run, me);
    AccountLocked(After(cfg, run).db, me, PcOf(After(cfg, run), me).user);
  }

  // ---- what the statements that write make of the tables ----

  /** Nothing but the colors of `c` differs. */
  ghost predicate OnlyRowsOf(t: Tables, t': Tables, c: CltId) {
    && t'.users == t.users && t'.collections == t.collections
    && forall d | d != c :: Rows(t', d) == Rows(t, d)
  }

  /** Nothing but the collection row `c` differs. */
  ghost predicate OnlyCollection(t: Tables, t': Tables, c: CltId) {
    && t'.users == t.users && t'.colors == t.colors
    && (forall d | d != c :: (d in t'.collections <==> d in t.collections))
    && (forall d | d != c && d in t.collections :: t'.collections[d] == t.collections[d])
  }

  /** The row `h` of `c` is away, and no other row of any table differs. */
  ghost predicate TakesRow(t: Tables, t': Tables, c: CltId, h: Hex) {
    && OnlyRowsOf(t, t', c)
    && h !in Rows(t', c)
    && (forall x | x != h :: (x in Rows(t', c) <==> x in Rows(t, c)))
    && (forall x | x in Rows(t', c) :: Rows(t', c)[x] == Rows(t, c)[x])
  }

  /** DeleteColor removes the one row, if it is there; if not it says so. */
  lemma {:induction false} DeleteColorRemoves(
      cfg: Config, s: System, me: ClientId, newClt: CltId, newUser: UserId, h: Hex)
    requires PcOf(s, me).Act? && PcOf(s, me).action == RemoveColor(h)
    ensures var s' := Step(cfg, s, Exec(me, newClt, newUser));
            var c, t, t' := PcOf(s, me).clt, s.db.tables, s'.db.tables;
            && TakesRow(t, t', c, h) && (h !in Rows(t, c) ==> t' == t)
            && PcOf(s', me) == Idle(if h in Rows(t, c) then Done else Refused(NotFound))
  {}

  lemma {:induction false} DeleteAllColorsEmpties(
      cfg: Config, s: System, me: ClientId, newClt: CltId, newUser: UserId)
    requires PcOf(s, me).Act? && PcOf(s, me).action == RemoveAll
    ensures var s' := Step(cfg, s, Exec(me, newClt, newUser));
            var c, t, t' := PcOf(s, me).clt, s.db.tables, s'.db.tables;
            OnlyRowsOf(t, t', c) && Rows(t', c) == map[] && PcOf(s', me) == Idle(Done)
  {}

  /** The collection `c` of `u` is called `name`, and no other row of any table differs. */
  ghost predicate Renames(t: Tables, t': Tables, c: CltId, u: UserId, name: string) {
    && OnlyCollection(t, t', c) && c in t.collections
    && OwnedBy(t', c, u) && t'.collections[c].name == name
    && t'.collections[c].isDefault == t.collections[c].isDefault
  }

  /** The collection `c` and its colors are away, and no other row of any table differs. */
  ghost predicate TakesCollection(t: Tables, t': Tables, c: CltId) {
    && t'.users == t.users
    && c !in t'.collections && Rows(t', c) == map[]
    && forall d | d != c :: SameCollection(t, t', d)
  }

  /** UpdateCollection writes the name, and only the name, of a collection of the caller; it never moves a default. */
  lemma {:induction false} RenameWritesName(cfg: Config, s: System, me: ClientId, newClt: CltId, newUser: UserId)
    requires PcOf(s, me).Rename?
    ensures var s' := Step(cfg, s, Exec(me, newClt, newUser));
            var pc, t, t' := PcOf(s, me), s.db.tables, s'.db.tables;
            if !OwnedBy(t, pc.clt, pc.user) then GoesOn(s, s', me, Idle(Refused(NotFound)))
            else if exists you :: you != me && HoldsClt(s.db, you, pc.clt) then s' == s
            else PcOf(s', me) == Idle(Done) && Renames(t, t', pc.clt, pc.user, pc.name)
  {
    RowLocked(s.db, me, PcOf(s, me).clt);
  }

  /** DeleteCollection takes the collection and its colors away, and nothing else. */
  lemma {:induction false} DropTakesCollection(cfg: Config, s: System, me: ClientId, newClt: CltId, newUser: UserId)
    requires PcOf(s, me).DropAct?
    ensures var s' := Step(cfg, s, Exec(me, newClt, newUser));
            var pc, t, t' := PcOf(s, me), s.db.tables, s'.db.tables;
            if !OwnedBy(t, pc.clt, pc.user) then GoesOn(s, s', me, Idle(Refused(NotFound)))
            else if exists you :: you != me && HoldsClt(s.db, you, pc.clt) then s' == s
            else PcOf(s', me) == Idle(Done) && TakesCollection(t, t', pc.clt)
  {
    RowLocked(s.db, me, PcOf(s, me).clt);
  }

  /** Once the cascade holds every collection row, the account goes with all of its collections and colors. */
  lemma {:induction false} DropTakesAccount(cfg: Config, run: seq<Event>, me: ClientId, newClt: CltId, newUser: UserId)
    requires cfg.Valid() && PcOf(After(cfg, run), me).DropRows?
    requires forall c | OwnedBy(TablesAt(cfg, run), c, PcOf(After(cfg, run), me).user) ::
               HoldsClt(After(cfg, run).db, me, c)
    ensures var s := After(cfg, run);
            var s' := Step(cfg, s, Exec(me, newClt, newUser));
            var u, t, t' := PcOf(s, me).user, s.db.tables, s'.db.tables;
            && PcOf(s', me) == Idle(Done) && t'.users == t.users - {u} && u in t.users
            && (forall c | OwnedBy(t, c, u) :: c !in t'.collections && Rows(t', c) == map[])
            && (forall c | !OwnedBy(t, c, u) :: SameCollection(t, t', c))
            && Lockless(s'.db, me)
  {
    var s := After(cfg, run);
    Reachable(cfg, run);
    assert ClientOk(cfg, s.db, me, PcOf(s, me));
    assert ToTake(s.db, me, PcOf(s, me).user) == {} by {
      assert forall c | c in Owned(s.db.tables.collections, PcOf(s, me).user) :: HoldsClt(s.db, me, c);
    }
    EndLetsGo(s.db, me);
    AccountGoes(s.db, me, PcOf(s, me).user);
  }

  lemma {:induction false} AccountGoes(db: State, me: ClientId, u: UserId)
    ensures var t, t' := db.tables, DeleteUser(db, me, u).tables;
            && t'.users == t.users - {u}
            && (forall c | OwnedBy(t, c, u) :: c !in t'.collections && Rows(t', c) == map[])
            && (forall c | !OwnedBy(t, c, u) :: SameCollection(t, t', c))
    ensures Lockless(Rollback(db, me), me) ==> Lockless(DeleteUser(db, me, u), me)
  {}
}
