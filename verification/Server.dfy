/**
 The services as the step sequences colorsvc.go, collectionsvc.go and usersvc.go write: statements on
 a shared database object, with whatever other clients do in between. Every method is proved to perform
 steps of the machine of module Services and nothing else (`Valid` ties the database to the run so far),
 so each theorem about runs holds of this code.
 */
module Server {
  import opened Database
  import opened Services
  import opened Invariant
  import opened AccountStore
  import opened Answers

  /** An id generator: it returns a value it has not returned before. */
  method FreshId(used: set<nat>) returns (id: nat)
    ensures id !in used
  {
    id := 0;
    var rest := used;
    while rest != {}
      invariant forall x | x in used :: x in rest || x < id
    {
      var x :| x in rest;
      rest := rest - {x};
      if x >= id { id := x + 1; }
    }
  }

  /** `t'` is `t` with one more collection, of `u`, under the name given and not a default. */
  ghost predicate AddsCollection(t: Tables, t': Tables, u: UserId, name: string, c: CltId) {
    c !in t.collections && t' == t.(collections := t.collections[c := Collection(u, name, false)])
  }

  /** `t'` has the account `u` under its nickname and its default collection, and `t` has neither. */
  ghost predicate AddsAccount(t: Tables, t': Tables, u: UserId, nickname: string, c: CltId) {
    && u !in t.users && c !in t.collections
    && t' == t.(users := t.users[u := nickname], collections := t.collections[c := Collection(u, "Main", true)])
    && ExactlyOneDefault(t', u)
  }

  /** `t'` is `t` with one more color in `c`, which was not there. */
  ghost predicate AddsColor(cfg: Config, t: Tables, t': Tables, c: CltId, h: Hex) {
    h !in Rows(t, c) && t' == t.(colors := t.colors[c := Rows(t, c)[h := cfg.feel(h)]])
  }

  /** What an answer of AddColor says about the rows counted, and about those there when it decided. */
  ghost predicate ColorAnswer(
    cfg: Config, me: ClientId, u: UserId, c: CltId, h: Hex, answer: Answer, counted: State, decided: State)
  {
    match answer
    case Created =>
      OwnedBy(decided.tables, c, u) && h !in Rows(decided.tables, c) && |Rows(counted.tables, c)| < cfg.colorQuota
    case AlreadySaved => OwnedBy(decided.tables, c, u) && h in Rows(decided.tables, c)
    case ColorQuotaFull =>
      OwnedBy(decided.tables, c, u) && h !in Rows(decided.tables, c) && |Rows(counted.tables, c)| >= cfg.colorQuota
    case Refused(e) => e == NotFound && !OwnedBy(decided.tables, c, u)
    case Aborted => exists you :: you != me && HoldsClt(decided, you, c)
    case _ => false
  }

  /** What an answer of CreateCollection says about the database it counted in, or was turned away from. */
  ghost predicate CollectionAnswer(cfg: Config, me: ClientId, u: UserId, answer: Answer, seen: State) {
    match answer
    case Done => u in seen.tables.users && |Owned(seen.tables.collections, u)| < cfg.cltQuota
    case CltQuotaFull => u in seen.tables.users && |Owned(seen.tables.collections, u)| >= cfg.cltQuota
    case Refused(e) => e == UserNotFound && u !in seen.tables.users
    case Aborted => exists you :: you != me && HoldsUser(seen, you, u)
    case _ => false
  }

  /** What an answer of CreateUser says about the database its first insert saw. */
  ghost predicate SignupAnswer(me: ClientId, nickname: string, answer: Answer, seen: State) {
    match answer
    case Done => nickname !in seen.tables.users.Values
    case Refused(e) => e == DuplicateNickname && nickname in seen.tables.users.Values
    case Aborted => exists you, u :: you != me && u in Tx(seen, you).users && Tx(seen, you).users[u] == nickname
    case _ => false
  }

  /** What an answer of DeleteCollection says about the database its last statement saw. */
  ghost predicate DropAnswer(me: ClientId, u: UserId, c: CltId, answer: Answer, seen: State) {
    match answer
    case Done => OwnedBy(seen.tables, c, u) && !seen.tables.collections[c].isDefault
    case DefaultKept => OwnedBy(seen.tables, c, u) && seen.tables.collections[c].isDefault
    case Refused(e) => e == NotFound && !OwnedBy(seen.tables, c, u)
    case Aborted => exists you :: you != me && HoldsClt(seen, you, c)
    case _ => false
  }

  class Postgres {
    const cfg: Config
    var db: State
    ghost var run: seq<Event>

    ghost predicate Valid()
      reads this
    {
      cfg.Valid() && After(cfg, run).db == db
    }

    /** Where the program of `me` stands in the machine. */
    ghost function At(me: ClientId): Pc
      reads this
    {
      PcOf(After(cfg, run), me)
    }

    /** `before` are the committed tables the last statement of the run found. */
    ghost predicate Found(before: Tables)
      reads this
    {
      run != [] && TablesAt(cfg, run[..|run| - 1]) == before
    }

    constructor (cfg: Config)
      requires cfg.Valid()
      ensures Valid() && this.cfg == cfg && run == [] && db.tables == EMPTY
    {
      this.cfg := cfg;
      db := START.db;
      run := [];
    }

    /** Other clients run any number of statements; a caller knows no more than that. */
    method Others(me: ClientId)
      requires Valid()
      modifies this
      ensures Valid() && At(me) == old(At(me)) && old(run) <= run
    {
    }

    /** The event `e` of the machine has just happened to the database. */
    ghost method Record(e: Event)
      requires cfg.Valid() && Step(cfg, After(cfg, run), e).db == db
      modifies this`run
      ensures Valid() && run == old(run) + [e]
      ensures At(e.client) == PcOf(Step(cfg, After(cfg, old(run)), e), e.client)
      ensures Found(TablesAt(cfg, old(run)))
    {
      AfterNext(cfg, run, e);
      run := run + [e];
    }

    method Begin(me: ClientId, request: Request)
      requires Valid() && At(me).Idle?
      modifies this
      ensures Valid() && At(me) == FirstStatement(request) && old(run) <= run
    {
      Record(Submit(me, request));
    }

    /** The request is cancelled. */
    method Cancel(me: ClientId)
      requires Valid() && !At(me).Idle?
      modifies this
      ensures Valid() && At(me) == Idle(Aborted) && old(run) <= run && db.tables == old(db.tables)
      ensures Found(old(db.tables))
    {
      db := Rollback(db, me);
      Record(Abort(me));
    }

    /** storage.InTx once its callback has returned nil. */
    method CommitTx(me: ClientId)
      requires Valid() && At(me).ToCommit?
      modifies this
      ensures Valid() && At(me) == Idle(AnswerOf(old(At(me)).work)) && db == Commit(old(db), me)
      ensures old(run) <= run && Found(old(db.tables))
    {
      db := Commit(db, me);
      Record(Exec(me, 0, 0));
    }

    /** storage.InTx once its callback has returned an error. */
    method RollbackTx(me: ClientId)
      requires Valid() && At(me).ToRollback?
      modifies this
      ensures Valid() && At(me) == Idle(old(At(me)).answer) && db.tables == old(db.tables) && old(run) <= run
      ensures Found(old(db.tables))
    {
      db := Rollback(db, me);
      Record(Exec(me, 0, 0));
    }

    /** A transaction whose statement failed is rolled back; one that still waits is cancelled. */
    method Undo(me: ClientId, r: Reply<()>) returns (answer: Answer, ghost before: Tables)
      requires Valid() && !At(me).Idle? && !r.Returns?
      requires r.Fails? ==> At(me) == ToRollback(Refused(r.error))
      modifies this
      ensures Valid() && At(me) == Idle(answer) && old(run) <= run
      ensures answer == if r.Fails? then Refused(r.error) else Aborted
      ensures before == old(db.tables) && db.tables == before && Found(before)
    {
      before := db.tables;
      if r.Fails? {
        RollbackTx(me);
        answer := Refused(r.error);
      } else {
        Cancel(me);
        answer := Aborted;
      }
    }

    // ---- colorsvc.AddColor ----

    /** LockCollection, trying again while another transaction holds the row. `seen` is what the last try saw. */
    method LockRow(me: ClientId, u: UserId, c: CltId, h: Hex, patience: nat)
      returns (owned: Reply<()>, ghost seen: State)
      requires Valid() && At(me) == AddLock(u, c, h)
      modifies this
      ensures Valid() && Stood(cfg, old(run), run, seen)
      ensures match owned
              case Waits => At(me) == AddLock(u, c, h) && exists you :: you != me && HoldsClt(seen, you, c)
              case Fails(e) => At(me) == ToRollback(Refused(e)) && e == NotFound && !OwnedBy(seen.tables, c, u)
              case Returns(_, _) => At(me) == AddCount(u, c, h)
    {
      Others(me);
      owned := LockCollection(db, me, u, c);
      for i := 0 to patience
        invariant Valid() && At(me) == AddLock(u, c, h) && old(run) <= run
        invariant owned == LockCollection(db, me, u, c)
      {
        if !owned.Waits? { break; }
        Others(me);
        owned := LockCollection(db, me, u, c);
      }
      seen := db;
      StandsNow(cfg, old(run), run);
      ReadsCommitted(cfg, run, me);
      RowLocked(db, me, c);
      ghost var tried := run;
      if !owned.Waits? {
        if owned.Returns? { db := owned.db; }
        Record(Exec(me, 0, 0));
      }
      StoodThen(cfg, old(run), old(run), tried, run, seen);
    }

    /** A transaction behind the lock of a collection has written nothing, and the collection is the caller's. */
    lemma BehindLock(me: ClientId, u: UserId, c: CltId)
      requires Valid() && (At(me).AddCount? || At(me).AddDecide?) && At(me).user == u && At(me).clt == c
      ensures OwnedBy(db.tables, c, u) && SeenRows(db, me, c) == Rows(db.tables, c)
    {
      Reachable(cfg, run);
      assert ClientOk(cfg, db, me, At(me));
      SeesCommittedRows(db, me, c);
      BirthOf(db.tables, db.history, c);
    }

    method CountRows(me: ClientId, u: UserId, c: CltId, h: Hex) returns (n: nat, ghost counted: State)
      requires Valid() && At(me) == AddCount(u, c, h)
      modifies this
      ensures Valid() && At(me) == AddDecide(u, c, h, n)
      ensures Stood(cfg, old(run), run, counted) && n == |Rows(counted.tables, c)|
    {
      Others(me);
      n := CountColors(db, me, c);
      BehindLock(me, u, c);
      counted := db;
      StandsNow(cfg, old(run), run);
      ghost var asked := run;
      Record(Exec(me, 0, 0));
      StoodThen(cfg, old(run), old(run), asked, run, counted);
    }

    method HasRow(me: ClientId, u: UserId, c: CltId, h: Hex, n: nat) returns (has: bool, ghost decided: State)
      requires Valid() && At(me) == AddDecide(u, c, h, n) && n >= cfg.colorQuota
      modifies this
      ensures Valid() && Stood(cfg, old(run), run, decided)
      ensures OwnedBy(decided.tables, c, u) && has == (h in Rows(decided.tables, c))
      ensures At(me) == if has then ToCommit(ColorIn(u, c, h, false)) else ToRollback(ColorQuotaFull)
    {
      Others(me);
      has := HasColor(db, me, c, h);
      BehindLock(me, u, c);
      decided := db;
      StandsNow(cfg, old(run), run);
      ghost var asked := run;
      Record(Exec(me, 0, 0));
      StoodThen(cfg, old(run), old(run), asked, run, decided);
    }

    method InsertRow(me: ClientId, u: UserId, c: CltId, h: Hex, n: nat) returns (created: bool, ghost decided: State)
      requires Valid() && At(me) == AddDecide(u, c, h, n) && n < cfg.colorQuota
      modifies this
      ensures Valid() && Stood(cfg, old(run), run, decided)
      ensures OwnedBy(decided.tables, c, u) && created == (h !in Rows(decided.tables, c))
      ensures At(me) == ToCommit(ColorIn(u, c, h, created))
    {
      Others(me);
      InsertReturns(cfg, run, me, At(me));
      var r := Database.AddColor(db, me, c, h, cfg.feel(h));
      BehindLock(me, u, c);
      decided := db;
      StandsNow(cfg, old(run), run);
      ghost var asked := run;
      created, db := r.value, r.db;
      Record(Exec(me, 0, 0));
      StoodThen(cfg, old(run), old(run), asked, run, decided);
    }

    /** COMMIT of an AddColor. `before` is the committed state it finds. */
    method CommitColor(me: ClientId, u: UserId, c: CltId, h: Hex, created: bool) returns (ghost before: Tables)
      requires Valid() && At(me) == ToCommit(ColorIn(u, c, h, created))
      modifies this
      ensures Valid() && At(me) == Idle(if created then Created else AlreadySaved) && old(run) <= run
      ensures Found(before) && if created then AddsColor(cfg, before, db.tables, c, h) else db.tables == before
    {
      Others(me);
      before := db.tables;
      CreatedMeansInserted(cfg, run, me, 0, 0);
      CommitTx(me);
    }

    /** From the count to the answer: HasColor at the quota, the insert below it. */
    method Decide(me: ClientId, u: UserId, c: CltId, h: Hex, n: nat)
      returns (full: bool, created: bool, ghost decided: State)
      requires Valid() && At(me) == AddDecide(u, c, h, n)
      modifies this
      ensures Valid() && Stood(cfg, old(run), run, decided) && OwnedBy(decided.tables, c, u)
      ensures full == (h !in Rows(decided.tables, c) && n >= cfg.colorQuota)
      ensures created == (h !in Rows(decided.tables, c) && n < cfg.colorQuota)
      ensures At(me) == if full then ToRollback(ColorQuotaFull) else ToCommit(ColorIn(u, c, h, created))
    {
      full, created := false, false;
      if n >= cfg.colorQuota {
        var has;
        has, decided := HasRow(me, u, c, h, n);
        full := !has;
      } else {
        created, decided := InsertRow(me, u, c, h, n);
      }
    }

    /** COMMIT or ROLLBACK, as the callback of AddColor ended. */
    method EndAdd(me: ClientId, u: UserId, c: CltId, h: Hex, full: bool, created: bool)
      returns (answer: Answer, ghost before: Tables)
      requires Valid()
      requires At(me) == if full then ToRollback(ColorQuotaFull) else ToCommit(ColorIn(u, c, h, created))
      modifies this
      ensures Valid() && At(me) == Idle(answer) && old(run) <= run && Found(before)
      ensures answer == if full then ColorQuotaFull else if created then Created else AlreadySaved
      ensures if answer == Created then AddsColor(cfg, before, db.tables, c, h) else db.tables == before
    {
      if full {
        before, answer := db.tables, ColorQuotaFull;
        RollbackTx(me);
      } else {
        answer := if created then Created else AlreadySaved;
        before := CommitColor(me, u, c, h, created);
      }
    }

    /** The callback of AddColor once it holds the lock, and the end of its transaction. */
    method CountAndInsert(me: ClientId, u: UserId, c: CltId, h: Hex)
      returns (answer: Answer, ghost before: Tables, ghost counted: State, ghost decided: State)
      requires Valid() && At(me) == AddCount(u, c, h)
      modifies this
      ensures Valid() && At(me) == Idle(answer) && Found(before)
      ensures Stood(cfg, old(run), run, counted) && Stood(cfg, old(run), run, decided)
      ensures ColorAnswer(cfg, me, u, c, h, answer, counted, decided)
      ensures if answer == Created then AddsColor(cfg, before, db.tables, c, h) else db.tables == before
    {
      var n, full, created;
      n, counted := CountRows(me, u, c, h);
      ghost var asked := run;
      full, created, decided := Decide(me, u, c, h, n);
      ghost var done := run;
      answer, before := EndAdd(me, u, c, h, full, created);
      StoodThen(cfg, old(run), old(run), asked, run, counted);
      StoodThen(cfg, old(run), asked, done, run, decided);
    }

    /**
     AddColor. The answer is "created" exactly when the commit put in the row and the row was absent;
     the quota refuses a color exactly when it was not saved and the collection was at the quota, both
     at instants of this very call.
     */
    method AddColor(me: ClientId, u: UserId, c: CltId, h: Hex, patience: nat)
      returns (answer: Answer, ghost before: Tables, ghost counted: State, ghost decided: State)
      requires Valid() && At(me).Idle?
      modifies this
      ensures Valid() && At(me) == Idle(answer) && Found(before)
      ensures Stood(cfg, old(run), run, counted) && Stood(cfg, old(run), run, decided)
      ensures ColorAnswer(cfg, me, u, c, h, answer, counted, decided)
      ensures if answer == Created then AddsColor(cfg, before, db.tables, c, h) else db.tables == before
      ensures |Rows(db.tables, c)| <= cfg.colorQuota
    {
      Begin(me, AddColorReq(u, c, h));
      ghost var begun := run;
      var owned;
      owned, decided := LockRow(me, u, c, h, patience);
      ghost var asked := run;
      if owned.Returns? {
        answer, before, counted, decided := CountAndInsert(me, u, c, h);
        StoodThen(cfg, old(run), asked, run, run, counted);
        StoodThen(cfg, old(run), asked, run, run, decided);
      } else {
        answer, before := Undo(me, owned);
        StoodThen(cfg, old(run), begun, asked, run, decided);
        counted := decided;
      }
      ColorQuotaHolds(cfg, run, me, c);
    }

    // ---- colorsvc.DeleteColor, DeleteAllColors: resolve, then delete, with no lock in between ----

    method ResolveOwned(me: ClientId, u: UserId, c: CltId, action: Action) returns (owned: bool, ghost seen: State)
      requires Valid() && At(me) == Resolve(u, c, action)
      modifies this
      ensures Valid() && Stood(cfg, old(run), run, seen) && Found(db.tables)
      ensures owned == OwnedBy(seen.tables, c, u)
      ensures At(me) == if owned then Act(u, c, action) else Idle(Refused(NotFound))
    {
      Others(me);
      owned := ResolveCollection(db, me, u, c).Returns?;
      ResolveAnswers(cfg, run, me, 0, 0);
      seen := db;
      StandsNow(cfg, old(run), run);
      ghost var asked := run;
      Record(Exec(me, 0, 0));
      StoodThen(cfg, old(run), old(run), asked, run, seen);
    }

    method RemoveRow(me: ClientId, u: UserId, c: CltId, h: Hex) returns (answer: Answer, ghost before: Tables)
      requires Valid() && At(me) == Act(u, c, RemoveColor(h))
      modifies this
      ensures Valid() && At(me) == Idle(answer) && old(run) <= run && Found(before)
      ensures answer == if h in Rows(before, c) then Done else Refused(NotFound)
      ensures if answer == Done then TakesRow(before, db.tables, c, h) else db.tables == before
    {
      Others(me);
      DeleteColorRemoves(cfg, After(cfg, run), me, 0, 0, h);
      before := db.tables;
      var r := Database.DeleteColor(db, c, h);
      if r.Returns? { db := r.db; }
      answer := if r.Returns? then Done else Refused(NotFound);
      Record(Exec(me, 0, 0));
    }

    method RemoveRows(me: ClientId, u: UserId, c: CltId) returns (ghost before: Tables)
      requires Valid() && At(me) == Act(u, c, RemoveAll)
      modifies this
      ensures Valid() && At(me) == Idle(Done) && old(run) <= run && Found(before)
      ensures OnlyRowsOf(before, db.tables, c) && Rows(db.tables, c) == map[]
    {
      Others(me);
      DeleteAllColorsEmpties(cfg, After(cfg, run), me, 0, 0);
      before := db.tables;
      db := Database.DeleteAllColors(db, c).db;
      Record(Exec(me, 0, 0));
    }

    /** DeleteColor: Done means the one row went; otherwise nothing did, and collection or row was not there. */
    method DeleteColor(me: ClientId, u: UserId, c: CltId, h: Hex)
      returns (answer: Answer, ghost before: Tables, ghost seen: State)
      requires Valid() && At(me).Idle?
      modifies this
      ensures Valid() && At(me) == Idle(answer) && Found(before) && Stood(cfg, old(run), run, seen)
      ensures answer == if OwnedBy(seen.tables, c, u) && h in Rows(before, c) then Done else Refused(NotFound)
      ensures if answer == Done then TakesRow(before, db.tables, c, h) else db.tables == before
    {
      Begin(me, ActReq(u, c, RemoveColor(h)));
      ghost var begun := run;
      var owned;
      owned, seen := ResolveOwned(me, u, c, RemoveColor(h));
      ghost var resolved := run;
      if owned {
        answer, before := RemoveRow(me, u, c, h);
      } else {
        before, answer := db.tables, Refused(NotFound);
      }
      StoodThen(cfg, old(run), begun, resolved, run, seen);
    }

    /** DeleteAllColors: Done means the collection is empty and nothing else differs. */
    method DeleteAllColors(me: ClientId, u: UserId, c: CltId)
      returns (answer: Answer, ghost before: Tables, ghost seen: State)
      requires Valid() && At(me).Idle?
      modifies this
      ensures Valid() && At(me) == Idle(answer) && Found(before) && Stood(cfg, old(run), run, seen)
      ensures answer == if OwnedBy(seen.tables, c, u) then Done else Refused(NotFound)
      ensures if answer == Done then OnlyRowsOf(before, db.tables, c) && Rows(db.tables, c) == map[]
              else db.tables == before
    {
      Begin(me, ActReq(u, c, RemoveAll));
      ghost var begun := run;
      var owned;
      owned, seen := ResolveOwned(me, u, c, RemoveAll);
      ghost var resolved := run;
      if owned {
        answer := Done;
        before := RemoveRows(me, u, c);
      } else {
        before, answer := db.tables, Refused(NotFound);
      }
      StoodThen(cfg, old(run), begun, resolved, run, seen);
    }

    // ---- collectionsvc.CreateCollection ----

    /** LockUser, trying again while another transaction holds the row. `seen` is what the last try saw. */
    method LockAccount(me: ClientId, u: UserId, name: string, patience: nat)
      returns (locked: Reply<()>, ghost seen: State)
      requires Valid() && At(me) == NewLock(u, name)
      modifies this
      ensures Valid() && Stood(cfg, old(run), run, seen)
      ensures match locked
              case Waits => At(me) == NewLock(u, name) && exists you :: you != me && HoldsUser(seen, you, u)
              case Fails(e) => At(me) == ToRollback(Refused(e)) && e == UserNotFound && u !in seen.tables.users
              case Returns(_, _) => At(me) == NewCount(u, name)
    {
      Others(me);
      locked := LockUser(db, me, u);
      for i := 0 to patience
        invariant Valid() && At(me) == NewLock(u, name) && old(run) <= run
        invariant locked == LockUser(db, me, u)
      {
        if !locked.Waits? { break; }
        Others(me);
        locked := LockUser(db, me, u);
      }
      seen := db;
      StandsNow(cfg, old(run), run);
      ReadsCommitted(cfg, run, me);
      AccountLocked(db, me, u);
      ghost var tried := run;
      if !locked.Waits? {
        if locked.Returns? { db := locked.db; }
        Record(Exec(me, 0, 0));
      }
      StoodThen(cfg, old(run), old(run), tried, run, seen);
    }

    /** A transaction behind the lock of an account has written nothing, and the account is there. */
    lemma BehindAccount(me: ClientId, u: UserId)
      requires Valid() && At(me).NewCount? && At(me).user == u
      ensures u in db.tables.users && SeenCollections(db, me) == db.tables.collections
    {
      Reachable(cfg, run);
      assert ClientOk(cfg, db, me, At(me));
      SeesCommitted(db, me);
    }

    method CountOwned(me: ClientId, u: UserId, name: string) returns (n: nat, ghost counted: State)
      requires Valid() && At(me) == NewCount(u, name)
      modifies this
      ensures Valid() && At(me) == NewDecide(u, name, n) && Stood(cfg, old(run), run, counted)
      ensures u in counted.tables.users && n == |Owned(counted.tables.collections, u)|
    {
      Others(me);
      n := CountCollections(db, me, u);
      BehindAccount(me, u);
      counted := db;
      StandsNow(cfg, old(run), run);
      ghost var asked := run;
      Record(Exec(me, 0, 0));
      StoodThen(cfg, old(run), old(run), asked, run, counted);
    }

    method RefuseCollection(me: ClientId, u: UserId, name: string, n: nat)
      requires Valid() && At(me) == NewDecide(u, name, n) && n >= cfg.cltQuota
      modifies this
      ensures Valid() && At(me) == ToRollback(CltQuotaFull) && old(run) <= run
    {
      Record(Exec(me, 0, 0));
    }

    /** `newId` is what the generator returns, so it has not been handed out before. */
    method InsertCollection(me: ClientId, u: UserId, name: string, n: nat) returns (newId: CltId)
      requires Valid() && At(me) == NewDecide(u, name, n) && n < cfg.cltQuota
      modifies this
      ensures Valid() && At(me) == ToCommit(CollectionIn(u, newId, name)) && old(run) <= run
    {
      Others(me);
      newId := FreshId(db.history.clts.Keys);
      CollectionInsertReturns(cfg, run, me, At(me), newId);
      var r := Database.CreateCollection(db, me, u, name, false, newId);
      db := r.db;
      Record(Exec(me, newId, 0));
    }

    method CommitCollection(me: ClientId, u: UserId, name: string, newId: CltId) returns (ghost before: Tables)
      requires Valid() && At(me) == ToCommit(CollectionIn(u, newId, name))
      modifies this
      ensures Valid() && At(me) == Idle(Done) && old(run) <= run && Found(before)
      ensures AddsCollection(before, db.tables, u, name, newId)
    {
      Others(me);
      before := db.tables;
      CollectionCommits(cfg, run, me, u, newId, name);
      CommitTx(me);
    }

    /** The callback of CreateCollection behind the lock, to the end of its transaction. */
    method CountAndCreate(me: ClientId, u: UserId, name: string)
      returns (answer: Answer, newId: CltId, ghost before: Tables, ghost counted: State)
      requires Valid() && At(me) == NewCount(u, name)
      modifies this
      ensures Valid() && At(me) == Idle(answer) && Found(before)
      ensures Stood(cfg, old(run), run, counted) && CollectionAnswer(cfg, me, u, answer, counted)
      ensures if answer == Done then AddsCollection(before, db.tables, u, name, newId) else db.tables == before
    {
      newId := 0;
      var n;
      n, counted := CountOwned(me, u, name);
      ghost var asked := run;
      if n >= cfg.cltQuota {
        RefuseCollection(me, u, name, n);
        before, answer := db.tables, CltQuotaFull;
        RollbackTx(me);
      } else {
        newId := InsertCollection(me, u, name, n);
        before := CommitCollection(me, u, name, newId);
        answer := Done;
      }
      StoodThen(cfg, old(run), old(run), asked, run, counted);
    }

    /**
     CreateCollection: when it answers Done its commit has added one collection of `u` under that name,
     not a default; the quota refuses it exactly when `u` was at the quota at an instant of this call.
     */
    method CreateCollection(me: ClientId, u: UserId, name: string, patience: nat)
      returns (answer: Answer, newId: CltId, ghost before: Tables, ghost seen: State)
      requires Valid() && At(me).Idle?
      modifies this
      ensures Valid() && At(me) == Idle(answer) && Found(before)
      ensures Stood(cfg, old(run), run, seen) && CollectionAnswer(cfg, me, u, answer, seen)
      ensures if answer == Done then AddsCollection(before, db.tables, u, name, newId) else db.tables == before
      ensures |Owned(db.tables.collections, u)| <= cfg.cltQuota
    {
      newId := 0;
      Begin(me, CreateCltReq(u, name));
      ghost var begun := run;
      var locked;
      locked, seen := LockAccount(me, u, name, patience);
      ghost var asked := run;
      if locked.Returns? {
        answer, newId, before, seen := CountAndCreate(me, u, name);
        StoodThen(cfg, old(run), asked, run, run, seen);
      } else {
        answer, before := Undo(me, locked);
        StoodThen(cfg, old(run), begun, asked, run, seen);
      }
      OwnedFits(u);
    }

    lemma OwnedFits(u: UserId)
      requires Valid()
      ensures |Owned(db.tables.collections, u)| <= cfg.cltQuota
    {
      CollectionQuotaHolds(cfg, run, 0, u);
    }

    /** UPDATE, trying again while another transaction holds the row. */
    method TryRename(me: ClientId, u: UserId, c: CltId, name: string, patience: nat) returns (r: Reply<()>)
      requires Valid() && At(me) == Rename(u, c, name)
      modifies this
      ensures Valid() && At(me) == Rename(u, c, name) && old(run) <= run
      ensures r == Database.UpdateCollection(db, me, u, c, name)
    {
      Others(me);
      r := Database.UpdateCollection(db, me, u, c, name);
      for i := 0 to patience
        invariant Valid() && At(me) == Rename(u, c, name) && old(run) <= run
        invariant r == Database.UpdateCollection(db, me, u, c, name)
      {
        if !r.Waits? { break; }
        Others(me);
        r := Database.UpdateCollection(db, me, u, c, name);
      }
    }

    /** The statement has run, or its request is cancelled. */
    method EndRename(me: ClientId, u: UserId, c: CltId, name: string, r: Reply<()>)
      returns (answer: Answer, ghost before: Tables)
      requires Valid() && At(me) == Rename(u, c, name) && r == Database.UpdateCollection(db, me, u, c, name)
      modifies this
      ensures Valid() && At(me) == Idle(answer) && old(run) <= run && Found(before) && before == old(db.tables)
      ensures match answer
              case Done => Renames(before, db.tables, c, u, name)
              case Refused(e) => e == NotFound && !OwnedBy(before, c, u) && db.tables == before
              case Aborted => (exists you :: you != me && HoldsClt(old(db), you, c)) && db.tables == before
              case _ => false
    {
      before := db.tables;
      RenameWritesName(cfg, After(cfg, run), me, 0, 0);
      RowLocked(db, me, c);
      match r {
        case Waits =>
          answer := Aborted;
          Cancel(me);
        case Fails(e) =>
          answer := Refused(e);
          Record(Exec(me, 0, 0));
        case Returns(_, next) =>
          answer, db := Done, next;
          Record(Exec(me, 0, 0));
      }
    }

    /** UpdateCollection, one statement: Done means the name is written, and nothing else. */
    method UpdateCollection(me: ClientId, u: UserId, c: CltId, name: string, patience: nat)
      returns (answer: Answer, ghost before: Tables, ghost seen: State)
      requires Valid() && At(me).Idle?
      modifies this
      ensures Valid() && At(me) == Idle(answer) && Found(before) && Stood(cfg, old(run), run, seen)
      ensures match answer
              case Done => Renames(before, db.tables, c, u, name)
              case Refused(e) => e == NotFound && !OwnedBy(before, c, u) && db.tables == before
              case Aborted => (exists you :: you != me && HoldsClt(seen, you, c)) && db.tables == before
              case _ => false
    {
      Begin(me, RenameReq(u, c, name));
      var r := TryRename(me, u, c, name, patience);
      seen := db;
      StandsNow(cfg, old(run), run);
      ghost var tried := run;
      answer, before := EndRename(me, u, c, name, r);
      StoodThen(cfg, old(run), old(run), tried, run, seen);
    }

    // ---- usersvc.CreateUser ----

    method InsertUser(me: ClientId, nickname: string) returns (r: Reply<()>, newId: UserId, ghost seen: State)
      requires Valid() && At(me) == SignupUser(nickname)
      modifies this
      ensures Valid() && Stood(cfg, old(run), run, seen)
      ensures match r
              case Waits => At(me) == SignupUser(nickname) && SignupAnswer(me, nickname, Aborted, seen)
              case Fails(e) => At(me) == ToRollback(Refused(e)) && SignupAnswer(me, nickname, Refused(e), seen)
              case Returns(_, _) =>
                At(me) == SignupDefault(newId, nickname) && SignupAnswer(me, nickname, Done, seen)
    {
      Others(me);
      newId := FreshId(db.history.users.Keys);
      r := Database.CreateUser(db, me, nickname, newId);
      seen := db;
      StandsNow(cfg, old(run), run);
      ReadsCommitted(cfg, run, me);
      PendingNickname(db, me, nickname);
      ghost var tried := run;
      if r.Returns? { db := r.db; }
      if !r.Waits? { Record(Exec(me, 0, newId)); }
      StoodThen(cfg, old(run), old(run), tried, run, seen);
    }

    method InsertDefault(me: ClientId, u: UserId, nickname: string) returns (newId: CltId)
      requires Valid() && At(me) == SignupDefault(u, nickname)
      modifies this
      ensures Valid() && At(me) == ToCommit(AccountIn(u, newId, nickname)) && old(run) <= run
    {
      Others(me);
      newId := FreshId(db.history.clts.Keys);
      DefaultInsertReturns(cfg, run, me, At(me), newId);
      var r := Database.CreateCollection(db, me, u, DEF_COLLECTION_NAME, true, newId);
      db := r.db;
      Record(Exec(me, newId, 0));
    }

    method CommitAccount(me: ClientId, u: UserId, nickname: string, newId: CltId) returns (ghost before: Tables)
      requires Valid() && At(me) == ToCommit(AccountIn(u, newId, nickname))
      modifies this
      ensures Valid() && At(me) == Idle(Done) && old(run) <= run && Found(before)
      ensures AddsAccount(before, db.tables, u, nickname, newId)
    {
      Others(me);
      before := db.tables;
      AccountCommits(cfg, run, me, u, newId, nickname);
      CommitTx(me);
      OneDefaultEach(cfg, run, u);
    }

    method InsertAndCommit(me: ClientId, u: UserId, nickname: string) returns (newId: CltId, ghost before: Tables)
      requires Valid() && At(me) == SignupDefault(u, nickname)
      modifies this
      ensures Valid() && At(me) == Idle(Done) && old(run) <= run && Found(before)
      ensures AddsAccount(before, db.tables, u, nickname, newId)
    {
      newId := InsertDefault(me, u, nickname);
      before := CommitAccount(me, u, nickname, newId);
    }

    /**
     CreateUser: the account and its default collection become visible together, or nothing does; it is
     refused only when an account has the nickname.
     */
    method CreateUser(me: ClientId, nickname: string)
      returns (answer: Answer, u: UserId, newId: CltId, ghost before: Tables, ghost seen: State)
      requires Valid() && At(me).Idle?
      modifies this
      ensures Valid() && At(me) == Idle(answer) && Found(before)
      ensures Stood(cfg, old(run), run, seen) && SignupAnswer(me, nickname, answer, seen)
      ensures if answer == Done then AddsAccount(before, db.tables, u, nickname, newId) else db.tables == before
    {
      newId := 0;
      var r;
      Begin(me, SignupReq(nickname));
      ghost var begun := run;
      r, u, seen := InsertUser(me, nickname);
      ghost var inserted := run;
      if r.Returns? {
        newId, before := InsertAndCommit(me, u, nickname);
        answer := Done;
      } else {
        answer, before := Undo(me, r);
      }
      StoodThen(cfg, old(run), begun, inserted, run, seen);
    }

    // ---- collectionsvc.DeleteCollection: check, then delete, with no lock in between ----

    method CheckDefault(me: ClientId, u: UserId, c: CltId) returns (answer: Answer, ghost seen: State)
      requires Valid() && At(me) == DropCheck(u, c)
      modifies this
      ensures Valid() && Stood(cfg, old(run), run, seen) && Found(db.tables)
      ensures DropAnswer(me, u, c, answer, seen) && !answer.Aborted?
      ensures At(me) == if answer == Done then DropAct(u, c) else Idle(answer)
    {
      Others(me);
      var r := CollectionById(db, me, u, c);
      answer := if r.Fails? then Refused(r.error) else if r.value.isDefault then DefaultKept else Done;
      ReadsCommitted(cfg, run, me);
      seen := db;
      StandsNow(cfg, old(run), run);
      ghost var asked := run;
      Record(Exec(me, 0, 0));
      StoodThen(cfg, old(run), old(run), asked, run, seen);
    }

    /** DELETE, trying again while another transaction holds the row. `seen` is what the last try saw. */
    method TryDrop(me: ClientId, u: UserId, c: CltId, patience: nat) returns (r: Reply<()>)
      requires Valid() && At(me) == DropAct(u, c)
      modifies this
      ensures Valid() && At(me) == DropAct(u, c) && old(run) <= run
      ensures r == Database.DeleteCollection(db, me, u, c)
    {
      Others(me);
      r := Database.DeleteCollection(db, me, u, c);
      for i := 0 to patience
        invariant Valid() && At(me) == DropAct(u, c) && old(run) <= run
        invariant r == Database.DeleteCollection(db, me, u, c)
      {
        if !r.Waits? { break; }
        Others(me);
        r := Database.DeleteCollection(db, me, u, c);
      }
    }

    method DropRow(me: ClientId, u: UserId, c: CltId, patience: nat)
      returns (answer: Answer, ghost before: Tables, ghost seen: State)
      requires Valid() && At(me) == DropAct(u, c)
      modifies this
      ensures Valid() && At(me) == Idle(answer) && Found(before)
      ensures Stood(cfg, old(run), run, seen) && DropAnswer(me, u, c, answer, seen) && !answer.DefaultKept?
      ensures if answer == Done then seen.tables == before && TakesCollection(before, db.tables, c)
              else db.tables == before
    {
      var r := TryDrop(me, u, c, patience);
      before, seen := db.tables, db;
      StandsNow(cfg, old(run), run);
      ghost var tried := run;
      RowLocked(db, me, c);
      DropTakesCollection(cfg, After(cfg, run), me, 0, 0);
      match r {
        case Waits =>
          answer := Aborted;
          Cancel(me);
        case Fails(e) =>
          answer := Refused(e);
          Record(Exec(me, 0, 0));
        case Returns(_, next) =>
          DropsNoDefault(cfg, run, me, u, c);
          answer, db := Done, next;
          Record(Exec(me, 0, 0));
      }
      StoodThen(cfg, old(run), old(run), tried, run, seen);
    }

    /**
     DeleteCollection: it removes at most the collection named, and never a default one, although
     the check and the delete are two statements and others run between them.
     */
    method DeleteCollection(me: ClientId, u: UserId, c: CltId, patience: nat)
      returns (answer: Answer, ghost before: Tables, ghost seen: State)
      requires Valid() && At(me).Idle?
      modifies this
      ensures Valid() && At(me) == Idle(answer) && Found(before)
      ensures Stood(cfg, old(run), run, seen) && DropAnswer(me, u, c, answer, seen)
      ensures if answer == Done then seen.tables == before && TakesCollection(before, db.tables, c)
              else db.tables == before
    {
      Begin(me, DropCltReq(u, c));
      ghost var begun := run;
      answer, seen := CheckDefault(me, u, c);
      ghost var checked := run;
      if answer == Done {
        answer, before, seen := DropRow(me, u, c, patience);
        StoodThen(cfg, old(run), checked, run, run, seen);
      } else {
        before := db.tables;
        StoodThen(cfg, old(run), begun, checked, run, seen);
      }
    }
  }
}
