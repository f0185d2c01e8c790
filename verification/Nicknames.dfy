/**
 Nicknames (internal/storage/user_repo.go): the unique index makes a signup wait for another under the
 same nickname, so no two accounts ever share one, committed or about to be.
 */
module Nicknames {
  import opened Database
  import opened Services
  import opened Invariant

  /** No two committed accounts share a nickname, and no uncommitted one has that of any other. */
  ghost predicate NamesApart(db: State) {
    && (forall u, v | u in db.tables.users && v in db.tables.users ::
          db.tables.users[u] == db.tables.users[v] ==> u == v)
    && (forall me: ClientId, u | u in Tx(db, me).users :: Apart(db, me, u))
  }

  /** The uncommitted account `u` of `me` shares its nickname with nobody. */
  ghost predicate Apart(db: State, me: ClientId, u: UserId)
    requires u in Tx(db, me).users
  {
    var nickname := Tx(db, me).users[u];
    && (forall v | v in db.tables.users :: db.tables.users[v] != nickname)
    && (forall you: ClientId, v | v in Tx(db, you).users && Tx(db, you).users[v] == nickname :: you == me && v == u)
  }

  /** Every account of `db'`, committed or not, is one of `db` under the same nickname. */
  ghost predicate FewerNames(db: State, db': State) {
    && (forall u | u in db'.tables.users :: u in db.tables.users && db'.tables.users[u] == db.tables.users[u])
    && (forall me: ClientId, u | u in Tx(db', me).users ::
          u in Tx(db, me).users && Tx(db', me).users[u] == Tx(db, me).users[u])
  }

  lemma {:induction false} FewerStayApart(db: State, db': State)
    requires NamesApart(db) && FewerNames(db, db')
    ensures NamesApart(db')
  {
    forall me: ClientId, u | u in Tx(db', me).users ensures Apart(db', me, u) {
      assert Apart(db, me, u);
    }
  }

  lemma {:induction false} CollectionFewer(
      db: State, me: ClientId, u: UserId, name: string, isDefault: bool, newId: CltId)
    ensures var r := CreateCollection(db, me, u, name, isDefault, newId); r.Returns? ==> FewerNames(db, r.db)
  {}

  lemma {:induction false} ColorFewer(db: State, me: ClientId, c: CltId, h: Hex, key: int)
    ensures var r := AddColor(db, me, c, h, key); r.Returns? ==> FewerNames(db, r.db)
  {}

  lemma {:induction false} DecideFewer(cfg: Config, s: System, me: ClientId, pc: Pc)
    requires pc.AddDecide?
    ensures FewerNames(s.db, ExecAddDecide(cfg, s, me, pc).db)
  {
    ColorFewer(s.db, me, pc.clt, pc.hex, cfg.feel(pc.hex));
  }

  lemma {:induction false} InsertsFewer(cfg: Config, s: System, me: ClientId, pc: Pc, newClt: CltId)
    ensures pc.NewDecide? ==> FewerNames(s.db, ExecNewDecide(cfg, s, me, pc, newClt).db)
    ensures pc.SignupDefault? ==> FewerNames(s.db, ExecSignupDefault(s, me, pc, newClt).db)
  {
    if pc.NewDecide? { CollectionFewer(s.db, me, pc.user, pc.name, false, newClt); }
    if pc.SignupDefault? { CollectionFewer(s.db, me, pc.user, DEF_COLLECTION_NAME, true, newClt); }
  }

  lemma {:induction false} LocksFewer(s: System, me: ClientId, pc: Pc)
    ensures pc.AddLock? ==> FewerNames(s.db, ExecAddLock(s, me, pc).db)
    ensures pc.NewLock? ==> FewerNames(s.db, ExecNewLock(s, me, pc).db)
  {}

  lemma {:induction false} CascadeFewer(s: System, me: ClientId, pc: Pc, c: CltId)
    ensures pc.DropAccount? ==> FewerNames(s.db, ExecDropAccount(s, me, pc).db)
    ensures pc.DropRows? ==> FewerNames(s.db, ExecDropRows(s, me, pc, c).db)
  {}

  lemma {:induction false} RollbackFewer(db: State, me: ClientId)
    ensures FewerNames(db, Rollback(db, me))
  {}

  lemma {:induction false} WritesFewer(s: System, me: ClientId, pc: Pc)
    ensures pc.Act? ==> FewerNames(s.db, ExecAct(s, me, pc).db)
    ensures pc.Rename? ==> FewerNames(s.db, Answered(s, me, UpdateCollection(s.db, me, pc.user, pc.clt, pc.name)).db)
    ensures pc.DropAct? ==> FewerNames(s.db, Answered(s, me, DeleteCollection(s.db, me, pc.user, pc.clt)).db)
  {}

  /** The insert of a signup: its nickname is nobody's, committed or pending. */
  lemma {:induction false} SignupStaysApart(db: State, db': State, me: ClientId, nickname: string, newId: UserId)
    requires NamesApart(db) && Tx(db, me) == EMPTY && newId !in db.history.users
    requires CreateUser(db, me, nickname, newId).Returns? && db' == CreateUser(db, me, nickname, newId).db
    ensures NamesApart(db')
  {
    SeesCommitted(db, me);
    SignupAdds(db, db', me, nickname, newId);
    forall you: ClientId, u | u in Tx(db', you).users ensures Apart(db', you, u) {
      if you == me {
        NobodyHas(db, me, nickname);
      } else {
        assert Apart(db, you, u);
        NobodyHas(db, me, nickname);
      }
    }
  }

  lemma {:induction false} SignupAdds(db: State, db': State, me: ClientId, nickname: string, newId: UserId)
    requires Tx(db, me) == EMPTY
    requires CreateUser(db, me, nickname, newId).Returns? && db' == CreateUser(db, me, nickname, newId).db
    ensures Tx(db', me).users == map[newId := nickname] && db'.tables == db.tables
    ensures forall you: ClientId | you != me :: Tx(db', you) == Tx(db, you)
  {}

  lemma {:induction false} NobodyHas(db: State, me: ClientId, nickname: string)
    requires Tx(db, me) == EMPTY && nickname !in SeenUsers(db, me).Values && !NicknamePending(db, me, nickname)
    ensures forall v | v in db.tables.users :: db.tables.users[v] != nickname
    ensures forall you: ClientId, v | v in Tx(db, you).users :: Tx(db, you).users[v] != nickname
  {
    SeesCommitted(db, me);
    forall you: ClientId, v | v in Tx(db, you).users ensures Tx(db, you).users[v] != nickname {
      assert you in db.txs && Tx(db, you) == db.txs[you];
      assert db.txs[you].users[v] in db.txs[you].users.Values;
    }
  }

  lemma {:induction false} CommitStaysApart(db: State, me: ClientId)
    requires NamesApart(db)
    ensures NamesApart(Commit(db, me))
  {
    var db' := Commit(db, me);
    forall u, v | u in db'.tables.users && v in db'.tables.users && db'.tables.users[u] == db'.tables.users[v]
      ensures u == v
    {
      assert u in Tx(db, me).users ==> Apart(db, me, u);
      assert v in Tx(db, me).users ==> Apart(db, me, v);
    }
    CommitLeaves(db, me);
    forall you: ClientId, u | u in Tx(db', you).users ensures Apart(db', you, u) {
      assert you != me && Apart(db, you, u);
    }
  }

  lemma {:induction false} CommitLeaves(db: State, me: ClientId)
    ensures forall you: ClientId :: Tx(Commit(db, me), you) == if you == me then EMPTY else Tx(db, you)
  {}

  lemma {:induction false} StepStaysApart(cfg: Config, s: System, e: Event)
    requires Inv(cfg, s) && NamesApart(s.db)
    ensures NamesApart(Step(cfg, s, e).db)
  {
    var me, pc := e.client, PcOf(s, e.client);
    RollbackFewer(s.db, me);
    FewerStayApart(s.db, Rollback(s.db, me));
    if e.Exec? {
      ExecStaysApart(cfg, s, me, pc, e.clt, e.newUser);
    }
  }

  lemma {:induction false} ExecStaysApart(cfg: Config, s: System, me: ClientId, pc: Pc, clt: CltId, newUser: UserId)
    requires Inv(cfg, s) && NamesApart(s.db) && pc == PcOf(s, me)
    ensures NamesApart(ExecNext(cfg, s, me, clt, newUser).db)
  {
    if pc.SignupUser? {
      assert ClientOk(cfg, s.db, me, pc);
      var r := CreateUser(s.db, me, pc.nickname, newUser);
      if r.Returns? { SignupStaysApart(s.db, r.db, me, pc.nickname, newUser); }
    } else if pc.ToCommit? {
      CommitStaysApart(s.db, me);
    } else {
      ExecFewer(cfg, s, me, pc, clt, newUser);
      FewerStayApart(s.db, ExecNext(cfg, s, me, clt, newUser).db);
    }
  }

  lemma {:induction false} ExecFewer(cfg: Config, s: System, me: ClientId, pc: Pc, clt: CltId, newUser: UserId)
    requires pc == PcOf(s, me) && !pc.SignupUser? && !pc.ToCommit?
    ensures FewerNames(s.db, ExecNext(cfg, s, me, clt, newUser).db)
  {
    match pc
    case AddDecide(_, _, _, _) => DecideFewer(cfg, s, me, pc);
    case NewDecide(_, _, _) => InsertsFewer(cfg, s, me, pc, clt);
    case SignupDefault(_, _) => InsertsFewer(cfg, s, me, pc, clt);
    case Act(_, _, _) => WritesFewer(s, me, pc);
    case Rename(_, _, _) => WritesFewer(s, me, pc);
    case DropAct(_, _) => WritesFewer(s, me, pc);
    case DropAccount(_) => CascadeFewer(s, me, pc, clt);
    case DropRows(_) => CascadeFewer(s, me, pc, clt);
    case ToRollback(_) => RollbackFewer(s.db, me);
    case AddLock(_, _, _) => LocksFewer(s, me, pc);
    case NewLock(_, _) => LocksFewer(s, me, pc);
    case _ => ReadsFewer(cfg, s, me, pc, clt, newUser);
  }

  lemma {:induction false} ReadsFewer(cfg: Config, s: System, me: ClientId, pc: Pc, clt: CltId, newUser: UserId)
    requires pc == PcOf(s, me)
    requires pc.Idle? || pc.AddCount? || pc.NewCount? || pc.Resolve? || pc.DropCheck?
    ensures FewerNames(s.db, ExecNext(cfg, s, me, clt, newUser).db)
  {}

  /** After any run of any number of concurrent signups, no two accounts have the same nickname. */
  lemma {:induction false} NicknamesUnique(cfg: Config, run: seq<Event>)
    requires cfg.Valid()
    ensures NamesApart(After(cfg, run).db)
  {
    if run != [] {
      NicknamesUnique(cfg, run[..|run| - 1]);
      Reachable(cfg, run[..|run| - 1]);
      StepStaysApart(cfg, After(cfg, run[..|run| - 1]), run[|run| - 1]);
    }
  }
}
