/**
 The services (internal/colorsvc, internal/collectionsvc, internal/usersvc) as programs that any
 number of clients run against one database, one statement at a time. A run is any sequence of
 events, so every interleaving of statements is a run.
 */
module Services {
  import opened Database

  /** The configured quotas and the color_key function. */
  datatype Config = Config(colorQuota: int, cltQuota: int, feel: Hex -> int) {
    /** cmd/api/main.go refuses a quota that is not positive. */
    predicate Valid() {
      colorQuota >= 1 && cltQuota >= 1
    }
  }

  /** What follows an unlocked ResolveCollection. */
  datatype Action = RemoveColor(hex: Hex) | RemoveAll | List

  datatype Request =
    | AddColorReq(user: UserId, clt: CltId, hex: Hex)
    | ActReq(user: UserId, clt: CltId, action: Action)
    | CreateCltReq(user: UserId, name: string)
    | RenameReq(user: UserId, clt: CltId, name: string)
    | DropCltReq(user: UserId, clt: CltId)
    | SignupReq(nickname: string)
    | DropUserReq(user: UserId)

  datatype Answer =
    | Nothing
    | Created
    | AlreadySaved
    | Done
    | Listed(rows: map<Hex, int>)
    | Refused(error: Error)
    | ColorQuotaFull
    | CltQuotaFull
    | DefaultKept
    | Aborted

  /** What a transaction that is about to commit has done. */
  datatype Work =
    | ColorIn(user: UserId, clt: CltId, hex: Hex, created: bool)
    | CollectionIn(user: UserId, clt: CltId, name: string)
    | AccountIn(user: UserId, clt: CltId, nickname: string)

  /** The next statement of a client, with the locals the statements before it assigned. */
  datatype Pc =
    | Idle(last: Answer)
    | AddLock(user: UserId, clt: CltId, hex: Hex)
    | AddCount(user: UserId, clt: CltId, hex: Hex)
    | AddDecide(user: UserId, clt: CltId, hex: Hex, n: nat)
    | NewLock(user: UserId, name: string)
    | NewCount(user: UserId, name: string)
    | NewDecide(user: UserId, name: string, n: nat)
    | SignupUser(nickname: string)
    | SignupDefault(user: UserId, nickname: string)
    | ToCommit(work: Work)
    | ToRollback(answer: Answer)
    | Resolve(user: UserId, clt: CltId, action: Action)
    | Act(user: UserId, clt: CltId, action: Action)
    | Rename(user: UserId, clt: CltId, name: string)
    | DropCheck(user: UserId, clt: CltId)
    | DropAct(user: UserId, clt: CltId)
    | DropAccount(user: UserId)
    | DropRows(user: UserId)

  datatype System = System(db: State, pcs: map<ClientId, Pc>)

  datatype Event =
    | Submit(client: ClientId, request: Request)
    | Exec(client: ClientId, clt: CltId, newUser: UserId)
    | Abort(client: ClientId)

  const START: System := System(State(EMPTY, map[], map[], map[], History(map[], map[], map[])), map[])

  const DEF_COLLECTION_NAME := "Main"

  function PcOf(s: System, me: ClientId): Pc {
    if me in s.pcs then s.pcs[me] else Idle(Nothing)
  }

  /** Where a program can be once it has taken a row lock it keeps. */
  predicate PastLock(pc: Pc) {
    pc.AddCount? || pc.AddDecide? || pc.NewCount? || pc.NewDecide? || pc.ToCommit? || pc.ToRollback?
    || pc.DropRows?
  }

  function Goto(s: System, me: ClientId, db: State, pc: Pc): System {
    System(db, s.pcs[me := pc])
  }

  function FirstStatement(r: Request): Pc {
    match r
    case AddColorReq(u, c, h) => AddLock(u, c, h)
    case ActReq(u, c, a) => Resolve(u, c, a)
    case CreateCltReq(u, name) => NewLock(u, name)
    case RenameReq(u, c, name) => Rename(u, c, name)
    case DropCltReq(u, c) => DropCheck(u, c)
    case SignupReq(nickname) => SignupUser(nickname)
    case DropUserReq(u) => DropAccount(u)
  }

  // ---- colorsvc.AddColor, statement by statement ----

  function ExecAddLock(s: System, me: ClientId, pc: Pc): System
    requires pc.AddLock?
  {
    match LockCollection(s.db, me, pc.user, pc.clt)
    case Waits => s
    case Fails(e) => Goto(s, me, s.db, ToRollback(Refused(e)))
    case Returns(_, db) => Goto(s, me, db, AddCount(pc.user, pc.clt, pc.hex))
  }

  function ExecAddCount(s: System, me: ClientId, pc: Pc): System
    requires pc.AddCount?
  {
    Goto(s, me, s.db, AddDecide(pc.user, pc.clt, pc.hex, CountColors(s.db, me, pc.clt)))
  }

  function ExecAddDecide(cfg: Config, s: System, me: ClientId, pc: Pc): System
    requires pc.AddDecide?
  {
    if pc.n >= cfg.colorQuota then
      if HasColor(s.db, me, pc.clt, pc.hex)
      then Goto(s, me, s.db, ToCommit(ColorIn(pc.user, pc.clt, pc.hex, false)))
      else Goto(s, me, s.db, ToRollback(ColorQuotaFull))
    else
      match AddColor(s.db, me, pc.clt, pc.hex, cfg.feel(pc.hex))
      case Waits => s
      case Fails(e) => Goto(s, me, s.db, ToRollback(Refused(e)))
      case Returns(created, db) => Goto(s, me, db, ToCommit(ColorIn(pc.user, pc.clt, pc.hex, created)))
  }

  // ---- collectionsvc.CreateCollection ----

  function ExecNewLock(s: System, me: ClientId, pc: Pc): System
    requires pc.NewLock?
  {
    match LockUser(s.db, me, pc.user)
    case Waits => s
    case Fails(e) => Goto(s, me, s.db, ToRollback(Refused(e)))
    case Returns(_, db) => Goto(s, me, db, NewCount(pc.user, pc.name))
  }

  function ExecNewCount(s: System, me: ClientId, pc: Pc): System
    requires pc.NewCount?
  {
    Goto(s, me, s.db, NewDecide(pc.user, pc.name, CountCollections(s.db, me, pc.user)))
  }

  function ExecNewDecide(cfg: Config, s: System, me: ClientId, pc: Pc, newId: CltId): System
    requires pc.NewDecide?
  {
    if pc.n >= cfg.cltQuota then Goto(s, me, s.db, ToRollback(CltQuotaFull))
    else
      match CreateCollection(s.db, me, pc.user, pc.name, false, newId)
      case Waits => s
      case Fails(e) => Goto(s, me, s.db, ToRollback(Refused(e)))
      case Returns(_, db) => Goto(s, me, db, ToCommit(CollectionIn(pc.user, newId, pc.name)))
  }

  // ---- usersvc.CreateUser ----

  function ExecSignupUser(s: System, me: ClientId, pc: Pc, newId: UserId): System
    requires pc.SignupUser?
  {
    match CreateUser(s.db, me, pc.nickname, newId)
    case Waits => s
    case Fails(e) => Goto(s, me, s.db, ToRollback(Refused(e)))
    case Returns(_, db) => Goto(s, me, db, SignupDefault(newId, pc.nickname))
  }

  function ExecSignupDefault(s: System, me: ClientId, pc: Pc, newId: CltId): System
    requires pc.SignupDefault?
  {
    match CreateCollection(s.db, me, pc.user, DEF_COLLECTION_NAME, true, newId)
    case Waits => s
    case Fails(e) => Goto(s, me, s.db, ToRollback(Refused(e)))
    case Returns(_, db) => Goto(s, me, db, ToCommit(AccountIn(pc.user, newId, pc.nickname)))
  }

  // ---- storage.InTx ----

  function AnswerOf(w: Work): Answer {
    match w
    case ColorIn(_, _, _, created) => if created then Created else AlreadySaved
    case CollectionIn(_, _, _) => Done
    case AccountIn(_, _, _) => Done
  }

  function ExecCommit(s: System, me: ClientId, pc: Pc): System
    requires pc.ToCommit?
  {
    Goto(s, me, Commit(s.db, me), Idle(AnswerOf(pc.work)))
  }

  // ---- the services that run without a transaction ----

  function ExecResolve(s: System, me: ClientId, pc: Pc): System
    requires pc.Resolve?
  {
    match ResolveCollection(s.db, me, pc.user, pc.clt)
    case Waits => s
    case Fails(e) => Goto(s, me, s.db, Idle(Refused(e)))
    case Returns(_, db) => Goto(s, me, db, Act(pc.user, pc.clt, pc.action))
  }

  function Answered(s: System, me: ClientId, r: Reply<()>): System {
    match r
    case Waits => s
    case Fails(e) => Goto(s, me, s.db, Idle(Refused(e)))
    case Returns(_, db) => Goto(s, me, db, Idle(Done))
  }

  function ExecAct(s: System, me: ClientId, pc: Pc): System
    requires pc.Act?
  {
    match pc.action
    case RemoveColor(h) => Answered(s, me, DeleteColor(s.db, pc.clt, h))
    case RemoveAll => Answered(s, me, DeleteAllColors(s.db, pc.clt))
    case List => Goto(s, me, s.db, Idle(Listed(Rows(s.db.tables, pc.clt))))
  }

  function ExecDropCheck(s: System, me: ClientId, pc: Pc): System
    requires pc.DropCheck?
  {
    match CollectionById(s.db, me, pc.user, pc.clt)
    case Waits => s
    case Fails(e) => Goto(s, me, s.db, Idle(Refused(e)))
    case Returns(clt, db) =>
      if clt.isDefault then Goto(s, me, db, Idle(DefaultKept))
      else Goto(s, me, db, DropAct(pc.user, pc.clt))
  }

  // ---- usersvc.DeleteUser: one statement that takes its locks one by one ----

  function ExecDropAccount(s: System, me: ClientId, pc: Pc): System
    requires pc.DropAccount?
  {
    match LockUser(s.db, me, pc.user)
    case Waits => s
    case Fails(e) => Goto(s, me, s.db, Idle(Refused(e)))
    case Returns(_, db) => Goto(s, me, db, DropRows(pc.user))
  }

  /** The cascade takes the row `c` if it is one of those left; the order it comes to them in is free. */
  function ExecDropRows(s: System, me: ClientId, pc: Pc, c: CltId): System
    requires pc.DropRows?
  {
    var left := ToTake(s.db, me, pc.user);
    if left == {} then Goto(s, me, DeleteUser(s.db, me, pc.user), Idle(Done))
    else if c !in left then s
    else
      match TakeRow(s.db, me, c)
      case Returns(_, db) => Goto(s, me, db, pc)
      case _ => s
  }

  /**
   The next statement of `me`. A statement that waits leaves the system as it is. `clt` is the id the
   generator gives an insert, or the row a cascade comes to next.
   */
  function ExecNext(cfg: Config, s: System, me: ClientId, clt: CltId, newUser: UserId): System {
    var pc := PcOf(s, me);
    match pc
    case Idle(_) => s
    case AddLock(_, _, _) => ExecAddLock(s, me, pc)
    case AddCount(_, _, _) => ExecAddCount(s, me, pc)
    case AddDecide(_, _, _, _) => ExecAddDecide(cfg, s, me, pc)
    case NewLock(_, _) => ExecNewLock(s, me, pc)
    case NewCount(_, _) => ExecNewCount(s, me, pc)
    case NewDecide(_, _, _) => ExecNewDecide(cfg, s, me, pc, clt)
    case SignupUser(_) => ExecSignupUser(s, me, pc, newUser)
    case SignupDefault(_, _) => ExecSignupDefault(s, me, pc, clt)
    case ToCommit(_) => ExecCommit(s, me, pc)
    case ToRollback(answer) => Goto(s, me, Rollback(s.db, me), Idle(answer))
    case Resolve(_, _, _) => ExecResolve(s, me, pc)
    case Act(_, _, _) => ExecAct(s, me, pc)
    case Rename(u, c, name) => Answered(s, me, UpdateCollection(s.db, me, u, c, name))
    case DropCheck(_, _) => ExecDropCheck(s, me, pc)
    case DropAct(u, c) => Answered(s, me, DeleteCollection(s.db, me, u, c))
    case DropAccount(_) => ExecDropAccount(s, me, pc)
    case DropRows(_) => ExecDropRows(s, me, pc, clt)
  }

  function Step(cfg: Config, s: System, e: Event): System {
    match e
    case Submit(me, r) =>
      if PcOf(s, me).Idle? then Goto(s, me, s.db, FirstStatement(r)) else s
    case Exec(me, clt, newUser) => ExecNext(cfg, s, me, clt, newUser)
    case Abort(me) => // the request is cancelled
      if PcOf(s, me).Idle? then s else Goto(s, me, Rollback(s.db, me), Idle(Aborted))
  }

  /** The system after the events `run`, starting from empty tables. */
  function After(cfg: Config, run: seq<Event>): System {
    if run == [] then START else Step(cfg, After(cfg, run[..|run| - 1]), run[|run| - 1])
  }
}
