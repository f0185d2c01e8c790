/**
 Who waits for whom. Every statement that waits, waits for a client that holds a row lock or an
 uncommitted insert; no chain of such waits is longer than two, so none of them is a circle.
 */
module Deadlock {
  import opened Database
  import opened Services
  import opened Invariant
  import opened AccountStore

  /** The next statement of `a` waits for what `b` holds. */
  ghost predicate WaitsFor(s: System, a: ClientId, b: ClientId) {
    a != b &&
    match PcOf(s, a)
    case AddLock(_, c, _) => HoldsClt(s.db, b, c)
    case AddDecide(_, c, h, _) => b in s.db.txs && h in Rows(s.db.txs[b], c)
    case NewLock(u, _) => HoldsUser(s.db, b, u)
    case SignupUser(nickname) => b in s.db.txs && nickname in s.db.txs[b].users.Values
    case Rename(_, c, _) => HoldsClt(s.db, b, c)
    case DropAct(_, c) => HoldsClt(s.db, b, c)
    case DropAccount(u) => HoldsUser(s.db, b, u)
    case DropRows(u) => exists c :: c in ToTake(s.db, a, u) && HoldsClt(s.db, b, c)
    case _ => false
  }

  /** The generated id is new, or the cascade has come to one of the rows it has left. */
  ghost predicate Offered(s: System, me: ClientId, clt: CltId, newUser: UserId) {
    && newUser !in s.db.history.users
    && if PcOf(s, me).DropRows? && ToTake(s.db, me, PcOf(s, me).user) != {}
       then clt in ToTake(s.db, me, PcOf(s, me).user)
       else clt !in s.db.history.clts
  }

  // ---- every wait is for somebody ----

  lemma {:induction false} LockWaits(s: System, me: ClientId)
    requires PcOf(s, me).AddLock? || PcOf(s, me).NewLock? || PcOf(s, me).DropAccount?
    requires var pc := PcOf(s, me);
             if pc.AddLock? then LockCollection(s.db, me, pc.user, pc.clt).Waits?
             else LockUser(s.db, me, pc.user).Waits?
    ensures exists b :: WaitsFor(s, me, b)
  {
    var pc := PcOf(s, me);
    var b := if pc.AddLock? then s.db.cltLocks[pc.clt] else s.db.userLocks[pc.user];
    assert WaitsFor(s, me, b);
  }

  lemma {:induction false} RowWaits(s: System, me: ClientId)
    requires PcOf(s, me).Rename? || PcOf(s, me).DropAct?
    requires LockedByOther(s.db.cltLocks, PcOf(s, me).clt, me)
    ensures exists b :: WaitsFor(s, me, b)
  {
    assert WaitsFor(s, me, s.db.cltLocks[PcOf(s, me).clt]);
  }

  lemma {:induction false} CascadeWaits(s: System, me: ClientId, c: CltId)
    requires PcOf(s, me).DropRows? && c in ToTake(s.db, me, PcOf(s, me).user) && LockedByOther(s.db.cltLocks, c, me)
    ensures exists b :: WaitsFor(s, me, b)
  {
    var b := s.db.cltLocks[c];
    assert c in ToTake(s.db, me, PcOf(s, me).user) && HoldsClt(s.db, b, c);
    assert WaitsFor(s, me, b);
  }

  lemma {:induction false} InsertWaits(s: System, me: ClientId)
    requires var pc := PcOf(s, me);
             || (pc.AddDecide? && PendingElsewhere(s.db, me, pc.clt, pc.hex))
             || (pc.SignupUser? && NicknamePending(s.db, me, pc.nickname))
    ensures exists b :: WaitsFor(s, me, b)
  {
    var pc := PcOf(s, me);
    if pc.AddDecide? {
      var b :| b in s.db.txs && b != me && pc.hex in Rows(s.db.txs[b], pc.clt);
      assert WaitsFor(s, me, b);
    } else {
      var b :| b in s.db.txs && b != me && pc.nickname in s.db.txs[b].users.Values;
      assert WaitsFor(s, me, b);
    }
  }

  lemma {:induction false} AddMoves(cfg: Config, s: System, me: ClientId, pc: Pc)
    requires pc == PcOf(s, me)
    ensures pc.AddLock? && !LockCollection(s.db, me, pc.user, pc.clt).Waits? ==> PcOf(ExecAddLock(s, me, pc), me) != pc
    ensures pc.AddCount? ==> PcOf(ExecAddCount(s, me, pc), me) != pc
    ensures pc.AddDecide? && !PendingElsewhere(s.db, me, pc.clt, pc.hex) ==>
              PcOf(ExecAddDecide(cfg, s, me, pc), me) != pc
  {}

  lemma {:induction false} NewMoves(cfg: Config, s: System, me: ClientId, pc: Pc, clt: CltId)
    requires pc == PcOf(s, me) && clt !in s.db.history.clts
    ensures pc.NewLock? && !LockUser(s.db, me, pc.user).Waits? ==> PcOf(ExecNewLock(s, me, pc), me) != pc
    ensures pc.NewCount? ==> PcOf(ExecNewCount(s, me, pc), me) != pc
    ensures pc.NewDecide? ==> PcOf(ExecNewDecide(cfg, s, me, pc, clt), me) != pc
  {}

  lemma {:induction false} SignupMoves(s: System, me: ClientId, pc: Pc, clt: CltId, newUser: UserId)
    requires pc == PcOf(s, me) && clt !in s.db.history.clts && newUser !in s.db.history.users
    ensures pc.SignupUser? && !NicknamePending(s.db, me, pc.nickname) ==>
              PcOf(ExecSignupUser(s, me, pc, newUser), me) != pc
    ensures pc.SignupDefault? ==> PcOf(ExecSignupDefault(s, me, pc, clt), me) != pc
  {}

  lemma {:induction false} LoneMoves(s: System, me: ClientId, pc: Pc)
    requires pc == PcOf(s, me)
    ensures pc.Resolve? ==> PcOf(ExecResolve(s, me, pc), me) != pc
    ensures pc.Act? ==> PcOf(ExecAct(s, me, pc), me) != pc
    ensures pc.DropCheck? ==> PcOf(ExecDropCheck(s, me, pc), me) != pc
  {}

  lemma {:induction false} RowMoves(s: System, me: ClientId, pc: Pc)
    requires pc == PcOf(s, me) && (pc.Rename? || pc.DropAct?) && !LockedByOther(s.db.cltLocks, pc.clt, me)
    ensures pc.Rename? ==> PcOf(Answered(s, me, UpdateCollection(s.db, me, pc.user, pc.clt, pc.name)), me) != pc
    ensures pc.DropAct? ==> PcOf(Answered(s, me, DeleteCollection(s.db, me, pc.user, pc.clt)), me) != pc
  {}

  lemma {:induction false} RowStuck(s: System, me: ClientId, pc: Pc)
    requires pc == PcOf(s, me) && (pc.Rename? || pc.DropAct?)
    requires pc.Rename? ==> Answered(s, me, UpdateCollection(s.db, me, pc.user, pc.clt, pc.name)) == s
    requires pc.DropAct? ==> Answered(s, me, DeleteCollection(s.db, me, pc.user, pc.clt)) == s
    ensures exists b :: WaitsFor(s, me, b)
  {
    if LockedByOther(s.db.cltLocks, pc.clt, me) { RowWaits(s, me); } else { RowMoves(s, me, pc); }
  }

  /** A cascade that is not held up takes the row it has come to, and ends when none is left. */
  lemma {:induction false} CascadeMoves(s: System, me: ClientId, pc: Pc, c: CltId)
    requires pc == PcOf(s, me) && pc.DropRows?
    ensures var left := ToTake(s.db, me, pc.user);
            var s' := ExecDropRows(s, me, pc, c);
            && (left == {} ==> PcOf(s', me) == Idle(Done))
            && (c in left && !LockedByOther(s.db.cltLocks, c, me) ==>
                  PcOf(s', me) == pc && ToTake(s'.db, me, pc.user) == left - {c})
  {}

  /** A statement that leaves everything as it is, is waiting for another client. */
  lemma {:induction false} StuckIsWaiting(cfg: Config, s: System, me: ClientId, clt: CltId, newUser: UserId)
    requires !PcOf(s, me).Idle? && Offered(s, me, clt, newUser)
    requires ExecNext(cfg, s, me, clt, newUser) == s
    ensures exists b :: WaitsFor(s, me, b)
  {
    var pc := PcOf(s, me);
    match pc
    case AddLock(_, _, _) => AddMoves(cfg, s, me, pc); LockWaits(s, me);
    case AddCount(_, _, _) => AddMoves(cfg, s, me, pc);
    case AddDecide(_, _, _, _) => AddMoves(cfg, s, me, pc); InsertWaits(s, me);
    case NewLock(_, _) => NewMoves(cfg, s, me, pc, clt); LockWaits(s, me);
    case NewCount(_, _) => NewMoves(cfg, s, me, pc, clt);
    case NewDecide(_, _, _) => NewMoves(cfg, s, me, pc, clt);
    case SignupUser(_) => SignupMoves(s, me, pc, clt, newUser); InsertWaits(s, me);
    case SignupDefault(_, _) => SignupMoves(s, me, pc, clt, newUser);
    case Resolve(_, _, _) => LoneMoves(s, me, pc);
    case Act(_, _, _) => LoneMoves(s, me, pc);
    case DropCheck(_, _) => LoneMoves(s, me, pc);
    case Rename(_, _, _) => RowStuck(s, me, pc);
    case DropAct(_, _) => RowStuck(s, me, pc);
    case DropAccount(_) =>
      assert LockUser(s.db, me, pc.user).Waits? by {
        assert !LockUser(s.db, me, pc.user).Waits? ==> PcOf(ExecDropAccount(s, me, pc), me) != pc;
      }
      LockWaits(s, me);
    case DropRows(u) =>
      CascadeMoves(s, me, pc, clt);
      CascadeWaits(s, me, clt);
    case _ =>
  }

  // ---- and nobody waits in a circle ----

  /** Who is waited for and waits is a cascade in the middle of its rows. */
  lemma {:induction false} MiddleIsCascade(cfg: Config, s: System, a: ClientId, b: ClientId, c: ClientId)
    requires Inv(cfg, s) && WaitsFor(s, a, b) && WaitsFor(s, b, c)
    ensures PcOf(s, b).DropRows?
  {
    var pc := PcOf(s, b);
    assert ClientOk(cfg, s.db, b, pc);
    assert Tx(s.db, b) == EMPTY;
    assert !Lockless(s.db, b);
    if pc.AddDecide? {
      NothingPendingElsewhere(cfg, s, b, pc.clt, pc.hex);
    }
  }

  /** A cascade waits only for clients that do not wait. */
  lemma {:induction false} CascadesDoNotChain(cfg: Config, s: System, b: ClientId, c: ClientId)
    requires Inv(cfg, s) && PcOf(s, b).DropRows? && WaitsFor(s, b, c)
    ensures !PcOf(s, c).DropRows?
  {
    var x :| x in ToTake(s.db, b, PcOf(s, b).user) && HoldsClt(s.db, c, x);
    assert ClientOk(cfg, s.db, b, PcOf(s, b));
    assert ClientOk(cfg, s.db, c, PcOf(s, c));
    BirthOf(s.db.tables, s.db.history, x);
    if PcOf(s, c).DropRows? { OneCascadePerAccount(cfg, s.db, b, c, PcOf(s, b), PcOf(s, c), x); }
  }

  /** The lock of the account keeps two cascades from sharing it. */
  lemma {:induction false} OneCascadePerAccount(
      cfg: Config, db: State, b: ClientId, c: ClientId, pb: Pc, pc: Pc, x: CltId)
    requires pb.DropRows? && pc.DropRows? && LocalsOk(cfg, db, b, pb) && LocalsOk(cfg, db, c, pc)
    requires HoldsClt(db, c, x) && Knows(db.history, x, pb.user)
    ensures b == c
  {}

  /**
   No client at the end of two waits waits: whatever runs, waits form no circle, and the server has no
   deadlock to break.
   */
  lemma {:induction false} NoDeadlock(
      cfg: Config, run: seq<Event>, a: ClientId, b: ClientId, c: ClientId, d: ClientId)
    requires cfg.Valid() && WaitsFor(After(cfg, run), a, b) && WaitsFor(After(cfg, run), b, c)
    ensures !WaitsFor(After(cfg, run), c, d)
  {
    var s := After(cfg, run);
    Reachable(cfg, run);
    MiddleIsCascade(cfg, s, a, b, c);
    CascadesDoNotChain(cfg, s, b, c);
    if WaitsFor(s, c, d) { MiddleIsCascade(cfg, s, b, c, d); }
  }

  /** In every reachable state a statement that cannot run waits for somebody. */
  lemma {:induction false} WaitsAreForSomeone(
      cfg: Config, run: seq<Event>, me: ClientId, clt: CltId, newUser: UserId)
    requires !PcOf(After(cfg, run), me).Idle? && Offered(After(cfg, run), me, clt, newUser)
    ensures Step(cfg, After(cfg, run), Exec(me, clt, newUser)) == After(cfg, run) ==>
              exists b :: WaitsFor(After(cfg, run), me, b)
  {
    if Step(cfg, After(cfg, run), Exec(me, clt, newUser)) == After(cfg, run) {
      StuckIsWaiting(cfg, After(cfg, run), me, clt, newUser);
    }
  }
}
