/**
 The account store as one client at a time sees it (internal/storage): the committed tables users,
 collections and collection_colors, private uncommitted inserts, row locks, and one function per SQL
 statement. The tokens table is in module Tokens.

 Statements are atomic and run at READ COMMITTED: each reads the committed tables as they stand
 when it runs, overlaid with the inserts of its own open transaction.
 */
module Database {
  type UserId = nat
  type CltId = nat
  type ClientId = nat
  type Hex = string

  datatype Collection = Collection(owner: UserId, name: string, isDefault: bool)

  /** Rows of users, collections and collection_colors. `colors[c][h]` is the stored color_key. */
  datatype Tables = Tables(
    users: map<UserId, string>,
    collections: map<CltId, Collection>,
    colors: map<CltId, map<Hex, int>>)

  const EMPTY: Tables := Tables(map[], map[], map[])

  function Rows(t: Tables, c: CltId): map<Hex, int> {
    if c in t.colors then t.colors[c] else map[]
  }

  function Owned(cs: map<CltId, Collection>, u: UserId): set<CltId> {
    set c | c in cs && cs[c].owner == u
  }

  /** The committed tables `t` with the inserts `d` of one transaction on top. */
  function Merge(t: Tables, d: Tables): Tables {
    Tables(t.users + d.users, t.collections + d.collections,
           map c | c in t.colors.Keys + d.colors.Keys :: Rows(t, c) + Rows(d, c))
  }

  /** ON DELETE CASCADE from collections to collection_colors. */
  function DropCollections(t: Tables, gone: set<CltId>): Tables {
    Tables(t.users, t.collections - gone, t.colors - gone)
  }

  /** ON DELETE CASCADE from users to collections. */
  function DropUser(t: Tables, u: UserId): Tables {
    DropCollections(t.(users := t.users - {u}), Owned(t.collections, u))
  }

  /** What the generator of an id knows about the collection it was given to. */
  datatype Birth = Birth(owner: UserId, issuer: ClientId, isDefault: bool)

  /**
   Which ids the generators have handed out, to whom, and which collection signup made the default.
   No statement reads this except to keep generated ids distinct.
   */
  datatype History = History(
    clts: map<CltId, Birth>,
    users: map<UserId, ClientId>,
    defaults: map<UserId, CltId>)

  /** The shared database: committed tables, open transactions, row locks. */
  datatype State = State(
    tables: Tables,
    txs: map<ClientId, Tables>,
    cltLocks: map<CltId, ClientId>,
    userLocks: map<UserId, ClientId>,
    history: History)

  datatype Error = NotFound | UserNotFound | DuplicateNickname | DuplicateDefault

  /** A statement waits for a lock, fails, or returns a value and the next database state. */
  datatype Reply<+T> = Waits | Fails(error: Error) | Returns(value: T, db: State)

  function Tx(db: State, me: ClientId): Tables {
    if me in db.txs then db.txs[me] else EMPTY
  }

  // What a statement of `me` reads: the committed rows and those its own transaction inserted.

  function SeenUsers(db: State, me: ClientId): map<UserId, string> {
    db.tables.users + Tx(db, me).users
  }

  function SeenCollections(db: State, me: ClientId): map<CltId, Collection> {
    db.tables.collections + Tx(db, me).collections
  }

  function SeenRows(db: State, me: ClientId, c: CltId): map<Hex, int> {
    Rows(db.tables, c) + Rows(Tx(db, me), c)
  }

  predicate LockedByOther<K>(locks: map<K, ClientId>, k: K, me: ClientId) {
    k in locks && locks[k] != me
  }

  // ---- collection_repo.go ----

  /** SELECT ... FOR UPDATE on a collection the user owns. */
  function LockCollection(db: State, me: ClientId, u: UserId, c: CltId): Reply<()> {
    var seen := SeenCollections(db, me);
    if c !in seen || seen[c].owner != u then Fails(NotFound)
    else if LockedByOther(db.cltLocks, c, me) then Waits
    else Returns((), db.(cltLocks := db.cltLocks[c := me]))
  }

  /** The same SELECT without the lock. */
  function ResolveCollection(db: State, me: ClientId, u: UserId, c: CltId): Reply<()> {
    var seen := SeenCollections(db, me);
    if c !in seen || seen[c].owner != u then Fails(NotFound) else Returns((), db)
  }

  function CollectionById(db: State, me: ClientId, u: UserId, c: CltId): Reply<Collection> {
    var seen := SeenCollections(db, me);
    if c !in seen || seen[c].owner != u then Fails(NotFound)
    else Returns(seen[c], db)
  }

  function CountCollections(db: State, me: ClientId, u: UserId): nat {
    |Owned(SeenCollections(db, me), u)|
  }

  /** INSERT of a collection under the generated id `newId`, inside the transaction of `me`. */
  function CreateCollection(
    db: State, me: ClientId, u: UserId, name: string, isDefault: bool, newId: CltId): Reply<()>
  {
    var seen := SeenCollections(db, me);
    if newId in db.history.clts then Waits // the generator never repeats an id
    else if u !in SeenUsers(db, me) then Fails(UserNotFound)
    else if isDefault && exists c | c in seen :: seen[c].owner == u && seen[c].isDefault
    then Fails(DuplicateDefault)
    else
      var tx := Tx(db, me);
      var row := Collection(u, name, isDefault);
      Returns((), db.(
        txs := db.txs[me := tx.(collections := tx.collections[newId := row])],
        history := db.history.(
          clts := db.history.clts[newId := Birth(u, me, isDefault)],
          defaults := if isDefault then db.history.defaults[u := newId] else db.history.defaults)))
  }

  /** UPDATE of the display name, a statement of its own: it waits for the row lock, then commits. */
  function UpdateCollection(db: State, me: ClientId, u: UserId, c: CltId, name: string): Reply<()> {
    var t := db.tables;
    if c !in t.collections || t.collections[c].owner != u then Fails(NotFound)
    else if LockedByOther(db.cltLocks, c, me) then Waits
    else Returns((), db.(tables := t.(collections := t.collections[c := t.collections[c].(name := name)])))
  }

  /** DELETE with its cascade, a statement of its own. */
  function DeleteCollection(db: State, me: ClientId, u: UserId, c: CltId): Reply<()> {
    var t := db.tables;
    if c !in t.collections || t.collections[c].owner != u then Fails(NotFound)
    else if LockedByOther(db.cltLocks, c, me) then Waits
    else Returns((), db.(tables := DropCollections(t, {c})))
  }

  // ---- color_repo.go ----

  function CountColors(db: State, me: ClientId, c: CltId): nat {
    |SeenRows(db, me, c)|
  }

  predicate HasColor(db: State, me: ClientId, c: CltId, h: Hex) {
    h in SeenRows(db, me, c)
  }

  /** Another transaction has inserted the same primary key and not finished. */
  predicate PendingElsewhere(db: State, me: ClientId, c: CltId, h: Hex) {
    exists you | you in db.txs :: you != me && h in Rows(db.txs[you], c)
  }

  /** INSERT ... ON CONFLICT DO NOTHING. The value tells whether a row went in. */
  function AddColor(db: State, me: ClientId, c: CltId, h: Hex, key: int): Reply<bool> {
    if c !in SeenCollections(db, me) then Fails(NotFound)
    else if h in SeenRows(db, me, c) then Returns(false, db)
    else if PendingElsewhere(db, me, c, h) then Waits
    else
      var tx := Tx(db, me);
      Returns(true, db.(txs := db.txs[me := tx.(colors := tx.colors[c := Rows(tx, c)[h := key]])]))
  }

  function SetRows(t: Tables, c: CltId, rows: map<Hex, int>): Tables {
    if c in t.colors then t.(colors := t.colors[c := rows]) else t
  }

  /** DELETE of one row, a statement of its own. */
  function DeleteColor(db: State, c: CltId, h: Hex): Reply<()> {
    if h !in Rows(db.tables, c) then Fails(NotFound)
    else Returns((), db.(tables := SetRows(db.tables, c, Rows(db.tables, c) - {h})))
  }

  function DeleteAllColors(db: State, c: CltId): Reply<()> {
    Returns((), db.(tables := SetRows(db.tables, c, map[])))
  }

  // ---- user_repo.go ----

  function LockUser(db: State, me: ClientId, u: UserId): Reply<()> {
    if u !in SeenUsers(db, me) then Fails(UserNotFound)
    else if LockedByOther(db.userLocks, u, me) then Waits
    else Returns((), db.(userLocks := db.userLocks[u := me]))
  }

  predicate NicknamePending(db: State, me: ClientId, nickname: string) {
    exists you | you in db.txs :: you != me && nickname in db.txs[you].users.Values
  }

  /** INSERT of a user under the sequence value `newId`, inside the transaction of `me`. */
  function CreateUser(db: State, me: ClientId, nickname: string, newId: UserId): Reply<()> {
    if newId in db.history.users then Waits // the sequence never repeats a value
    else if nickname in SeenUsers(db, me).Values then Fails(DuplicateNickname)
    else if NicknamePending(db, me, nickname) then Waits
    else
      var tx := Tx(db, me);
      Returns((), db.(
        txs := db.txs[me := tx.(users := tx.users[newId := nickname])],
        history := db.history.(users := db.history.users[newId := me])))
  }

  // ---- storage.go: the two ways a transaction ends ----

  function Released<K>(locks: map<K, ClientId>, me: ClientId): map<K, ClientId> {
    map k | k in locks && locks[k] != me :: locks[k]
  }

  function Rollback(db: State, me: ClientId): State {
    db.(txs := db.txs - {me},
        cltLocks := Released(db.cltLocks, me),
        userLocks := Released(db.userLocks, me))
  }

  function Commit(db: State, me: ClientId): State {
    Rollback(db, me).(tables := Merge(db.tables, Tx(db, me)))
  }

  // ---- user_repo.go: DELETE of an account, lock by lock ----

  // The statement takes the user row with LockUser, then its cascade takes the collection rows one at
  // a time, and all rows go when it commits by itself.

  /** The collection rows the cascade has yet to take. */
  function ToTake(db: State, me: ClientId, u: UserId): set<CltId> {
    set c | c in Owned(db.tables.collections, u) && !(c in db.cltLocks && db.cltLocks[c] == me)
  }

  function TakeRow(db: State, me: ClientId, c: CltId): Reply<()> {
    if LockedByOther(db.cltLocks, c, me) then Waits
    else Returns((), db.(cltLocks := db.cltLocks[c := me]))
  }

  function DeleteUser(db: State, me: ClientId, u: UserId): State {
    Rollback(db, me).(tables := DropUser(db.tables, u))
  }
}
