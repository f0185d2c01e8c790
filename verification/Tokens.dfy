/**
 Bearer tokens: login reads the account and inserts the token in two separate statements, accounts
 are deleted (their tokens cascade) and nicknames taken again at any moment in between. The machine
 runs single statements of any number of clients; hashes are opaque keys, and the two clocks, the
 one expiries are written by and the one they are read against, are unrelated.
 */
module Tokens {
  import opened Text

  type UserId = nat
  type Hash = nat
  type ClientId = nat

  /** `passwordHash` as stored; nicknames are normalized and unique. */
  datatype User = User(nickname: string, passwordHash: string)
  datatype Token = Token(user: UserId, expiry: int)

  /**
   How long a token lives, NormalizeNickname, and PasswordMatches: None when the stored hash is
   unusable.
   */
  datatype Config = Config(ttl: int, normalize: string -> Option<string>, matches: (string, string) -> Option<bool>)

  /** `seen` are the ids ever given out; `logins` holds who read an account and has not inserted yet. */
  datatype State = State(
    users: map<UserId, User>,
    tokens: map<Hash, Token>,
    clock: int,
    seen: set<UserId>,
    logins: map<ClientId, UserId>)

  const START := State(map[], map[], 0, {}, map[])

  datatype Event =
    | Signup(id: UserId, user: User)
    | DeleteUser(id: UserId)
    | ReadLogin(client: ClientId, nickname: string, password: string)
    | InsertLogin(client: ClientId, hash: Hash, now: int)
    | Abandon(client: ClientId)
    | Logout(hash: Hash)
    | Tick(seconds: nat)

  // ---- statements ----

  ghost predicate Taken(users: map<UserId, User>, nickname: string) {
    exists id :: id in users && users[id].nickname == nickname
  }

  ghost function ByNickname(users: map<UserId, User>, nickname: string): Option<UserId> {
    if id :| id in users && users[id].nickname == nickname then Some(id) else None
  }

  /** Whose account a login opens, if any. */
  ghost function Credentials(
      cfg: Config, users: map<UserId, User>, nickname: string, password: string): Option<UserId> {
    match cfg.normalize(nickname)
    case None => None
    case Some(normalized) =>
      match ByNickname(users, normalized)
      case None => None
      case Some(id) =>
        if id in users && cfg.matches(users[id].passwordHash, password) == Some(true) then Some(id) else None
  }

  /** The rows left by the cascade from a deleted account. */
  function WithoutUser(tokens: map<Hash, Token>, id: UserId): map<Hash, Token> {
    map h | h in tokens && tokens[h].user != id :: tokens[h]
  }

  /** What a login inserts, if the row fits: the hash is a primary key, the user a foreign key. */
  ghost function Issues(cfg: Config, s: State, e: Event): Option<(Hash, Token)> {
    if e.InsertLogin? && e.client in s.logins && e.hash !in s.tokens && s.logins[e.client] in s.users
    then Some((e.hash, Token(s.logins[e.client], e.now + cfg.ttl)))
    else None
  }

  ghost function Step(cfg: Config, s: State, e: Event): State {
    match e
    case Signup(id, user) =>
      if id in s.seen || Taken(s.users, user.nickname) then s
      else s.(users := s.users[id := user], seen := s.seen + {id})
    case DeleteUser(id) =>
      s.(users := s.users - {id}, tokens := WithoutUser(s.tokens, id))
    case ReadLogin(client, nickname, password) =>
      var found := Credentials(cfg, s.users, nickname, password);
      if client in s.logins || found.None? then s
      else s.(logins := s.logins[client := found.value])
    case InsertLogin(client, hash, now) =>
      var issued := Issues(cfg, s, e);
      s.(logins := s.logins - {client},
         tokens := if issued.Some? then s.tokens[issued.value.0 := issued.value.1] else s.tokens)
    case Abandon(client) => s.(logins := s.logins - {client})
    case Logout(hash) => s.(tokens := s.tokens - {hash})
    case Tick(seconds) => s.(clock := s.clock + seconds)
  }

  ghost function After(cfg: Config, run: seq<Event>): State {
    if run == [] then START else Step(cfg, After(cfg, run[..|run| - 1]), run[|run| - 1])
  }

  /** UserIDForTokenHash: no join with users. */
  function Resolve(s: State, h: Hash): Option<UserId> {
    if h in s.tokens && s.tokens[h].expiry > s.clock then Some(s.tokens[h].user) else None
  }

  // ---- histories ----

  /** The i-th event of the run put the row (h, t) in. */
  ghost predicate IssuedAt(cfg: Config, run: seq<Event>, i: nat, h: Hash, t: Token) {
    i < |run| && Issues(cfg, After(cfg, run[..i]), run[i]) == Some((h, t))
  }

  /** Since the i-th event nobody has logged out with h and the account u has not been deleted. */
  ghost predicate KeptSince(run: seq<Event>, i: nat, h: Hash, u: UserId) {
    forall j | i < j < |run| :: run[j] != Logout(h) && run[j] != DeleteUser(u)
  }

  lemma {:induction false} AfterNext(cfg: Config, run: seq<Event>, e: Event)
    ensures After(cfg, run + [e]) == Step(cfg, After(cfg, run), e)
  {
    assert (run + [e])[..|run|] == run;
  }

  // ---- invariants ----

  ghost predicate Inv(s: State) {
    && s.users.Keys <= s.seen
    && (forall c | c in s.logins :: s.logins[c] in s.seen)
    && (forall h | h in s.tokens :: s.tokens[h].user in s.users)
    && (forall a, b | a in s.users && b in s.users && s.users[a].nickname == s.users[b].nickname :: a == b)
  }

  lemma {:induction false} StepKeepsInv(cfg: Config, s: State, e: Event)
    requires Inv(s)
    ensures Inv(Step(cfg, s, e))
  {
    var s' := Step(cfg, s, e);
    if e.Signup? {
      assert forall a | a in s.users && a != e.id :: s'.users[a] == s.users[a];
    }
  }

  /** Every token row has a live user, nicknames are unique, and no id is given out twice. */
  lemma {:induction false} Reachable(cfg: Config, run: seq<Event>)
    ensures Inv(After(cfg, run))
  {
    if run != [] {
      Reachable(cfg, run[..|run| - 1]);
      StepKeepsInv(cfg, After(cfg, run[..|run| - 1]), run[|run| - 1]);
    }
  }

  // ---- what a login is let in by ----

  /** `u` has an account under the nickname typed, once normalized, and the password typed is its own. */
  ghost predicate Opens(cfg: Config, users: map<UserId, User>, nickname: string, password: string, u: UserId) {
    && u in users
    && cfg.normalize(nickname) == Some(users[u].nickname)
    && cfg.matches(users[u].passwordHash, password) == Some(true)
  }

  /** Nicknames being unique, a login reads the one account that nickname and password open, if there is one. */
  lemma {:induction false} CredentialsOpen(cfg: Config, s: State, nickname: string, password: string)
    requires Inv(s)
    ensures var found := Credentials(cfg, s.users, nickname, password);
            && (found.None? <==> !exists u: UserId :: Opens(cfg, s.users, nickname, password, u))
            && (forall u: UserId :: Opens(cfg, s.users, nickname, password, u) <==> found == Some(u))
  {
    forall u | Opens(cfg, s.users, nickname, password, u)
      ensures Credentials(cfg, s.users, nickname, password) == Some(u)
    {
      assert Taken(s.users, s.users[u].nickname);
      assert ByNickname(s.users, s.users[u].nickname) == Some(u);
    }
    var found := Credentials(cfg, s.users, nickname, password);
    if found.Some? { assert Opens(cfg, s.users, nickname, password, found.value); }
  }

  /**
   The read of a login, after any run: the client gets on to its insert if and only if nickname and
   password open an account, and then it is for that account.
   */
  lemma {:induction false} LoginReads(cfg: Config, run: seq<Event>, c: ClientId, nickname: string, password: string)
    requires c !in After(cfg, run).logins
    ensures var s := After(cfg, run);
            var s' := After(cfg, run + [ReadLogin(c, nickname, password)]);
            && s' == s.(logins := s'.logins)
            && (c in s'.logins <==> exists u: UserId :: Opens(cfg, s.users, nickname, password, u))
            && (c in s'.logins ==> Opens(cfg, s.users, nickname, password, s'.logins[c]))
            && (forall d: ClientId | d != c :: (d in s'.logins <==> d in s.logins))
  {
    Reachable(cfg, run);
    CredentialsOpen(cfg, After(cfg, run), nickname, password);
    AfterNext(cfg, run, ReadLogin(c, nickname, password));
  }

  /**
   The insert of a login, after any run: with a hash nobody has and the account still there the hash
   resolves to it for as long as the expiry is ahead of the clock; otherwise no token changes.
   */
  lemma {:induction false} LoginIssues(cfg: Config, run: seq<Event>, c: ClientId, h: Hash, now: int)
    requires c in After(cfg, run).logins
    ensures var s := After(cfg, run);
            var s' := After(cfg, run + [InsertLogin(c, h, now)]);
            && c !in s'.logins && s'.users == s.users
            && (forall g: Hash | g != h :: Resolve(s', g) == Resolve(s, g))
            && (h !in s.tokens && s.logins[c] in s.users ==>
                  Resolve(s', h) == if now + cfg.ttl > s.clock then Some(s.logins[c]) else None)
            && (h in s.tokens || s.logins[c] !in s.users ==> s'.tokens == s.tokens)
  {
    AfterNext(cfg, run, InsertLogin(c, h, now));
  }

  // ---- what a row of the tokens table means ----

  lemma {:induction false} IssuedGoesOn(cfg: Config, run: seq<Event>, e: Event, i: nat, h: Hash, t: Token)
    requires i < |run|
    ensures IssuedAt(cfg, run + [e], i, h, t) == IssuedAt(cfg, run, i, h, t)
  {
    assert (run + [e])[..i] == run[..i];
  }

  /** One step changes the row of h exactly as the history does. */
  lemma {:induction false} StepOnRow(cfg: Config, s: State, e: Event, h: Hash, t: Token)
    ensures var s' := Step(cfg, s, e);
            h in s'.tokens && s'.tokens[h] == t <==>
              || Issues(cfg, s, e) == Some((h, t))
              || (h in s.tokens && s.tokens[h] == t && e != Logout(h) && e != DeleteUser(t.user))
  {}

  /** A row is there if and only if it was issued, and neither revoked nor its account deleted since. */
  lemma {:induction false} RowsAreHistory(cfg: Config, run: seq<Event>, h: Hash, t: Token)
    ensures var s := After(cfg, run);
            h in s.tokens && s.tokens[h] == t <==>
              exists i: nat :: IssuedAt(cfg, run, i, h, t) && KeptSince(run, i, h, t.user)
  {
    if run != [] {
      var init, e := run[..|run| - 1], run[|run| - 1];
      assert run == init + [e];
      RowsAreHistory(cfg, init, h, t);
      StepOnRow(cfg, After(cfg, init), e, h, t);
      forall i: nat | i < |init|
        ensures IssuedAt(cfg, run, i, h, t) == IssuedAt(cfg, init, i, h, t)
        ensures KeptSince(run, i, h, t.user)
             == (KeptSince(init, i, h, t.user) && e != Logout(h) && e != DeleteUser(t.user))
      {
        IssuedGoesOn(cfg, init, e, i, h, t);
        KeptGoesOn(init, e, i, h, t.user);
      }
      assert IssuedAt(cfg, run, |init|, h, t) == (Issues(cfg, After(cfg, init), e) == Some((h, t)));
      assert KeptSince(run, |init|, h, t.user);
    }
  }

  lemma {:induction false} KeptGoesOn(run: seq<Event>, e: Event, i: nat, h: Hash, u: UserId)
    requires i < |run|
    ensures KeptSince(run + [e], i, h, u) == (KeptSince(run, i, h, u) && e != Logout(h) && e != DeleteUser(u))
  {
    var next := run + [e];
    if KeptSince(next, i, h, u) {
      assert next[|run|] == e;
      forall j | i < j < |run| ensures run[j] != Logout(h) && run[j] != DeleteUser(u) {
        assert next[j] == run[j];
      }
    }
  }

  /**
   A hash resolves to u if and only if it was issued to u with an expiry still ahead, was not revoked
   and u's account was not deleted since; and then u has a live account.
   */
  lemma {:induction false} TokenResolves(cfg: Config, run: seq<Event>, h: Hash, u: UserId)
    ensures Resolve(After(cfg, run), h) == Some(u) <==>
              exists i: nat, expiry: int ::
                && IssuedAt(cfg, run, i, h, Token(u, expiry))
                && KeptSince(run, i, h, u)
                && expiry > After(cfg, run).clock
    ensures Resolve(After(cfg, run), h) == Some(u) ==> u in After(cfg, run).users
  {
    var s := After(cfg, run);
    Reachable(cfg, run);
    if Resolve(s, h) == Some(u) {
      RowsAreHistory(cfg, run, h, s.tokens[h]);
      var i: nat :| IssuedAt(cfg, run, i, h, s.tokens[h]) && KeptSince(run, i, h, u);
      assert s.tokens[h] == Token(u, s.tokens[h].expiry);
    }
    forall i: nat, expiry: int |
        IssuedAt(cfg, run, i, h, Token(u, expiry)) && KeptSince(run, i, h, u) && expiry > s.clock
      ensures Resolve(s, h) == Some(u)
    {
      RowsAreHistory(cfg, run, h, Token(u, expiry));
    }
  }

  // ---- who a token is issued to ----

  /** The j-th event read the account u by its nickname and the right password, on behalf of c. */
  ghost predicate ProvedAt(cfg: Config, run: seq<Event>, j: nat, c: ClientId, u: UserId) {
    && j < |run| && run[j].ReadLogin? && run[j].client == c
    && Opens(cfg, After(cfg, run[..j]).users, run[j].nickname, run[j].password, u)
  }

  lemma {:induction false} LoginProved(cfg: Config, run: seq<Event>, c: ClientId)
    requires c in After(cfg, run).logins
    ensures exists j: nat :: ProvedAt(cfg, run, j, c, After(cfg, run).logins[c])
  {
    var init, e := run[..|run| - 1], run[|run| - 1];
    var u := After(cfg, run).logins[c];
    if c in After(cfg, init).logins {
      LoginProved(cfg, init, c);
      var j: nat :| ProvedAt(cfg, init, j, c, u);
      assert run[..j] == init[..j];
      assert ProvedAt(cfg, run, j, c, u);
    } else {
      assert ProvedAt(cfg, run, |init|, c, u);
    }
  }

  /** A token resolves to u only if its holder once named u and gave the password of u. */
  lemma {:induction false} TokenWasEarned(cfg: Config, run: seq<Event>, h: Hash, u: UserId)
    requires Resolve(After(cfg, run), h) == Some(u)
    ensures exists j: nat, i: nat ::
              && j < i < |run| && run[i].InsertLogin? && run[i].hash == h
              && ProvedAt(cfg, run, j, run[i].client, u)
  {
    var t := After(cfg, run).tokens[h];
    RowsAreHistory(cfg, run, h, t);
    var i: nat :| IssuedAt(cfg, run, i, h, t) && KeptSince(run, i, h, t.user);
    assert i < |run| && run[i].InsertLogin?;
    var c := run[i].client;
    LoginProved(cfg, run[..i], c);
    var j: nat :| ProvedAt(cfg, run[..i], j, c, u);
    assert run[..i][..j] == run[..j];
    assert ProvedAt(cfg, run, j, c, u);
  }

  // ---- accounts deleted and nicknames taken again ----

  lemma {:induction false} SeenStays(cfg: Config, run: seq<Event>, later: seq<Event>, u: UserId)
    requires u in After(cfg, run).seen && u !in After(cfg, run).users
    ensures u in After(cfg, run + later).seen && u !in After(cfg, run + later).users
  {
    if later == [] {
      assert run + later == run;
    } else {
      var init, e := later[..|later| - 1], later[|later| - 1];
      assert run + later == (run + init) + [e];
      SeenStays(cfg, run, init, u);
      AfterNext(cfg, run + init, e);
    }
  }

  /**
   Once an account is gone no run brings it back: no hash resolves to it again, not even the one of a
   login that had read the account before, whoever signs up under the nickname afterwards.
   */
  lemma {:induction false} DeletedNeverResolves(cfg: Config, run: seq<Event>, u: UserId, later: seq<Event>, h: Hash)
    requires u in After(cfg, run).users
    ensures var gone := run + [DeleteUser(u)] + later;
            u !in After(cfg, gone).users && Resolve(After(cfg, gone), h) != Some(u)
  {
    var gone := run + [DeleteUser(u)];
    AfterNext(cfg, run, DeleteUser(u));
    Reachable(cfg, run);
    SeenStays(cfg, gone, later, u);
    TokenResolves(cfg, gone + later, h, u);
  }

  // ---- the services ----

  datatype LoginAnswer = LoggedIn(token: Token) | InvalidCredentials | UserNotFound | HashTaken

  /** The tables, the services over them, and the run of the machine they amount to. */
  class Auth {
    const cfg: Config
    var users: map<UserId, User>
    var tokens: map<Hash, Token>
    var clock: int
    var seen: set<UserId>
    ghost var run: seq<Event>

    ghost predicate Valid()
      reads this
    {
      var s := After(cfg, run);
      users == s.users && tokens == s.tokens && clock == s.clock && seen == s.seen
    }

    ghost predicate Busy(me: ClientId)
      reads this
    {
      me in After(cfg, run).logins
    }

    constructor (cfg: Config)
      ensures Valid() && this.cfg == cfg && run == []
    {
      this.cfg := cfg;
      users, tokens, clock, seen, run := map[], map[], 0, {}, [];
    }

    /** What other clients do between two statements of this one. */
    method Others(me: ClientId)
      requires Valid()
      modifies this
      ensures Valid() && old(run) <= run
      ensures Busy(me) == old(Busy(me))
      ensures Busy(me) ==> After(cfg, run).logins[me] == old(After(cfg, run).logins[me])
    {
    }

    ghost method Record(e: Event)
      requires var s := Step(cfg, After(cfg, run), e);
               users == s.users && tokens == s.tokens && clock == s.clock && seen == s.seen
      modifies this`run
      ensures Valid() && run == old(run) + [e] && After(cfg, run) == Step(cfg, After(cfg, old(run)), e)
    {
      AfterNext(cfg, run, e);
      run := run + [e];
    }

    method UserByNickname(nickname: string) returns (found: Option<UserId>)
      requires Valid()
      ensures found == ByNickname(users, nickname)
    {
      Reachable(cfg, run);
      found := None;
      var rest := users.Keys;
      while rest != {}
        invariant rest <= users.Keys
        invariant forall id | id in users && users[id].nickname == nickname :: id in rest
      {
        var id :| id in rest;
        if users[id].nickname == nickname { return Some(id); }
        rest := rest - {id};
      }
    }

    method UserIDForTokenHash(h: Hash) returns (owner: Option<UserId>)
      requires Valid()
      ensures owner == Resolve(After(cfg, run), h)
    {
      if h in tokens && tokens[h].expiry > clock { return Some(tokens[h].user); }
      return None;
    }

    method InsertToken(me: ClientId, h: Hash, t: Token, ghost now: int) returns (answer: LoginAnswer)
      requires Valid() && Busy(me)
      requires t == Token(After(cfg, run).logins[me], now + cfg.ttl)
      modifies this
      ensures Valid() && run == old(run) + [InsertLogin(me, h, now)]
      ensures answer == if h in old(tokens) then HashTaken
                        else if t.user !in old(users) then UserNotFound
                        else LoggedIn(t)
      ensures tokens == if answer.LoggedIn? then old(tokens)[h := t] else old(tokens)
      ensures !Busy(me) && users == old(users)
    {
      if h in tokens {
        answer := HashTaken;
      } else if t.user !in users {
        answer := UserNotFound;
      } else {
        answer := LoggedIn(t);
        tokens := tokens[h := t];
      }
      Record(InsertLogin(me, h, now));
    }

    /** The read of Login: the account nickname and password open, None when they open none. */
    method ReadAccount(me: ClientId, nickname: string, password: string) returns (found: Option<UserId>)
      requires Valid() && !Busy(me)
      modifies this
      ensures Valid() && run == old(run) + [ReadLogin(me, nickname, password)]
      ensures users == old(users) && tokens == old(tokens)
      ensures found.None? <==> !exists u: UserId :: Opens(cfg, users, nickname, password, u)
      ensures found.Some? ==> Opens(cfg, users, nickname, password, found.value)
      ensures if found.Some? then Busy(me) && After(cfg, run).logins[me] == found.value else !Busy(me)
    {
      ghost var read := ReadLogin(me, nickname, password);
      Reachable(cfg, run);
      CredentialsOpen(cfg, After(cfg, run), nickname, password);
      var normalized := cfg.normalize(nickname);
      if normalized.None? {
        Record(read);
        return None;
      }
      found := UserByNickname(normalized.value);
      if found.None? || found.value !in users {
        Record(read);
        return None;
      }
      var matches := cfg.matches(users[found.value].passwordHash, password);
      if matches != Some(true) { found := None; }
      Record(read);
    }

    /**
     Login. It lets in exactly those whose nickname, once normalized, and password open an account; the
     token is stored for that account, unless the account is deleted or the hash taken before the insert.
     */
    method Login(me: ClientId, nickname: string, password: string, h: Hash, now: int) returns (answer: LoginAnswer)
      requires Valid() && !Busy(me)
      modifies this
      ensures Valid() && !Busy(me) && old(run) <= run
      ensures answer.InvalidCredentials? <==> !exists u: UserId :: Opens(cfg, old(users), nickname, password, u)
      ensures answer.LoggedIn? ==>
                && Opens(cfg, old(users), nickname, password, answer.token.user) && answer.token.user in users
                && answer.token.expiry == now + cfg.ttl
                && h in tokens && tokens[h] == answer.token
      ensures answer.HashTaken? ==> h in tokens
      ensures answer.UserNotFound? ==> exists u: UserId :: Opens(cfg, old(users), nickname, password, u) && u !in users
      ensures answer.InvalidCredentials? ==> users == old(users) && tokens == old(tokens)
    {
      var found := ReadAccount(me, nickname, password);
      if found.None? { return InvalidCredentials; }
      assert Opens(cfg, old(users), nickname, password, found.value);
      Others(me);
      var token := Token(found.value, now + cfg.ttl);
      answer := InsertToken(me, h, token, now);
    }

    /** Logout: not found is success. */
    method Revoke(h: Hash)
      requires Valid()
      modifies this
      ensures Valid() && run == old(run) + [Logout(h)]
      ensures tokens == old(tokens) - {h} && users == old(users) && clock == old(clock)
      ensures Resolve(After(cfg, run), h).None?
    {
      tokens := tokens - {h};
      Record(Logout(h));
    }

    method Delete(id: UserId) returns (found: bool)
      requires Valid()
      modifies this
      ensures Valid() && run == old(run) + [DeleteUser(id)]
      ensures found == (id in old(users)) && users == old(users) - {id}
      ensures tokens == WithoutUser(old(tokens), id)
      ensures !found ==> tokens == old(tokens)
    {
      Reachable(cfg, run);
      assert id !in users ==> WithoutUser(tokens, id) == tokens;
      found := id in users;
      users := users - {id};
      tokens := WithoutUser(tokens, id);
      Record(DeleteUser(id));
    }
  }
}
