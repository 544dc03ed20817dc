/** What every run of the account handlers keeps: the last administrator, the owners of sessions and API
    keys, and unambiguous names. */
module AccountSafety {
  import opened Text
  import opened Accounts

  datatype Op =
    | SetupOp(username: string, email: string, password: string)
    | RegisterOp(digest: string, username: string, email: string, password: string, now: int)
    | CreateOp(username: string, email: string, password: string, role: Role)
    | LoginOp(digest: string, account: string, password: string, now: int)
    | PasskeyOp(digest: string, id: nat, verified: bool, now: int)
    | AdminKeyOp(digest: string, key: string, given: string, now: int)
    | LogoutOp(digest: string)
    | AuthenticateOp(digest: string, now: int)
    | RoleOp(id: nat, role: Role)
    | StatusOp(actor: nat, id: nat, status: Status)
    | PasswordOp(id: nat, password: string)
    | DeleteOp(actor: nat, id: nat)
    | ResetByEmailOp(email: string, password: string)
    | TokenOp(digest: string, key: string, now: int)

  function Step(db: Db, op: Op): Db {
    match op
    case SetupOp(username, email, password) => Setup(db, username, email, password).db
    case RegisterOp(digest, username, email, password, now) =>
      Register(db, digest, username, email, password, now).db
    case CreateOp(username, email, password, role) => Create(db, username, email, password, role).db
    case LoginOp(digest, account, password, now) => Login(db, digest, account, password, now).db
    case PasskeyOp(digest, id, verified, now) => PasskeyLogin(db, digest, id, verified, now).db
    case AdminKeyOp(digest, key, given, now) => AdminKey(db, digest, key, given, now).db
    case LogoutOp(digest) => Logout(db, digest).db
    case AuthenticateOp(digest, now) => Authenticate(db, digest, now)
    case RoleOp(id, role) => UpdateRole(db, id, role).db
    case StatusOp(actor, id, status) => UpdateStatus(db, actor, id, status).db
    case PasswordOp(id, password) => ResetPassword(db, id, password).db
    case DeleteOp(actor, id) => Delete(db, actor, id).db
    case ResetByEmailOp(email, password) => ResetByEmail(db, email, password).db
    case TokenOp(digest, key, now) => CreateToken(db, digest, key, now).db
  }

  function After(db: Db, ops: seq<Op>): Db {
    if ops == [] then db else Step(After(db, Init(ops)), Last(ops))
  }

  lemma AfterSnoc(db: Db, ops: seq<Op>, op: Op)
    ensures After(db, ops + [op]) == Step(After(db, ops), op)
  {
    assert Init(ops + [op]) == ops;
  }

  lemma AfterTwo(db: Db, a: Op, b: Op)
    ensures After(db, [a, b]) == Step(Step(db, a), b)
  {
    AfterSnoc(db, [], a);
    AfterSnoc(db, [a], b);
    assert [] + [a] == [a] && [a] + [b] == [a, b];
  }

  /** The first account, made with the bootstrap key. */
  lemma FirstAccount(name: string, email: string, password: string)
    requires ValidUsername(TrimSpace(name)) && NormalizeEmail(email) != "" && ValidPassword(password)
    ensures Step(EMPTY, CreateOp(name, email, password, Member)) ==
            Db(map[1 := User(TrimSpace(name), NormalizeEmail(email), password, Member, Active)], 1, map[], map[])
  {
    assert !Registered(EMPTY.users, TrimSpace(name), NormalizeEmail(email));
  }

  /* ---------------------------------------------------------------- effects */

  /** What a step does to the tables. */
  datatype Effect =
    | Nothing
    | Added(u: User)
    | AddedAndStarted(u: User, digest: string, now: int)
    | Started(digest: string, id: nat, now: int)
    | Closed(digest: string)
    | Changed(id: nat, u: User, revoke: bool)
    | Deleted(id: nat)
    | Keyed(key: string, id: nat)

  function Apply(db: Db, e: Effect): Db {
    match e
    case Nothing => db
    case Added(u) => AddUser(db, u)
    case AddedAndStarted(u, digest, now) => Start(AddUser(db, u), digest, db.lastId + 1, now)
    case Started(digest, id, now) => Start(db, digest, id, now)
    case Closed(digest) => db.(sessions := db.sessions - {digest})
    case Changed(id, u, revoke) => if revoke then Revoke(SetUser(db, id, u), id) else SetUser(db, id, u)
    case Deleted(id) =>
      db.(users := db.users - {id}, sessions := Without(db.sessions, id),
          tokens := map k | k in db.tokens && db.tokens[k] != id :: db.tokens[k])
    case Keyed(key, id) => db.(tokens := db.tokens[key := id])
  }

  predicate Newcomer(u: User) {
    u.status == Active && ValidUsername(u.username) && Lower(u.email) == u.email && '@' in u.email
  }

  predicate ActiveUser(db: Db, id: nat) {
    id in db.users && db.users[id].status == Active
  }

  /** The guard under which each effect happens. */
  predicate Guarded(db: Db, e: Effect) {
    match e
    case Nothing => true
    case Added(u) => Newcomer(u)
    case AddedAndStarted(u, _, _) => Newcomer(u)
    case Started(_, id, _) => id == 0 || ActiveUser(db, id)
    case Closed(_) => true
    case Changed(id, u, revoke) =>
      && id in db.users
      && u.username == db.users[id].username && u.email == db.users[id].email
      && (u.password != db.users[id].password || (u.status != Active && db.users[id].status == Active) ==> revoke)
      && (ActiveAdmin(db.users, id) ==> (u.role == Admin && u.status == Active) || OtherActiveAdmin(db.users, id))
    case Deleted(id) => ActiveAdmin(db.users, id) ==> OtherActiveAdmin(db.users, id)
    case Keyed(key, id) => key !in db.tokens && id in db.users
  }

  /** Which steps have which effects. */
  predicate Possible(db: Db, op: Op, e: Effect) {
    && (e.Added? ==> op.SetupOp? || (op.CreateOp? && !Registered(db.users, e.u.username, e.u.email)))
    && (e.AddedAndStarted? ==>
          && op.RegisterOp? && e.digest == op.digest
          && !Registered(db.users, e.u.username, e.u.email) && HasAdmin(db.users))
    && (e.Started? ==> (op.LoginOp? || op.PasskeyOp? || op.AdminKeyOp?) && e.digest == op.digest)
    && (e.Changed? ==> e.id in db.users && e.u.role == if op.RoleOp? then op.role else db.users[e.id].role)
    && (e.Changed? && e.u.password != db.users[e.id].password ==>
          op.ResetByEmailOp? || (op.PasswordOp? && e.id == op.id))
    && (op.RoleOp? && e.Changed? ==> e.id == op.id && op.id != 0 && e.u.status == db.users[e.id].status)
    && (op.SetupOp? ==>
          e == if Setup(db, op.username, op.email, op.password).code == 201
               then Added(User(op.username, NormalizeEmail(op.email), op.password, Admin, Active)) else Nothing)
    && (op.RoleOp? && op.id != 0 && op.id in db.users && op.role == Admin && !HasAdmin(db.users) ==>
          e == Changed(op.id, db.users[op.id].(role := Admin), false))
  }

  lemma NormalizedEmail(raw: string)
    requires NormalizeEmail(raw) != ""
    ensures Lower(NormalizeEmail(raw)) == NormalizeEmail(raw) && '@' in NormalizeEmail(raw)
  {
  }

  lemma SetupEffect(db: Db, op: Op) returns (e: Effect)
    requires op.SetupOp?
    ensures Step(db, op) == Apply(db, e) && Guarded(db, e) && Possible(db, op, e)
  {
    e := Nothing;
    if Setup(db, op.username, op.email, op.password).code == 201 {
      NormalizedEmail(op.email);
      e := Added(User(op.username, NormalizeEmail(op.email), op.password, Admin, Active));
    }
  }

  lemma RegisterEffect(db: Db, op: Op) returns (e: Effect)
    requires op.RegisterOp?
    ensures Step(db, op) == Apply(db, e) && Guarded(db, e) && Possible(db, op, e)
  {
    e := Nothing;
    if Register(db, op.digest, op.username, op.email, op.password, op.now).code in {201, 500} {
      NormalizedEmail(op.email);
      var u := User(TrimSpace(op.username), NormalizeEmail(op.email), op.password, Member, Active);
      e := AddedAndStarted(u, op.digest, op.now);
    }
  }

  lemma CreateEffect(db: Db, op: Op) returns (e: Effect)
    requires op.CreateOp?
    ensures Step(db, op) == Apply(db, e) && Guarded(db, e) && Possible(db, op, e)
  {
    e := Nothing;
    if Create(db, op.username, op.email, op.password, op.role).code == 201 {
      NormalizedEmail(op.email);
      e := Added(User(TrimSpace(op.username), NormalizeEmail(op.email), op.password, op.role, Active));
    }
  }

  lemma SessionEffect(db: Db, op: Op) returns (e: Effect)
    requires op.LoginOp? || op.PasskeyOp? || op.AdminKeyOp? || op.LogoutOp? || op.AuthenticateOp? || op.TokenOp?
    ensures Step(db, op) == Apply(db, e) && Guarded(db, e) && Possible(db, op, e)
  {
    e := Nothing;
    match op {
      case LoginOp(digest, account, password, now) =>
        if Login(db, digest, account, password, now).code == 200 {
          e := Started(digest, First(db, ByAccount(TrimSpace(account))).value, now);
        }
      case PasskeyOp(digest, id, verified, now) =>
        if PasskeyLogin(db, digest, id, verified, now).code == 200 {
          e := Started(digest, id, now);
        }
      case AdminKeyOp(digest, key, given, now) =>
        if AdminKey(db, digest, key, given, now).code == 200 {
          e := Started(digest, 0, now);
        }
      case LogoutOp(digest) =>
        e := Closed(digest);
      case AuthenticateOp(digest, now) =>
        if Authenticate(db, digest, now) != db {
          e := Closed(digest);
        }
      case TokenOp(digest, key, now) =>
        if CreateToken(db, digest, key, now).code == 201 {
          e := Keyed(key, Caller(db, digest, now).value);
        } else if Authenticate(db, digest, now) != db {
          e := Closed(digest);
        }
    }
  }

  lemma AdminEffect(db: Db, op: Op) returns (e: Effect)
    requires op.RoleOp? || op.StatusOp? || op.PasswordOp? || op.DeleteOp? || op.ResetByEmailOp?
    ensures Step(db, op) == Apply(db, e) && Guarded(db, e) && Possible(db, op, e)
  {
    e := Nothing;
    match op {
      case RoleOp(id, role) =>
        if Step(db, op) != db {
          e := Changed(id, db.users[id].(role := role), false);
        }
      case StatusOp(actor, id, status) =>
        if UpdateStatus(db, actor, id, status).code == 200 {
          e := Changed(id, db.users[id].(status := status), status == Disabled);
        }
      case PasswordOp(id, password) =>
        if ResetPassword(db, id, password).code == 200 {
          e := Changed(id, db.users[id].(password := password), true);
        }
      case DeleteOp(actor, id) =>
        if Delete(db, actor, id).code == 200 {
          e := Deleted(id);
        }
      case ResetByEmailOp(email, password) =>
        if ResetByEmail(db, email, password).code == 200 {
          var id := First(db, ByEmail(email)).value;
          e := Changed(id, db.users[id].(password := password), true);
        }
    }
  }

  /** Every handler has one of eight effects, each under its guard. */
  lemma EffectOf(db: Db, op: Op) returns (e: Effect)
    ensures Step(db, op) == Apply(db, e) && Guarded(db, e) && Possible(db, op, e)
  {
    if op.SetupOp? {
      e := SetupEffect(db, op);
    } else if op.RegisterOp? {
      e := RegisterEffect(db, op);
    } else if op.CreateOp? {
      e := CreateEffect(db, op);
    } else if op.RoleOp? || op.StatusOp? || op.PasswordOp? || op.DeleteOp? || op.ResetByEmailOp? {
      e := AdminEffect(db, op);
    } else {
      e := SessionEffect(db, op);
    }
  }

  /* ---------------------------------------------------------------- the last administrator */

  predicate HasActiveAdmin(db: Db) {
    exists id :: id in db.users && ActiveAdmin(db.users, id)
  }

  /** Row ids are positive and handed out in order. */
  predicate RowIds(db: Db) {
    forall id :: id in db.users ==> 0 < id <= db.lastId
  }

  lemma StepKeepsRowIds(db: Db, op: Op)
    requires RowIds(db)
    ensures RowIds(Step(db, op)) && db.lastId <= Step(db, op).lastId
  {
    var _ := EffectOf(db, op);
  }

  /** A guarded effect leaves every active administrator, or another one. */
  lemma EffectKeepsAdmin(db: Db, e: Effect)
    requires RowIds(db) && HasActiveAdmin(db) && Guarded(db, e)
    ensures HasActiveAdmin(Apply(db, e))
  {
    var id :| id in db.users && ActiveAdmin(db.users, id);
    var db' := Apply(db, e);
    if !(id in db'.users && ActiveAdmin(db'.users, id)) {
      assert OtherActiveAdmin(db.users, id);
      var other :| other in db.users && ActiveAdmin(db.users, other) && other != id;
      assert other in db'.users && ActiveAdmin(db'.users, other);
    }
  }

  lemma StepKeepsAdmin(db: Db, op: Op)
    requires RowIds(db) && HasActiveAdmin(db)
    ensures HasActiveAdmin(Step(db, op))
  {
    var e := EffectOf(db, op);
    EffectKeepsAdmin(db, e);
  }

  /** Once an active administrator exists, one exists forever. */
  lemma {:induction false} AdminForever(db: Db, ops: seq<Op>)
    requires RowIds(db) && HasActiveAdmin(db)
    ensures RowIds(After(db, ops)) && HasActiveAdmin(After(db, ops))
  {
    if ops != [] {
      AdminForever(db, Init(ops));
      StepKeepsRowIds(After(db, Init(ops)), Last(ops));
      StepKeepsAdmin(After(db, Init(ops)), Last(ops));
    }
  }

  /** Setup cannot be replayed, whatever happens after it succeeded. */
  lemma SetupOnce(db: Db, username: string, email: string, password: string, ops: seq<Op>,
                  username': string, email': string, password': string)
    requires RowIds(db) && Setup(db, username, email, password).code == 201
    ensures Setup(After(Setup(db, username, email, password).db, ops), username', email', password').code == 409
  {
    var done := Setup(db, username, email, password).db;
    assert ActiveAdmin(done.users, done.lastId);
    AdminForever(done, ops);
  }

  predicate SetupIsMeaningful(db: Db) {
    HasAdmin(db.users) ==> HasActiveAdmin(db)
  }

  /** The step makes the first administrator out of a disabled account. */
  predicate PromotesDisabled(db: Db, op: Op) {
    && op.RoleOp? && op.role == Admin && op.id != 0 && op.id in db.users && db.users[op.id].status == Disabled
    && !HasAdmin(db.users)
  }

  /** Setup closes as soon as there is an administrator, active or not. A step leaves it closed without an
      active administrator exactly when it makes the first administrator out of a disabled account. */
  lemma ClosedSetupHasAdminExactly(db: Db, op: Op)
    requires RowIds(db) && SetupIsMeaningful(db)
    ensures SetupIsMeaningful(Step(db, op)) <==> !PromotesDisabled(db, op)
  {
    if HasAdmin(db.users) {
      StepKeepsAdmin(db, op);
    } else {
      var e := EffectOf(db, op);
      FirstAdmin(db, op, e);
    }
  }

  /** An account made with the bootstrap key, disabled and then promoted closes setup with nobody active. */
  lemma SetupCanCloseWithoutAdmin(name: string, email: string, password: string)
    requires ValidUsername(TrimSpace(name)) && NormalizeEmail(email) != "" && ValidPassword(password)
    ensures var ops := [CreateOp(name, email, password, Member), StatusOp(0, 1, Disabled), RoleOp(1, Admin)];
            HasAdmin(After(EMPTY, ops).users) && !HasActiveAdmin(After(EMPTY, ops))
  {
    var create, disable, promote := CreateOp(name, email, password, Member), StatusOp(0, 1, Disabled), RoleOp(1, Admin);
    AfterTwo(EMPTY, create, disable);
    AfterSnoc(EMPTY, [create, disable], promote);
    assert [create, disable] + [promote] == [create, disable, promote];
    FirstAccount(name, email, password);
    LoneAccountPromoted(Step(EMPTY, create));
  }

  lemma LoneAccountPromoted(db: Db)
    requires db.users.Keys == {1} && db.users[1].role == Member
    ensures var db' := Step(Step(db, StatusOp(0, 1, Disabled)), RoleOp(1, Admin));
            HasAdmin(db'.users) && !HasActiveAdmin(db')
  {
    var db' := Step(Step(db, StatusOp(0, 1, Disabled)), RoleOp(1, Admin));
    assert db'.users[1].role == Admin;
  }

  lemma FirstAdmin(db: Db, op: Op, e: Effect)
    requires RowIds(db) && !HasAdmin(db.users) && Guarded(db, e) && Possible(db, op, e)
    ensures SetupIsMeaningful(Apply(db, e)) <==> !PromotesDisabled(db, op)
  {
    var db' := Apply(db, e);
    if PromotesDisabled(db, op) {
      assert db'.users[op.id].role == Admin;
      assert forall id :: id in db'.users && id != op.id ==> db'.users[id].role != Admin;
    } else if HasAdmin(db'.users) {
      var id :| id in db'.users && db'.users[id].role == Admin;
      assert ActiveAdmin(db'.users, id);
    }
  }

  /* ---------------------------------------------------------------- sessions and keys */

  /** Sessions belong to the virtual administrator or to existing active accounts, and API keys to existing
      accounts. */
  predicate Owned(db: Db) {
    && (forall d :: d in db.sessions ==> SessionOwned(db, d))
    && (forall k :: k in db.tokens ==> db.tokens[k] in db.users)
  }

  predicate SessionOwned(db: Db, d: string)
    requires d in db.sessions
  {
    var id := db.sessions[d].userId;
    id == 0 || (id in db.users && db.users[id].status == Active)
  }

  lemma EffectKeepsOwners(db: Db, e: Effect)
    requires RowIds(db) && Owned(db) && Guarded(db, e)
    ensures Owned(Apply(db, e))
  {
    var db' := Apply(db, e);
    forall d | d in db'.sessions ensures SessionOwned(db', d) {
      if d in db.sessions {
        assert SessionOwned(db, d);
      }
    }
  }

  /** In every run, sessions belong to active accounts and API keys to existing ones. */
  lemma {:induction false} RunKeepsOwners(ops: seq<Op>)
    ensures RowIds(After(EMPTY, ops)) && Owned(After(EMPTY, ops))
  {
    if ops != [] {
      RunKeepsOwners(Init(ops));
      StepKeepsRowIds(After(EMPTY, Init(ops)), Last(ops));
      var e := EffectOf(After(EMPTY, Init(ops)), Last(ops));
      EffectKeepsOwners(After(EMPTY, Init(ops)), e);
    }
  }

  /** The owner of a session, its password and its status between two moments. */
  predicate SameOwner(db: Db, db': Db, d: string)
    requires d in db.sessions
  {
    var id := db.sessions[d].userId;
    && d in db'.sessions && db'.sessions[d] == db.sessions[d]
    && (id != 0 ==>
          && id in db.users && id in db'.users
          && db.users[id].status == Active && db'.users[id].status == Active
          && db'.users[id].password == db.users[id].password)
  }

  /** A session that survives a step still has the same owner, active and with the same password. */
  lemma SurvivorIsUntouched(db: Db, op: Op, d: string)
    requires RowIds(db) && Owned(db) && d in db.sessions && d in Step(db, op).sessions
    ensures SameOwner(db, Step(db, op), d)
  {
    var e := EffectOf(db, op);
    SurvivorOfEffect(db, e, d);
  }

  lemma SurvivorOfEffect(db: Db, e: Effect, d: string)
    requires RowIds(db) && Owned(db) && Guarded(db, e) && d in db.sessions && d in Apply(db, e).sessions
    ensures SameOwner(db, Apply(db, e), d)
  {
    assert SessionOwned(db, d);
  }

  /** The step that put a session there. */
  predicate StartedBy(db: Db, op: Op, d: string) {
    && d !in db.sessions && d in Step(db, op).sessions
    && (op.RegisterOp? || op.LoginOp? || op.PasskeyOp? || op.AdminKeyOp?) && op.digest == d
  }

  lemma NewcomerWasStarted(db: Db, op: Op, d: string)
    requires d !in db.sessions && d in Step(db, op).sessions
    ensures StartedBy(db, op, d)
  {
    var _ := EffectOf(db, op);
  }

  /** A session has a first moment. Ever since, its owner existed, was active and had the same password: a
      session never outlives a password change, a disabling or a deletion of its account. */
  lemma {:induction false} SessionIsNeverStale(ops: seq<Op>, d: string) returns (i: nat)
    requires d in After(EMPTY, ops).sessions
    ensures i < |ops| && StartedBy(After(EMPTY, ops[..i]), ops[i], d) && UntouchedSince(ops, i + 1, d)
  {
    assert ops != [];
    var before := Init(ops);
    assert before == ops[..|ops| - 1];
    if d in After(EMPTY, before).sessions {
      i := SessionIsNeverStale(before, d);
      assert before[..i] == ops[..i];
      RunKeepsOwners(before);
      SurvivorIsUntouched(After(EMPTY, before), Last(ops), d);
      UntouchedStep(ops, i + 1, d);
    } else {
      i := |ops| - 1;
      NewcomerWasStarted(After(EMPTY, before), Last(ops), d);
      UntouchedFromHere(ops, d);
    }
  }

  lemma OwnedBySameOwner(db: Db, d: string)
    requires Owned(db) && d in db.sessions
    ensures SameOwner(db, db, d)
  {
    assert SessionOwned(db, d);
  }

  lemma {:induction false} UntouchedFromHere(ops: seq<Op>, d: string)
    requires d in After(EMPTY, ops).sessions
    ensures UntouchedSince(ops, |ops|, d)
  {
    RunKeepsOwners(ops);
    OwnedBySameOwner(After(EMPTY, ops), d);
    assert ops[..|ops|] == ops;
  }

  /** From moment i on, nothing happened to the session or its owner. */
  predicate UntouchedSince(ops: seq<Op>, i: nat, d: string) {
    forall j :: i <= j <= |ops| ==>
      d in After(EMPTY, ops[..j]).sessions && SameOwner(After(EMPTY, ops[..j]), After(EMPTY, ops), d)
  }

  lemma UntouchedStep(ops: seq<Op>, i: nat, d: string)
    requires ops != [] && i < |ops| && UntouchedSince(Init(ops), i, d)
    requires d in After(EMPTY, Init(ops)).sessions && SameOwner(After(EMPTY, Init(ops)), After(EMPTY, ops), d)
    ensures UntouchedSince(ops, i, d)
  {
    forall j | i <= j <= |ops|
      ensures d in After(EMPTY, ops[..j]).sessions && SameOwner(After(EMPTY, ops[..j]), After(EMPTY, ops), d)
    {
      if j < |ops| {
        assert Init(ops)[..j] == ops[..j];
      } else {
        assert ops[..j] == ops;
      }
    }
  }

  /* ---------------------------------------------------------------- names */

  predicate Clash(u: User, v: User) {
    Lower(u.username) == Lower(v.username) || Lower(u.email) == Lower(v.email)
  }

  /** No two accounts share a name or an address, whatever the case. */
  predicate Distinct(db: Db) {
    forall a, b :: a in db.users && b in db.users && a != b ==> !Clash(db.users[a], db.users[b])
  }

  lemma AddingIsDistinctExactly(db: Db, u: User)
    requires RowIds(db) && Distinct(db)
    ensures Distinct(AddUser(db, u)) <==> !Registered(db.users, u.username, u.email)
  {
    var db' := AddUser(db, u);
    if Registered(db.users, u.username, u.email) {
      var id :| id in db.users && Clash(db.users[id], u);
      assert Clash(db'.users[id], db'.users[db'.lastId]);
    }
  }

  lemma UpdateKeepsDistinct(db: Db, id: nat, u: User)
    requires Distinct(db) && id in db.users && u.username == db.users[id].username && u.email == db.users[id].email
    ensures Distinct(SetUser(db, id, u))
  {
  }

  lemma EffectKeepsNamesApartExactly(db: Db, e: Effect)
    requires RowIds(db) && Distinct(db) && Guarded(db, e)
    ensures Distinct(Apply(db, e)) <==>
            !((e.Added? || e.AddedAndStarted?) && Registered(db.users, e.u.username, e.u.email))
  {
    match e {
      case Added(u) =>
        AddingIsDistinctExactly(db, u);
      case AddedAndStarted(u, digest, now) =>
        AddingIsDistinctExactly(db, u);
        assert Start(AddUser(db, u), digest, db.lastId + 1, now).users == AddUser(db, u).users;
      case Changed(id, u, _) =>
        UpdateKeepsDistinct(db, id, u);
      case _ =>
    }
  }

  /** Setup takes the address of an account that is already there, or its name in another case. */
  predicate SetupClashes(db: Db, op: Op) {
    && op.SetupOp? && !HasAdmin(db.users) && !NameTaken(db.users, op.username)
    && ValidUsername(op.username) && ValidPassword(op.password) && NormalizeEmail(op.email) != ""
    && Registered(db.users, op.username, NormalizeEmail(op.email))
  }

  /** Every step keeps names and addresses apart, except a setup that takes the name or address of an account
      that is already there. */
  lemma StepKeepsNamesApartExactly(db: Db, op: Op)
    requires RowIds(db) && Distinct(db)
    ensures Distinct(Step(db, op)) <==> !SetupClashes(db, op)
  {
    var e := EffectOf(db, op);
    EffectKeepsNamesApartExactly(db, e);
  }

  /** Such a setup comes after an account is made with the bootstrap key. */
  lemma SetupCanTakeAnAddress(name: string, admin: string, email: string, password: string)
    requires ValidUsername(name) && TrimSpace(name) == name && ValidUsername(admin) && name != admin
    requires NormalizeEmail(email) != "" && ValidPassword(password)
    ensures var db := After(EMPTY, [CreateOp(name, email, password, Member), SetupOp(admin, email, password)]);
            && 1 in db.users && 2 in db.users && db.users[1].email == db.users[2].email
            && !Distinct(db)
  {
    var create, setup := CreateOp(name, email, password, Member), SetupOp(admin, email, password);
    AfterTwo(EMPTY, create, setup);
    FirstAccount(name, email, password);
    SecondAccount(Step(EMPTY, create), admin, email, password);
    var db := Step(Step(EMPTY, create), setup);
    assert Clash(db.users[1], db.users[2]);
  }

  lemma SecondAccount(db: Db, admin: string, email: string, password: string)
    requires db.users.Keys == {1} && db.lastId == 1 && db.users[1].role == Member && db.users[1].username != admin
    requires ValidUsername(admin) && NormalizeEmail(email) != "" && ValidPassword(password)
    ensures Step(db, SetupOp(admin, email, password)) ==
            AddUser(db, User(admin, NormalizeEmail(email), password, Admin, Active))
  {
    assert !HasAdmin(db.users) && !NameTaken(db.users, admin);
  }

  /** Names have no at sign, and addresses are lower case with one. */
  predicate WellNamed(db: Db) {
    forall id :: id in db.users ==>
      && ValidUsername(db.users[id].username)
      && Lower(db.users[id].email) == db.users[id].email && '@' in db.users[id].email
  }

  lemma StepKeepsWellNamed(db: Db, op: Op)
    requires WellNamed(db)
    ensures WellNamed(Step(db, op))
  {
    var e := EffectOf(db, op);
    EffectKeepsWellNamed(db, e);
  }

  lemma EffectKeepsWellNamed(db: Db, e: Effect)
    requires WellNamed(db) && Guarded(db, e)
    ensures WellNamed(Apply(db, e))
  {
  }

  lemma NameHasNoAt(name: string)
    requires ValidUsername(name)
    ensures '@' !in Lower(name)
  {
    forall i | 0 <= i < |name| ensures Lower(name)[i] != '@' {
      assert UsernameChar(name[i]);
    }
  }

  /** While names are apart, an account name or address signs in to at most one account. */
  lemma LoginIsUnambiguous(db: Db, account: string, a: nat, b: nat)
    requires WellNamed(db) && Distinct(db) && a in db.users && b in db.users
    requires ByAccount(account)(db.users[a]) && ByAccount(account)(db.users[b])
    ensures a == b
  {
    NameHasNoAt(db.users[a].username);
    NameHasNoAt(db.users[b].username);
    assert Clash(db.users[a], db.users[b]);
  }

  /** No setup of the run takes the address of an account that is there, or its name in another case. */
  predicate NoSetupClashes(ops: seq<Op>) {
    ops == [] || (NoSetupClashes(Init(ops)) && !SetupClashes(After(EMPTY, Init(ops)), Last(ops)))
  }

  /** Names and addresses are apart at every moment of the run. */
  predicate DistinctThroughout(ops: seq<Op>) {
    Distinct(After(EMPTY, ops)) && (ops == [] || DistinctThroughout(Init(ops)))
  }

  lemma {:induction false} RunIsWellNamed(ops: seq<Op>)
    ensures RowIds(After(EMPTY, ops)) && WellNamed(After(EMPTY, ops))
  {
    if ops != [] {
      RunIsWellNamed(Init(ops));
      StepKeepsRowIds(After(EMPTY, Init(ops)), Last(ops));
      StepKeepsWellNamed(After(EMPTY, Init(ops)), Last(ops));
    }
  }

  /** In every run names and addresses stay apart throughout exactly when no setup clashes; while they do, a
      login finds the account it names, and no other. */
  lemma {:induction false} RunKeepsNamesApart(ops: seq<Op>)
    ensures RowIds(After(EMPTY, ops)) && WellNamed(After(EMPTY, ops))
    ensures DistinctThroughout(ops) <==> NoSetupClashes(ops)
  {
    RunIsWellNamed(ops);
    if ops != [] {
      var before := After(EMPTY, Init(ops));
      RunIsWellNamed(Init(ops));
      RunKeepsNamesApart(Init(ops));
      if Distinct(before) {
        StepKeepsNamesApartExactly(before, Last(ops));
      }
    }
  }
}
