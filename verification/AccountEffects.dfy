/** What every account handler does to each row: whose account changes and how, which sessions open and end
    and for whom, and what a session that stands must have given. */
module AccountEffects {
  import opened Options
  import opened Text
  import opened Accounts
  import opened AccountSafety

  const SEVEN_DAYS := 604800

  function Row<K, V>(rows: map<K, V>, key: K): Option<V> {
    if key in rows then Some(rows[key]) else None
  }

  /* ---------------------------------------------------------------- who is meant */

  /** The account goes by this name or address, in any case. */
  predicate GoesBy(u: User, account: string) {
    Lower(u.username) == Lower(account) || u.email == Lower(account)
  }

  /** The oldest account that goes by a name or address. */
  predicate FirstNamed(db: Db, account: string, id: nat) {
    id in db.users && GoesBy(db.users[id], account)
    && forall k :: k in db.users && GoesBy(db.users[k], account) ==> id <= k
  }

  /** The oldest account with an address. */
  predicate FirstAt(db: Db, email: string, id: nat) {
    id in db.users && db.users[id].email == email
    && forall k :: k in db.users && db.users[k].email == email ==> id <= k
  }

  lemma FirstByAccount(db: Db, account: string, id: nat)
    requires RowIds(db)
    ensures First(db, ByAccount(account)) == Some(id) <==> FirstNamed(db, account, id)
  {
  }

  lemma FirstByEmail(db: Db, email: string, id: nat)
    requires RowIds(db)
    ensures First(db, ByEmail(email)) == Some(id) <==> FirstAt(db, email, id)
  {
  }

  /* ---------------------------------------------------------------- signing in */

  /** The account that is meant is active and the given password is its password. */
  predicate SignsIn(db: Db, account: string, password: string, id: nat) {
    && TrimSpace(account) != "" && password != "" && FirstNamed(db, TrimSpace(account), id)
    && db.users[id].status == Active && db.users[id].password == password
  }

  predicate SomeoneSignsIn(db: Db, account: string, password: string) {
    exists id :: id in db.users && SignsIn(db, account, password, id)
  }

  lemma OneSignsIn(db: Db, account: string, password: string, a: nat, b: nat)
    requires SignsIn(db, account, password, a) && SignsIn(db, account, password, b)
    ensures a == b
  {
    assert FirstNamed(db, TrimSpace(account), a) && FirstNamed(db, TrimSpace(account), b);
  }

  /** A login opens a session of seven days exactly when the digest is free and the oldest account of that name
      or address is active and has exactly the given password. Otherwise it changes nothing. */
  lemma LoginOpensExactly(db: Db, digest: string, account: string, password: string, now: int)
    requires RowIds(db)
    ensures var r := Login(db, digest, account, password, now);
            && (r.code == 200 <==> digest !in db.sessions && SomeoneSignsIn(db, account, password))
            && (r.code != 200 ==> r.db == db)
    ensures forall id :: SignsIn(db, account, password, id) && digest !in db.sessions ==>
              Login(db, digest, account, password, now).db ==
              db.(sessions := db.sessions[digest := Session(id, now + SEVEN_DAYS)])
  {
    var found := First(db, ByAccount(TrimSpace(account)));
    forall id: nat ensures found == Some(id) <==> FirstNamed(db, TrimSpace(account), id) {
      FirstByAccount(db, TrimSpace(account), id);
    }
    if found.Some? && SignsIn(db, account, password, found.value) {
      forall id | SignsIn(db, account, password, id) ensures id == found.value {
        OneSignsIn(db, account, password, id, found.value);
      }
    }
  }

  /** Why a login is refused: nothing given, nobody of that name, disabled, without password, wrong password, or
      a digest that is taken. */
  lemma LoginRefusals(db: Db, digest: string, account: string, password: string, now: int, id: nat)
    requires RowIds(db) && TrimSpace(account) != "" && password != "" && FirstNamed(db, TrimSpace(account), id)
    ensures Login(db, digest, account, password, now).code ==
            if db.users[id].status == Disabled then 403
            else if db.users[id].password == "" then 409
            else if db.users[id].password != password then 401
            else if digest in db.sessions then 500
            else 200
  {
    FirstByAccount(db, TrimSpace(account), id);
  }

  /** A passkey opens a session of its account exactly when the signature is good and the account active. */
  lemma PasskeyOpensExactly(db: Db, digest: string, id: nat, verified: bool, now: int)
    ensures var r := PasskeyLogin(db, digest, id, verified, now);
            && (r.code == 200 <==> digest !in db.sessions && verified && ActiveUser(db, id))
            && r.db == if r.code != 200 then db
                       else db.(sessions := db.sessions[digest := Session(id, now + SEVEN_DAYS)])
  {
  }

  /** The bootstrap key opens a session of the virtual administrator exactly when one is configured and given. */
  lemma AdminKeyOpensExactly(db: Db, digest: string, key: string, given: string, now: int)
    ensures var r := AdminKey(db, digest, key, given, now);
            && (r.code == 200 <==> digest !in db.sessions && key != "" && given == key)
            && r.db == if r.code != 200 then db
                       else db.(sessions := db.sessions[digest := Session(0, now + SEVEN_DAYS)])
  {
  }

  /** A session stands for its user until it lapses, and while that user is active. */
  lemma StandsExactly(db: Db, digest: string, now: int, id: nat)
    ensures Caller(db, digest, now) == Some(id) <==>
            && digest in db.sessions && now <= db.sessions[digest].expires && db.sessions[digest].userId == id
            && (id == 0 || ActiveUser(db, id))
  {
  }

  /* ---------------------------------------------------------------- row by row */

  /** A new account's data are in order. */
  predicate InOrder(name: string, email: string, password: string) {
    ValidUsername(name) && ValidPassword(password) && NormalizeEmail(email) != ""
  }

  /** The operation is let through. */
  predicate Accepts(db: Db, op: Op) {
    match op
    case SetupOp(name, email, password) =>
      !HasAdmin(db.users) && InOrder(name, email, password) && !NameTaken(db.users, name)
    case RegisterOp(_, name, email, password, _) =>
      HasAdmin(db.users) && InOrder(TrimSpace(name), email, password)
      && !Registered(db.users, TrimSpace(name), NormalizeEmail(email))
    case CreateOp(name, email, password, _) =>
      InOrder(TrimSpace(name), email, password) && !Registered(db.users, TrimSpace(name), NormalizeEmail(email))
    case RoleOp(id, role) =>
      id in db.users && (db.users[id].role == Admin && role != Admin ==> OtherActiveAdmin(db.users, id))
    case StatusOp(actor, id, status) =>
      id in db.users
      && (status == Disabled ==> actor != id && (db.users[id].role == Admin ==> OtherActiveAdmin(db.users, id)))
    case PasswordOp(id, password) => id in db.users && ValidPassword(password)
    case DeleteOp(actor, id) =>
      id in db.users && actor != id && (db.users[id].role == Admin ==> OtherActiveAdmin(db.users, id))
    case ResetByEmailOp(email, _) =>
      exists id :: id in db.users && FirstAt(db, email, id) && db.users[id].status == Active
    case _ => false
  }

  /** The account that an administrator's operation or a reset is about. */
  predicate About(db: Db, op: Op, id: nat) {
    match op
    case RoleOp(target, _) => target == id
    case StatusOp(_, target, _) => target == id
    case PasswordOp(target, _) => target == id
    case DeleteOp(_, target) => target == id
    case ResetByEmailOp(email, _) => FirstAt(db, email, id)
    case _ => false
  }

  /** An account afterwards: only the accepted operation about it changes it, in one field or by removal. */
  function UserAfter(db: Db, op: Op, id: nat): Option<User> {
    if id in db.users && Accepts(db, op) && About(db, op, id) then
      match op
      case RoleOp(_, role) => Some(db.users[id].(role := role))
      case StatusOp(_, _, status) => Some(db.users[id].(status := status))
      case PasswordOp(_, password) => Some(db.users[id].(password := password))
      case ResetByEmailOp(_, password) => Some(db.users[id].(password := password))
      case _ => None
    else if id in db.users then Some(db.users[id])
    else if id == db.lastId + 1 && Accepts(db, op) then
      match op
      case SetupOp(name, email, password) => Some(User(name, NormalizeEmail(email), password, Admin, Active))
      case RegisterOp(_, name, email, password, _) =>
        Some(User(TrimSpace(name), NormalizeEmail(email), password, Member, Active))
      case CreateOp(name, email, password, role) =>
        Some(User(TrimSpace(name), NormalizeEmail(email), password, role, Active))
      case _ => None
    else None
  }

  lemma NewUserAfter(db: Db, op: Op, id: nat)
    requires RowIds(db) && (op.SetupOp? || op.RegisterOp? || op.CreateOp?)
    ensures Row(Step(db, op).users, id) == UserAfter(db, op, id)
  {
    if op.RegisterOp? {
      RegisterStep(db, op);
    }
  }

  lemma ResetUserAfter(db: Db, op: Op, id: nat)
    requires RowIds(db) && op.ResetByEmailOp?
    ensures Row(Step(db, op).users, id) == UserAfter(db, op, id)
  {
    var found := First(db, ByEmail(op.email));
    forall k: nat ensures found == Some(k) <==> FirstAt(db, op.email, k) {
      FirstByEmail(db, op.email, k);
    }
  }

  lemma AdminUserAfter(db: Db, op: Op, id: nat)
    requires RowIds(db) && (op.RoleOp? || op.StatusOp? || op.PasswordOp? || op.DeleteOp?)
    ensures Row(Step(db, op).users, id) == UserAfter(db, op, id)
  {
  }

  /** Each account after any operation. */
  lemma UsersAfter(db: Db, op: Op, id: nat)
    requires RowIds(db)
    ensures Row(Step(db, op).users, id) == UserAfter(db, op, id)
  {
    if op.SetupOp? || op.RegisterOp? || op.CreateOp? {
      NewUserAfter(db, op, id);
    } else if op.ResetByEmailOp? {
      ResetUserAfter(db, op, id);
    } else if op.RoleOp? || op.StatusOp? || op.PasswordOp? || op.DeleteOp? {
      AdminUserAfter(db, op, id);
    } else {
      assert Step(db, op).users == db.users;
    }
  }

  /** Ids are given to new accounts only, in order. */
  lemma LastIdAfter(db: Db, op: Op)
    ensures Step(db, op).lastId ==
            db.lastId + if (op.SetupOp? || op.RegisterOp? || op.CreateOp?) && Accepts(db, op) then 1 else 0
  {
  }

  /** Creating accounts answers 201 exactly when it is let through; setup is refused with 409 exactly when there
      is an administrator, and a taken name or address with 409 or, by the unique index, 500. */
  lemma CreatingAnswers(db: Db, op: Op)
    ensures op.SetupOp? ==>
              var code := Setup(db, op.username, op.email, op.password).code;
              && (code == 201 <==> Accepts(db, op)) && (code == 409 <==> HasAdmin(db.users))
              && (code == 500 <==> !HasAdmin(db.users) && InOrder(op.username, op.email, op.password)
                                   && NameTaken(db.users, op.username))
    ensures op.RegisterOp? ==>
              var code := Register(db, op.digest, op.username, op.email, op.password, op.now).code;
              && (code == 201 <==> Accepts(db, op) && op.digest !in db.sessions)
              && (code == 500 <==> Accepts(db, op) && op.digest in db.sessions)
              && (code == 403 <==> !HasAdmin(db.users))
              && (code == 400 <==> HasAdmin(db.users) && !InOrder(TrimSpace(op.username), op.email, op.password))
    ensures op.CreateOp? ==>
              var code := Create(db, op.username, op.email, op.password, op.role).code;
              && (code == 201 <==> Accepts(db, op))
              && (code == 400 <==> !InOrder(TrimSpace(op.username), op.email, op.password))
  {
  }

  /** Administration answers 200 exactly when it is let through, 404 exactly for an account that is not there, and
      409 exactly where it would hit its own caller or the last active administrator. */
  lemma AdministrationAnswers(db: Db, op: Op)
    requires RowIds(db) && (op.RoleOp? || op.StatusOp? || op.DeleteOp?) && op.id != 0
    ensures var code := match op
                        case RoleOp(id, role) => UpdateRole(db, id, role).code
                        case StatusOp(actor, id, status) => UpdateStatus(db, actor, id, status).code
                        case _ => Delete(db, op.actor, op.id).code;
            && (code == 200 <==> Accepts(db, op)) && (code == 404 <==> op.id !in db.users)
            && (code == 409 <==> op.id in db.users && !Accepts(db, op))
  {
  }

  /** A password is changed with 200 exactly where it is let through; a reset of a disabled account answers 403. */
  lemma PasswordAnswers(db: Db, op: Op)
    requires RowIds(db)
    ensures op.PasswordOp? ==> (ResetPassword(db, op.id, op.password).code == 200 <==> Accepts(db, op))
    ensures op.ResetByEmailOp? ==>
              var code := ResetByEmail(db, op.email, op.password).code;
              && (code == 200 <==> Accepts(db, op))
              && (code == 403 <==> exists id :: id in db.users && FirstAt(db, op.email, id)
                                                && db.users[id].status == Disabled)
  {
    if op.ResetByEmailOp? {
      var found := First(db, ByEmail(op.email));
      forall k: nat ensures found == Some(k) <==> FirstAt(db, op.email, k) {
        FirstByEmail(db, op.email, k);
      }
    }
  }

  /** The operation ends a session: by logging out, by using it after it lapsed, or because its account is
      disabled, deleted or given another password. */
  predicate Ends(db: Db, op: Op, d: string)
    requires d in db.sessions
  {
    match op
    case LogoutOp(digest) => digest == d
    case AuthenticateOp(digest, now) => digest == d && now > db.sessions[d].expires
    case TokenOp(digest, _, now) => digest == d && now > db.sessions[d].expires
    case StatusOp(_, id, status) => status == Disabled && Accepts(db, op) && db.sessions[d].userId == id
    case PasswordOp(id, _) => Accepts(db, op) && db.sessions[d].userId == id
    case DeleteOp(_, id) => Accepts(db, op) && db.sessions[d].userId == id
    case ResetByEmailOp(_, _) => Accepts(db, op) && About(db, op, db.sessions[d].userId)
    case _ => false
  }

  /** The operation opens a session, and what it gave for it. */
  predicate Opens(db: Db, op: Op, d: string, s: Session) {
    match op
    case LoginOp(digest, account, password, now) =>
      digest == d && SignsIn(db, account, password, s.userId) && s.expires == now + SEVEN_DAYS
    case PasskeyOp(digest, id, verified, now) =>
      digest == d && verified && ActiveUser(db, id) && s == Session(id, now + SEVEN_DAYS)
    case AdminKeyOp(digest, key, given, now) =>
      digest == d && key != "" && given == key && s == Session(0, now + SEVEN_DAYS)
    case RegisterOp(digest, _, _, _, now) =>
      digest == d && Accepts(db, op) && s == Session(db.lastId + 1, now + SEVEN_DAYS)
    case _ => false
  }

  lemma LoggedInAfter(db: Db, op: Op, d: string, s: Session)
    requires RowIds(db) && op.LoginOp?
    ensures d !in db.sessions ==> (Row(Step(db, op).sessions, d) == Some(s) <==> Opens(db, op, d, s))
    ensures d in db.sessions ==> Row(Step(db, op).sessions, d) == Some(db.sessions[d])
  {
    LoginOpensExactly(db, op.digest, op.account, op.password, op.now);
    if SomeoneSignsIn(db, op.account, op.password) {
      var id :| id in db.users && SignsIn(db, op.account, op.password, id);
      if SignsIn(db, op.account, op.password, s.userId) {
        OneSignsIn(db, op.account, op.password, id, s.userId);
      }
    }
  }

  lemma OpenedAfter(db: Db, op: Op, d: string, s: Session)
    requires RowIds(db) && (op.LoginOp? || op.PasskeyOp? || op.AdminKeyOp? || op.RegisterOp?)
    ensures d !in db.sessions ==> (Row(Step(db, op).sessions, d) == Some(s) <==> Opens(db, op, d, s))
    ensures d in db.sessions ==> Row(Step(db, op).sessions, d) == Some(db.sessions[d])
  {
    match op {
      case LoginOp(digest, account, password, now) =>
        LoggedInAfter(db, op, d, s);
      case PasskeyOp(digest, id, verified, now) =>
        PasskeyOpensExactly(db, digest, id, verified, now);
      case AdminKeyOp(digest, key, given, now) =>
        AdminKeyOpensExactly(db, digest, key, given, now);
      case RegisterOp(_, _, _, _, _) =>
        RegisteredAfter(db, op, d, s);
    }
  }

  lemma RegisteredAfter(db: Db, op: Op, d: string, s: Session)
    requires op.RegisterOp?
    ensures d !in db.sessions ==> (Row(Step(db, op).sessions, d) == Some(s) <==> Opens(db, op, d, s))
    ensures d in db.sessions ==> Row(Step(db, op).sessions, d) == Some(db.sessions[d])
  {
    RegisterStep(db, op);
  }

  /** What a registration leaves: the account, and its session if the digest is free. */
  lemma RegisterStep(db: Db, op: Op)
    requires op.RegisterOp?
    ensures Step(db, op) ==
            if Accepts(db, op) then
              Start(AddUser(db, User(TrimSpace(op.username), NormalizeEmail(op.email), op.password, Member, Active)),
                    op.digest, db.lastId + 1, op.now)
            else db
  {
  }

  lemma ClosedAfter(db: Db, op: Op, d: string)
    requires RowIds(db) && !(op.LoginOp? || op.PasskeyOp? || op.AdminKeyOp? || op.RegisterOp?)
    ensures Row(Step(db, op).sessions, d) ==
            if d in db.sessions && !Ends(db, op, d) then Some(db.sessions[d]) else None
  {
    if op.ResetByEmailOp? {
      var found := First(db, ByEmail(op.email));
      forall k: nat ensures found == Some(k) <==> FirstAt(db, op.email, k) {
        FirstByEmail(db, op.email, k);
      }
    }
  }

  /** Each session after any operation: it ends, stays as it is, or is opened with what it takes. */
  lemma SessionsAfter(db: Db, op: Op, d: string, s: Session)
    requires RowIds(db)
    ensures d !in db.sessions ==> (Row(Step(db, op).sessions, d) == Some(s) <==> Opens(db, op, d, s))
    ensures d in db.sessions ==>
              Row(Step(db, op).sessions, d) == if Ends(db, op, d) then None else Some(db.sessions[d])
  {
    if op.LoginOp? || op.PasskeyOp? || op.AdminKeyOp? || op.RegisterOp? {
      OpenedAfter(db, op, d, s);
    } else {
      ClosedAfter(db, op, d);
    }
  }

  /** The owner of an API key afterwards: a key is made for the user of a standing session, and goes with its
      account. */
  function KeyAfter(db: Db, op: Op, k: string): Option<nat> {
    if k in db.tokens then
      if op.DeleteOp? && Accepts(db, op) && db.tokens[k] == op.id then None else Some(db.tokens[k])
    else if op.TokenOp? && op.key == k && op.digest in db.sessions && op.now <= db.sessions[op.digest].expires
            && ActiveUser(db, db.sessions[op.digest].userId)
    then Some(db.sessions[op.digest].userId)
    else None
  }

  lemma KeysAfter(db: Db, op: Op, k: string)
    requires RowIds(db)
    ensures Row(Step(db, op).tokens, k) == KeyAfter(db, op, k)
  {
    if op.TokenOp? {
      assert 0 !in db.users;
    }
  }

  /* ---------------------------------------------------------------- runs */

  /** Behind every session of a run there is the request that opened it, seven days before it lapses, with what
      it takes. If that was a login or a registration, the password it gave is still the password of the
      session's account, which is still active. */
  lemma SessionHasItsCause(ops: seq<Op>, d: string) returns (i: nat)
    requires d in After(EMPTY, ops).sessions
    ensures i < |ops| && d !in After(EMPTY, ops[..i]).sessions
    ensures Opens(After(EMPTY, ops[..i]), ops[i], d, After(EMPTY, ops).sessions[d])
    ensures var id := After(EMPTY, ops).sessions[d].userId;
            ops[i].LoginOp? || ops[i].RegisterOp? ==>
              ActiveUser(After(EMPTY, ops), id) && After(EMPTY, ops).users[id].password == ops[i].password
  {
    i := SessionIsNeverStale(ops, d);
    var before, after := After(EMPTY, ops[..i]), After(EMPTY, ops[..i + 1]);
    assert Init(ops[..i + 1]) == ops[..i] && after == Step(before, ops[i]);
    RunKeepsOwners(ops[..i]);
    assert SameOwner(after, After(EMPTY, ops), d);
    SessionsAfter(before, ops[i], d, after.sessions[d]);
    OwnerGavePassword(before, ops[i], d);
  }

  lemma OwnerGavePassword(db: Db, op: Op, d: string)
    requires RowIds(db) && d in Step(db, op).sessions && Opens(db, op, d, Step(db, op).sessions[d])
    ensures var id := Step(db, op).sessions[d].userId;
            op.LoginOp? || op.RegisterOp? ==>
              id != 0 && id in Step(db, op).users && Step(db, op).users[id].password == op.password
  {
    UsersAfter(db, op, Step(db, op).sessions[d].userId);
  }

  /** While names are apart, the name of an active account signs in with exactly its password. */
  lemma NameSignsInExactly(db: Db, id: nat, password: string)
    requires RowIds(db) && WellNamed(db) && Distinct(db) && ActiveUser(db, id) && db.users[id].password != ""
    ensures SignsIn(db, db.users[id].username, password, id) <==> password == db.users[id].password
  {
    var name := db.users[id].username;
    NameIsTrimmed(name);
    forall k | k in db.users && GoesBy(db.users[k], name) ensures k == id {
      LoginIsUnambiguous(db, name, k, id);
    }
  }

  lemma NameIsTrimmed(name: string)
    requires ValidUsername(name)
    ensures TrimSpace(name) == name && name != ""
  {
    TrimSpaceKeepsClean(name);
  }

  /** A registered or created account can sign in by its name with the password it was given, and with no other. */
  lemma NewAccountSignsIn(db: Db, op: Op, password: string)
    requires RowIds(db) && WellNamed(db) && Distinct(db) && (op.RegisterOp? || op.CreateOp?) && Accepts(db, op)
    ensures SignsIn(Step(db, op), TrimSpace(op.username), password, db.lastId + 1) <==> password == op.password
  {
    var db', id := Step(db, op), db.lastId + 1;
    UsersAfter(db, op, id);
    StepKeepsRowIds(db, op);
    StepKeepsWellNamed(db, op);
    StepKeepsNamesApartExactly(db, op);
    NameSignsInExactly(db', id, password);
  }

  /** After its password is changed, an account has no session, and its name signs in with exactly the new one. */
  lemma NewPasswordSignsIn(db: Db, op: Op, id: nat, password: string)
    requires RowIds(db) && WellNamed(db) && Distinct(db) && (op.PasswordOp? || op.ResetByEmailOp?)
    requires Accepts(db, op) && About(db, op, id) && ActiveUser(db, id) && op.password != ""
    ensures forall d :: d in Step(db, op).sessions ==> Step(db, op).sessions[d].userId != id
    ensures SignsIn(Step(db, op), db.users[id].username, password, id) <==> password == op.password
  {
    UsersAfter(db, op, id);
    StepKeepsRowIds(db, op);
    StepKeepsWellNamed(db, op);
    StepKeepsNamesApartExactly(db, op);
    NameSignsInExactly(Step(db, op), id, password);
    NoSessionLeft(db, op, id);
  }

  /** Disabling or deleting an account, or changing its password, leaves it no session. */
  lemma NoSessionLeft(db: Db, op: Op, id: nat)
    requires RowIds(db) && Accepts(db, op) && About(db, op, id)
    requires op.PasswordOp? || op.ResetByEmailOp? || op.DeleteOp? || (op.StatusOp? && op.status == Disabled)
    ensures forall d :: d in Step(db, op).sessions ==> Step(db, op).sessions[d].userId != id
  {
    forall d | d in Step(db, op).sessions ensures Step(db, op).sessions[d].userId != id {
      ClosedAfter(db, op, d);
    }
  }

  /** Nobody signs in to a disabled or deleted account. */
  lemma LockedOut(db: Db, op: Op, id: nat, account: string, password: string)
    requires RowIds(db) && Accepts(db, op) && About(db, op, id)
    requires op.DeleteOp? || (op.StatusOp? && op.status == Disabled)
    ensures !SignsIn(Step(db, op), account, password, id)
  {
    UsersAfter(db, op, id);
  }
}
