/** Accounts, management sessions and API keys: the handlers of internal/handler/auth.go, admin.go,
    setup.go, passkey.go and tokens.go that create, change or remove them, and the session check of
    internal/middleware/session.go. Each handler is one step and answers with its HTTP status. A password
    hash is identified with the password it was made from; time is in seconds. */
module Accounts {
  import opened Options
  import opened Text
  import Like

  datatype Role = Admin | Member

  datatype Status = Active | Disabled

  datatype User = User(username: string, email: string, password: string, role: Role, status: Status)

  datatype Session = Session(userId: nat, expires: int)

  /** The tables; sessions and API keys are keyed by their digest or secret. */
  datatype Db = Db(users: map<nat, User>, lastId: nat, sessions: map<string, Session>, tokens: map<string, nat>)

  datatype Reply = Reply(db: Db, code: int)

  const SESSION_TTL := 604800

  const EMPTY := Db(map[], 0, map[], map[])

  /* ---------------------------------------------------------------- names and addresses */

  function Lower(s: string): (r: string)
    ensures |r| == |s|
  {
    seq(|s|, i requires 0 <= i < |s| => Like.Lower(s[i]))
  }

  predicate UsernameChar(c: char) {
    'a' <= c <= 'z' || 'A' <= c <= 'Z' || '0' <= c <= '9' || c == '_' || c == '-'
  }

  predicate ValidUsername(s: string) {
    3 <= |s| <= 32 && forall c :: c in s ==> UsernameChar(c)
  }

  /** The white space of a regular expression. */
  predicate IsBlank(c: char) {
    c == ' ' || c == '\t' || c == '\n' || c == '\U{000C}' || c == '\r'
  }

  /** Something, an at sign, and a domain with a dot inside. */
  predicate EmailShape(s: string) {
    exists at, dot :: 0 < at < |s| && at + 1 < dot < |s| - 1 && s[at] == '@' && s[dot] == '.' &&
      forall i :: 0 <= i < |s| && i != at ==> s[i] != '@' && !IsBlank(s[i])
  }

  function NormalizeEmail(raw: string): string {
    var e := Lower(TrimSpace(raw));
    if e == "" || Utf8Length(e) > 256 || !EmailShape(e) then "" else e
  }

  predicate ValidPassword(password: string) {
    8 <= Utf8Length(password) <= 72
  }

  /* ---------------------------------------------------------------- queries */

  predicate HasAdmin(users: map<nat, User>) {
    exists id :: id in users && users[id].role == Admin
  }

  predicate ActiveAdmin(users: map<nat, User>, id: nat) {
    id in users && users[id].role == Admin && users[id].status == Active
  }

  /** The count of other active administrators is not zero. */
  predicate OtherActiveAdmin(users: map<nat, User>, id: nat) {
    exists other :: other in users && ActiveAdmin(users, other) && other != id
  }

  predicate NameTaken(users: map<nat, User>, username: string) {
    exists id :: id in users && users[id].username == username
  }

  /** Names and addresses are compared without case. */
  predicate Registered(users: map<nat, User>, username: string, email: string) {
    exists id :: id in users && (Lower(users[id].username) == Lower(username) || Lower(users[id].email) == Lower(email))
  }

  /** The first row, by primary key, that satisfies a condition. */
  function First(db: Db, condition: User -> bool, start: nat := 1): (r: Option<nat>)
    ensures r.Some? ==> start <= r.value <= db.lastId && r.value in db.users && condition(db.users[r.value])
    ensures forall id :: start <= id <= db.lastId && id in db.users && condition(db.users[id]) ==>
              r.Some? && r.value <= id
    decreases db.lastId - start
  {
    if start > db.lastId then None
    else if start in db.users && condition(db.users[start]) then Some(start)
    else First(db, condition, start + 1)
  }

  function ByAccount(account: string): User -> bool {
    (u: User) => Lower(u.username) == Lower(account) || u.email == Lower(account)
  }

  function ByEmail(email: string): User -> bool {
    (u: User) => u.email == email
  }

  /* ---------------------------------------------------------------- building blocks */

  function SetUser(db: Db, id: nat, u: User): Db {
    db.(users := db.users[id := u])
  }

  function AddUser(db: Db, u: User): Db {
    db.(users := db.users[db.lastId + 1 := u], lastId := db.lastId + 1)
  }

  function Without(sessions: map<string, Session>, id: nat): map<string, Session> {
    map d | d in sessions && sessions[d].userId != id :: sessions[d]
  }

  function Revoke(db: Db, id: nat): Db {
    db.(sessions := Without(db.sessions, id))
  }

  /** The session of a handler; a digest that is taken makes the insertion, and so the handler, fail. */
  function SignIn(db: Db, digest: string, id: nat, now: int, code: int): Reply {
    Reply(Start(db, digest, id, now), if digest in db.sessions then 500 else code)
  }

  function Start(db: Db, digest: string, id: nat, now: int): Db {
    if digest in db.sessions then db else db.(sessions := db.sessions[digest := Session(id, now + SESSION_TTL)])
  }

  /* ---------------------------------------------------------------- creating accounts */

  /** setup.go:176-274: refused once there is an administrator. */
  function Setup(db: Db, username: string, email: string, password: string): Reply {
    if HasAdmin(db.users) then Reply(db, 409)
    else if !ValidUsername(username) || !ValidPassword(password) || NormalizeEmail(email) == "" then Reply(db, 400)
    else if NameTaken(db.users, username) then Reply(db, 500)
    else Reply(AddUser(db, User(username, NormalizeEmail(email), password, Admin, Active)), 201)
  }

  /** auth.go:111-180: open only after setup. */
  function Register(db: Db, digest: string, username: string, email: string, password: string, now: int): Reply {
    var name, address := TrimSpace(username), NormalizeEmail(email);
    if !HasAdmin(db.users) then Reply(db, 403)
    else if !ValidUsername(name) || address == "" || !ValidPassword(password) then Reply(db, 400)
    else if Registered(db.users, name, address) then Reply(db, 409)
    else
      SignIn(AddUser(db, User(name, address, password, Member, Active)), digest, db.lastId + 1, now, 201)
  }

  /** admin.go:68-151, after the group and quota checks. */
  function Create(db: Db, username: string, email: string, password: string, role: Role): Reply {
    var name, address := TrimSpace(username), NormalizeEmail(email);
    if !ValidUsername(name) || address == "" || !ValidPassword(password) then Reply(db, 400)
    else if Registered(db.users, name, address) then Reply(db, 409)
    else Reply(AddUser(db, User(name, address, password, role, Active)), 201)
  }

  /* ---------------------------------------------------------------- signing in and out */

  /** auth.go:183-231. */
  function Login(db: Db, digest: string, account: string, password: string, now: int): Reply {
    if TrimSpace(account) == "" || password == "" then Reply(db, 400)
    else
      match First(db, ByAccount(TrimSpace(account)))
      case None => Reply(db, 401)
      case Some(id) =>
        var u := db.users[id];
        if u.status != Active then Reply(db, 403)
        else if u.password == "" then Reply(db, 409)
        else if u.password != password then Reply(db, 401)
        else SignIn(db, digest, id, now, 200)
  }

  /** passkey.go:399-422; verified is the verdict of the WebAuthn library. */
  function PasskeyLogin(db: Db, digest: string, id: nat, verified: bool, now: int): Reply {
    if id !in db.users || db.users[id].status != Active || !verified then Reply(db, 401)
    else SignIn(db, digest, id, now, 200)
  }

  /** auth.go:234-260: the configured bootstrap key opens a session of the virtual user 0. */
  function AdminKey(db: Db, digest: string, key: string, given: string, now: int): Reply {
    if key == "" then Reply(db, 404)
    else if given != key then Reply(db, 401)
    else SignIn(db, digest, 0, now, 200)
  }

  function Logout(db: Db, digest: string): Reply {
    Reply(db.(sessions := db.sessions - {digest}), 200)
  }

  /** The user a session cookie stands for, 0 being the virtual administrator. */
  function Caller(db: Db, digest: string, now: int): (r: Option<nat>)
    ensures r.Some? && r.value != 0 ==> r.value in db.users && db.users[r.value].status == Active
  {
    if digest !in db.sessions || now > db.sessions[digest].expires then None
    else
      var id := db.sessions[digest].userId;
      if id == 0 || (id in db.users && db.users[id].status == Active) then Some(id) else None
  }

  /** session.go:34-75: a lapsed session is removed. */
  function Authenticate(db: Db, digest: string, now: int): Db {
    if digest in db.sessions && now > db.sessions[digest].expires then db.(sessions := db.sessions - {digest}) else db
  }

  /* ---------------------------------------------------------------- administration */

  /** admin.go:209-260. */
  function UpdateRole(db: Db, id: nat, role: Role): Reply {
    if id == 0 then Reply(db, 400)
    else if id !in db.users then Reply(db, 404)
    else if db.users[id].role == role then Reply(db, 200)
    else if db.users[id].role == Admin && !OtherActiveAdmin(db.users, id) then Reply(db, 409)
    else Reply(SetUser(db, id, db.users[id].(role := role)), 200)
  }

  /** admin.go:315-374. */
  function UpdateStatus(db: Db, actor: nat, id: nat, status: Status): Reply {
    if id == 0 then Reply(db, 400)
    else if id !in db.users then Reply(db, 404)
    else if actor == id && status == Disabled then Reply(db, 409)
    else if db.users[id].role == Admin && status == Disabled && !OtherActiveAdmin(db.users, id) then Reply(db, 409)
    else
      var changed := SetUser(db, id, db.users[id].(status := status));
      Reply(if status == Disabled then Revoke(changed, id) else changed, 200)
  }

  /** admin.go:411-446. */
  function ResetPassword(db: Db, id: nat, password: string): Reply {
    if id == 0 || !ValidPassword(password) then Reply(db, 400)
    else if id !in db.users then Reply(db, 404)
    else Reply(Revoke(SetUser(db, id, db.users[id].(password := password)), id), 200)
  }

  /** admin.go:450-497. */
  function Delete(db: Db, actor: nat, id: nat): Reply {
    if id == 0 then Reply(db, 400)
    else if id !in db.users then Reply(db, 404)
    else if actor == id then Reply(db, 409)
    else if db.users[id].role == Admin && !OtherActiveAdmin(db.users, id) then Reply(db, 409)
    else
      var left := Revoke(db.(users := db.users - {id}), id);
      Reply(left.(tokens := map k | k in db.tokens && db.tokens[k] != id :: db.tokens[k]), 200)
  }

  /** auth.go:431-454, once a mailed code is accepted. */
  function ResetByEmail(db: Db, email: string, password: string): Reply {
    match First(db, ByEmail(email))
    case None => Reply(db, 400)
    case Some(id) =>
      if db.users[id].status != Active then Reply(db, 403)
      else Reply(Revoke(SetUser(db, id, db.users[id].(password := password)), id), 200)
  }

  /** tokens.go:118-190, for the authenticated user. */
  function CreateToken(db: Db, digest: string, key: string, now: int): Reply {
    var caller := Caller(db, digest, now);
    if caller.None? || caller.value == 0 then Reply(Authenticate(db, digest, now), 401)
    else if key in db.tokens then Reply(db, 500)
    else Reply(db.(tokens := db.tokens[key := caller.value]), 201)
  }

  /* ---------------------------------------------------------------- the handlers */

  class Server {
    var users: map<nat, User>
    var lastId: nat
    var sessions: map<string, Session>
    var tokens: map<string, nat>

    function State(): Db
      reads this
    {
      Db(users, lastId, sessions, tokens)
    }

    constructor ()
      ensures State() == EMPTY
    {
      users, lastId, sessions, tokens := map[], 0, map[], map[];
    }

    method Insert(u: User) returns (id: nat)
      modifies this`users, this`lastId
      ensures State() == AddUser(old(State()), u) && id == lastId
    {
      lastId := lastId + 1;
      users := users[lastId := u];
      id := lastId;
    }

    method StartSession(digest: string, id: nat, now: int) returns (persisted: bool)
      modifies this`sessions
      ensures State() == Start(old(State()), digest, id, now)
      ensures persisted <==> digest !in old(sessions)
    {
      if digest in sessions {
        return false;
      }
      persisted := true;
      sessions := sessions[digest := Session(id, now + SESSION_TTL)];
    }

    method DropSessions(id: nat)
      modifies this`sessions
      ensures State() == Revoke(old(State()), id)
    {
      sessions := map d | d in sessions && sessions[d].userId != id :: sessions[d];
    }

    method HandleSetup(username: string, email: string, password: string) returns (code: int)
      modifies this
      ensures Reply(State(), code) == Setup(old(State()), username, email, password)
    {
      if HasAdmin(users) {
        return 409;
      }
      if !ValidUsername(username) {
        return 400;
      }
      if !ValidPassword(password) {
        return 400;
      }
      var address := NormalizeEmail(email);
      if address == "" {
        return 400;
      }
      if NameTaken(users, username) {
        return 500;
      }
      var _ := Insert(User(username, address, password, Admin, Active));
      code := 201;
    }

    method HandleRegister(digest: string, username: string, email: string, password: string, now: int)
      returns (code: int)
      modifies this
      ensures Reply(State(), code) == Register(old(State()), digest, username, email, password, now)
    {
      if !HasAdmin(users) {
        return 403;
      }
      var name := TrimSpace(username);
      var address := NormalizeEmail(email);
      if !ValidUsername(name) || address == "" || !ValidPassword(password) {
        return 400;
      }
      if Registered(users, name, address) {
        return 409;
      }
      var id := Insert(User(name, address, password, Member, Active));
      var persisted := StartSession(digest, id, now);
      code := if persisted then 201 else 500;
    }

    method HandleCreate(username: string, email: string, password: string, role: Role) returns (code: int)
      modifies this
      ensures Reply(State(), code) == Create(old(State()), username, email, password, role)
    {
      var name := TrimSpace(username);
      var address := NormalizeEmail(email);
      if !ValidUsername(name) || address == "" || !ValidPassword(password) {
        return 400;
      }
      if Registered(users, name, address) {
        return 409;
      }
      var _ := Insert(User(name, address, password, role, Active));
      code := 201;
    }

    method HandleLogin(digest: string, account: string, password: string, now: int) returns (code: int)
      modifies this`sessions
      ensures Reply(State(), code) == Login(old(State()), digest, account, password, now)
    {
      if TrimSpace(account) == "" || password == "" {
        return 400;
      }
      var found := First(State(), ByAccount(TrimSpace(account)));
      if found.None? {
        return 401;
      }
      var u := users[found.value];
      if u.status != Active {
        return 403;
      }
      if u.password == "" {
        return 409;
      }
      if u.password != password {
        return 401;
      }
      var persisted := StartSession(digest, found.value, now);
      code := if persisted then 200 else 500;
    }

    method HandlePasskeyLogin(digest: string, id: nat, verified: bool, now: int) returns (code: int)
      modifies this`sessions
      ensures Reply(State(), code) == PasskeyLogin(old(State()), digest, id, verified, now)
    {
      if id !in users || users[id].status != Active {
        return 401;
      }
      if !verified {
        return 401;
      }
      var persisted := StartSession(digest, id, now);
      code := if persisted then 200 else 500;
    }

    method HandleAdminKey(digest: string, key: string, given: string, now: int) returns (code: int)
      modifies this`sessions
      ensures Reply(State(), code) == AdminKey(old(State()), digest, key, given, now)
    {
      if key == "" {
        return 404;
      }
      if given == "" || given != key {
        return 401;
      }
      var persisted := StartSession(digest, 0, now);
      code := if persisted then 200 else 500;
    }

    method HandleLogout(digest: string) returns (code: int)
      modifies this`sessions
      ensures Reply(State(), code) == Logout(old(State()), digest)
    {
      sessions := sessions - {digest};
      code := 200;
    }

    method HandleUpdateRole(id: nat, role: Role) returns (code: int)
      modifies this`users
      ensures Reply(State(), code) == UpdateRole(old(State()), id, role)
    {
      if id == 0 {
        return 400;
      }
      if id !in users {
        return 404;
      }
      var target := users[id];
      if target.role == role {
        return 200;
      }
      if target.role == Admin && !OtherActiveAdmin(users, id) {
        return 409;
      }
      users := users[id := target.(role := role)];
      code := 200;
    }

    method HandleUpdateStatus(actor: nat, id: nat, status: Status) returns (code: int)
      modifies this`users, this`sessions
      ensures Reply(State(), code) == UpdateStatus(old(State()), actor, id, status)
    {
      if id == 0 {
        return 400;
      }
      if id !in users {
        return 404;
      }
      var target := users[id];
      if actor == id && status == Disabled {
        return 409;
      }
      if target.role == Admin && status == Disabled && !OtherActiveAdmin(users, id) {
        return 409;
      }
      users := users[id := target.(status := status)];
      if status == Disabled {
        DropSessions(id);
      }
      code := 200;
    }

    method HandleResetPassword(id: nat, password: string) returns (code: int)
      modifies this`users, this`sessions
      ensures Reply(State(), code) == ResetPassword(old(State()), id, password)
    {
      if id == 0 || !ValidPassword(password) {
        return 400;
      }
      if id !in users {
        return 404;
      }
      users := users[id := users[id].(password := password)];
      DropSessions(id);
      code := 200;
    }

    method HandleDelete(actor: nat, id: nat) returns (code: int)
      modifies this
      ensures Reply(State(), code) == Delete(old(State()), actor, id)
    {
      if id == 0 {
        return 400;
      }
      if id !in users {
        return 404;
      }
      if actor == id {
        return 409;
      }
      if users[id].role == Admin && !OtherActiveAdmin(users, id) {
        return 409;
      }
      users := users - {id};
      DropSessions(id);
      tokens := map k | k in tokens && tokens[k] != id :: tokens[k];
      code := 200;
    }

    /** The second half of a reset by mailed code. */
    method ApplyReset(email: string, password: string) returns (code: int)
      modifies this`users, this`sessions
      ensures Reply(State(), code) == ResetByEmail(old(State()), email, password)
    {
      var found := First(State(), ByEmail(email));
      if found.None? {
        return 400;
      }
      var u := users[found.value];
      if u.status != Active {
        return 403;
      }
      users := users[found.value := u.(password := password)];
      DropSessions(found.value);
      code := 200;
    }

    /** The session check of every console request. */
    method CheckSession(digest: string, now: int) returns (caller: Option<nat>)
      modifies this`sessions
      ensures caller == Caller(old(State()), digest, now)
      ensures State() == Authenticate(old(State()), digest, now)
    {
      if digest !in sessions {
        return None;
      }
      var session := sessions[digest];
      if now > session.expires {
        sessions := sessions - {digest};
        return None;
      }
      if session.userId == 0 {
        return Some(0);
      }
      if session.userId !in users || users[session.userId].status != Active {
        return None;
      }
      caller := Some(session.userId);
    }

    method HandleCreateToken(digest: string, key: string, now: int) returns (code: int)
      modifies this`sessions, this`tokens
      ensures Reply(State(), code) == CreateToken(old(State()), digest, key, now)
    {
      var caller := CheckSession(digest, now);
      if caller.None? || caller.value == 0 {
        return 401;
      }
      if key in tokens {
        return 500;
      }
      tokens := tokens[key := caller.value];
      code := 201;
    }
  }
}
