/** The life of a mailed password-reset code (internal/handler/auth.go:295-455). Handlers are single steps;
    a code's hash is identified with the code; time is in seconds. No handler marks a code as used, so the
    filter on unused codes lets all of them through. */
module ResetCodes {
  import opened Options
  import opened Text
  import opened Accounts
  import AccountSafety
  import AccountEffects

  const CODE_TTL := 300
  const MAX_ATTEMPTS := 5
  const RESEND_COOLDOWN := 60

  datatype Code = Code(email: string, secret: string, attempts: int, expires: int, created: int)

  /** The rows of codes, whose ids are handed out in order. */
  datatype Rows = Rows(codes: map<nat, Code>, last: nat)

  datatype World = World(db: Db, rows: Rows)

  predicate SixDigits(code: string) {
    |code| == 6 && forall c :: c in code ==> '0' <= c <= '9'
  }

  /** The latest row of an address, among the ids up to a bound. */
  function Latest(codes: map<nat, Code>, email: string, upTo: nat): (r: Option<nat>)
    ensures r.Some? ==> 0 < r.value <= upTo && r.value in codes && codes[r.value].email == email
    ensures forall id :: 0 < id <= upTo && id in codes && codes[id].email == email ==>
              r.Some? && codes[id].created <= codes[r.value].created
  {
    if upTo == 0 then None
    else
      var best := Latest(codes, email, upTo - 1);
      if upTo in codes && codes[upTo].email == email && (best.None? || codes[best.value].created <= codes[upTo].created)
      then Some(upTo) else best
  }

  function DropAddress(codes: map<nat, Code>, email: string): map<nat, Code> {
    map id | id in codes && codes[id].email != email :: codes[id]
  }

  predicate CoolingDown(r: Rows, email: string, now: int) {
    var last := Latest(r.codes, email, r.last);
    last.Some? && now - r.codes[last.value].created < RESEND_COOLDOWN
  }

  /* ---------------------------------------------------------------- what happens to the rows */

  /** What a request does to the codes: nothing, a new code mailed or not, a row found lapsed or used up,
      a wrong or an accepted try. */
  datatype Event =
    | Idle(now: int)
    | Issued(now: int, email: string, secret: string, delivered: bool)
    | Lapsed(now: int, id: nat)
    | Exhausted(now: int, id: nat)
    | Wrong(now: int, id: nat)
    | Accepted(now: int, id: nat, email: string)

  function Record(r: Rows, e: Event): Rows {
    match e
    case Idle(_) => r
    case Issued(now, email, secret, delivered) =>
      var id, others := r.last + 1, DropAddress(r.codes, email);
      Rows(if delivered then others[id := Code(email, secret, 0, now + CODE_TTL, now)] else others - {id}, id)
    case Lapsed(_, id) => r.(codes := r.codes - {id})
    case Exhausted(_, id) => r.(codes := r.codes - {id})
    case Wrong(_, id) =>
      if id in r.codes then r.(codes := r.codes[id := r.codes[id].(attempts := r.codes[id].attempts + 1)]) else r
    case Accepted(_, _, email) => r.(codes := DropAddress(r.codes, email))
  }

  /** When each event happens. */
  predicate Possible(r: Rows, e: Event) {
    match e
    case Idle(_) => true
    case Issued(now, email, _, _) => !CoolingDown(r, email, now)
    case Lapsed(now, id) => id in r.codes && now > r.codes[id].expires
    case Exhausted(now, id) => id in r.codes && r.codes[id].attempts >= MAX_ATTEMPTS
    case Wrong(now, id) => id in r.codes && r.codes[id].attempts < MAX_ATTEMPTS
    case Accepted(now, id, email) => id in r.codes && r.codes[id].email == email
  }

  /* ---------------------------------------------------------------- the handlers */

  predicate HasAccount(db: Db, email: string) {
    exists id :: id in db.users && db.users[id].email == email
  }

  function SendEvent(w: World, rawEmail: string, secret: string, delivered: bool, now: int): (e: Event)
    ensures Possible(w.rows, e) && e.now == now && (e.Idle? || e.Issued?)
  {
    var email := NormalizeEmail(rawEmail);
    if email == "" || CoolingDown(w.rows, email, now) || !HasAccount(w.db, email) then Idle(now)
    else Issued(now, email, secret, delivered)
  }

  function SendAnswer(w: World, rawEmail: string, delivered: bool, now: int): int {
    var email := NormalizeEmail(rawEmail);
    if email == "" then 400
    else if CoolingDown(w.rows, email, now) then 429
    else if !HasAccount(w.db, email) || delivered then 200
    else 500
  }

  predicate WellFormed(rawEmail: string, given: string, password: string) {
    NormalizeEmail(rawEmail) != "" && SixDigits(given) && ValidPassword(password)
  }

  function ResetEvent(w: World, rawEmail: string, given: string, password: string, now: int): (e: Event)
    ensures Possible(w.rows, e) && e.now == now && !e.Issued?
    ensures e.Accepted? ==> e.email == NormalizeEmail(rawEmail)
  {
    var codes, found := w.rows.codes, Latest(w.rows.codes, NormalizeEmail(rawEmail), w.rows.last);
    if !WellFormed(rawEmail, given, password) || found.None? then Idle(now)
    else
      var id := found.value;
      if now > codes[id].expires then Lapsed(now, id)
      else if codes[id].attempts >= MAX_ATTEMPTS then Exhausted(now, id)
      else if codes[id].secret != given then Wrong(now, id)
      else Accepted(now, id, NormalizeEmail(rawEmail))
  }

  function ResetReply(w: World, rawEmail: string, given: string, password: string, now: int): Reply {
    var e := ResetEvent(w, rawEmail, given, password, now);
    if e.Accepted? then ResetByEmail(w.db, e.email, password) else Reply(w.db, 400)
  }

  /** The two handlers, in front of the account server. */
  class CodeDesk {
    const server: Server
    var codes: map<nat, Code>
    var lastCode: nat

    constructor (server: Server)
      ensures this.server == server && codes == map[] && lastCode == 0
    {
      this.server := server;
      codes, lastCode := map[], 0;
    }

    function State(): World
      reads this, server
    {
      World(server.State(), Rows(codes, lastCode))
    }

    /** Without a complete mail configuration nothing happens. */
    method SendCode(configured: bool, rawEmail: string, secret: string, delivered: bool, now: int) returns (code: int)
      modifies this
      ensures server.State() == old(server.State())
      ensures State().rows == if configured
              then Record(old(State()).rows, SendEvent(old(State()), rawEmail, secret, delivered, now))
              else old(State()).rows
      ensures code == if configured then SendAnswer(old(State()), rawEmail, delivered, now) else 503
    {
      if !configured {
        return 503;
      }
      var email := NormalizeEmail(rawEmail);
      if email == "" {
        return 400;
      }
      var last := Latest(codes, email, lastCode);
      if last.Some? && now - codes[last.value].created < RESEND_COOLDOWN {
        return 429;
      }
      if !HasAccount(server.State(), email) {
        return 200;
      }
      codes := map id | id in codes && codes[id].email != email :: codes[id];
      assert codes == DropAddress(old(codes), email);
      lastCode := lastCode + 1;
      ghost var others := codes;
      codes := codes[lastCode := Code(email, secret, 0, now + CODE_TTL, now)];
      if !delivered {
        codes := codes - {lastCode};
        assert codes == others - {lastCode};
        return 500;
      }
      code := 200;
    }

    method ResetPassword(rawEmail: string, given: string, password: string, now: int) returns (code: int)
      modifies this`codes, server`users, server`sessions
      ensures Reply(server.State(), code) == ResetReply(old(State()), rawEmail, given, password, now)
      ensures State().rows == Record(old(State()).rows, ResetEvent(old(State()), rawEmail, given, password, now))
    {
      var email := NormalizeEmail(rawEmail);
      if email == "" {
        return 400;
      }
      if !SixDigits(given) {
        return 400;
      }
      if !ValidPassword(password) {
        return 400;
      }
      var found := Latest(codes, email, lastCode);
      if found.None? {
        return 400;
      }
      var id := found.value;
      var rec := codes[id];
      if now > rec.expires {
        codes := codes - {id};
        return 400;
      }
      if rec.attempts >= MAX_ATTEMPTS {
        codes := codes - {id};
        return 400;
      }
      if rec.secret != given {
        codes := codes[id := rec.(attempts := rec.attempts + 1)];
        return 400;
      }
      codes := map i | i in codes && codes[i].email != email :: codes[i];
      assert codes == DropAddress(old(codes), email);
      code := server.ApplyReset(email, password);
    }
  }

  /* ---------------------------------------------------------------- the history of the rows */

  const NO_ROWS := Rows(map[], 0)

  function After(es: seq<Event>): Rows {
    if es == [] then NO_ROWS else Record(After(Init(es)), Last(es))
  }

  /** Events happen only when they can, and time never runs backwards. */
  predicate History(es: seq<Event>) {
    es == [] ||
    (&& History(Init(es)) && Possible(After(Init(es)), Last(es))
     && (Init(es) != [] ==> Last(Init(es)).now <= Last(es).now))
  }

  lemma ExtendHistory(es: seq<Event>, e: Event)
    requires History(es) && Possible(After(es), e) && (es != [] ==> Last(es).now <= e.now)
    ensures History(es + [e]) && After(es + [e]) == Record(After(es), e)
  {
  }

  /** Ids are handed out in order, and an address has at most one row. */
  predicate Tidy(r: Rows) {
    && (forall id :: id in r.codes ==> 0 < id <= r.last)
    && (forall a, b :: a in r.codes && b in r.codes && a != b ==> r.codes[a].email != r.codes[b].email)
  }

  lemma RecordKeepsTidy(r: Rows, e: Event)
    requires Tidy(r)
    ensures Tidy(Record(r, e)) && r.last <= Record(r, e).last
  {
  }

  /** At any time there is at most one code per address. */
  lemma {:induction false} OneCodePerAddress(es: seq<Event>)
    ensures Tidy(After(es))
  {
    if es != [] {
      OneCodePerAddress(Init(es));
      RecordKeepsTidy(After(Init(es)), Last(es));
    }
  }

  /** How often a code was compared and found wrong, and how often it was accepted. */
  function WrongTries(es: seq<Event>, id: nat): nat {
    if es == [] then 0
    else WrongTries(Init(es), id) + if Last(es).Wrong? && Last(es).id == id then 1 else 0
  }

  function Acceptances(es: seq<Event>, id: nat): nat {
    if es == [] then 0
    else Acceptances(Init(es), id) + if Last(es).Accepted? && Last(es).id == id then 1 else 0
  }

  /** The event replaces or accepts the code of an address. */
  predicate Supersedes(e: Event, email: string) {
    (e.Issued? || e.Accepted?) && e.email == email
  }

  /** A row that is still there was not superseded; only a wrong try changes it, by counting. */
  lemma RowAfter(r: Rows, e: Event, id: nat)
    requires Tidy(r) && Possible(r, e) && id <= r.last && id in Record(r, e).codes
    ensures id in r.codes && !Supersedes(e, r.codes[id].email)
    ensures !((e.Accepted? || e.Exhausted?) && e.id == id)
    ensures Record(r, e).codes[id] ==
            if e.Wrong? && e.id == id then r.codes[id].(attempts := r.codes[id].attempts + 1) else r.codes[id]
  {
  }

  /** A code is compared wrongly at most five times and accepted at most once; its row counts the wrong
      comparisons. */
  lemma {:induction false} TriesAreBounded(es: seq<Event>, id: nat)
    requires History(es)
    ensures WrongTries(es, id) <= MAX_ATTEMPTS && Acceptances(es, id) <= 1
    ensures id > After(es).last ==> WrongTries(es, id) == 0 && Acceptances(es, id) == 0
    ensures id in After(es).codes ==> After(es).codes[id].attempts == WrongTries(es, id) && Acceptances(es, id) == 0
  {
    OneCodePerAddress(es);
    if es != [] {
      var r, e := After(Init(es)), Last(es);
      OneCodePerAddress(Init(es));
      RecordKeepsTidy(r, e);
      TriesAreBounded(Init(es), id);
      if id <= r.last && id in After(es).codes {
        RowAfter(r, e, id);
      }
    }
  }

  /* ---------------------------------------------------------------- which codes stand */

  /** Event i mailed the code id to an address. */
  predicate Mailed(es: seq<Event>, i: nat, email: string, id: nat) {
    i < |es| && es[i].Issued? && es[i].delivered && es[i].email == email && id == After(es[..i]).last + 1
  }

  predicate Superseded(es: seq<Event>, i: nat, email: string) {
    exists m :: i < m < |es| && Supersedes(es[m], email)
  }

  /** The row of a code was found used up and deleted. */
  predicate Discarded(es: seq<Event>, id: nat) {
    exists m :: 0 <= m < |es| && es[m].Exhausted? && es[m].id == id
  }

  /** The last code mailed to an address, neither replaced nor accepted since, nor deleted as used up. */
  predicate Kept(es: seq<Event>, i: nat, email: string, id: nat) {
    Mailed(es, i, email, id) && !Superseded(es, i, email) && !Discarded(es, id)
  }

  /** The last code mailed to an address, neither replaced nor accepted since, nor tried wrongly five times. */
  predicate Stands(es: seq<Event>, i: nat, email: string, id: nat) {
    Mailed(es, i, email, id) && !Superseded(es, i, email) && WrongTries(es, id) < MAX_ATTEMPTS
  }

  lemma {:induction false} DiscardedStep(es: seq<Event>, id: nat)
    requires es != []
    ensures Discarded(es, id) <==> Discarded(Init(es), id) || (Last(es).Exhausted? && Last(es).id == id)
  {
    if Discarded(es, id) && !(Last(es).Exhausted? && Last(es).id == id) {
      var m :| 0 <= m < |es| && es[m].Exhausted? && es[m].id == id;
      assert Init(es)[m] == es[m];
    }
    if Discarded(Init(es), id) {
      var m :| 0 <= m < |Init(es)| && Init(es)[m].Exhausted? && Init(es)[m].id == id;
      assert es[m] == Init(es)[m];
    }
  }

  /** Only a code that was issued and tried wrongly five times is deleted as used up. */
  lemma {:induction false} DiscardedWasUsedUp(es: seq<Event>, id: nat)
    requires History(es) && Discarded(es, id)
    ensures WrongTries(es, id) >= MAX_ATTEMPTS && id <= After(es).last
  {
    DiscardedStep(es, id);
    OneCodePerAddress(Init(es));
    RecordKeepsTidy(After(Init(es)), Last(es));
    if Discarded(Init(es), id) {
      DiscardedWasUsedUp(Init(es), id);
    } else {
      TriesAreBounded(Init(es), id);
    }
  }

  lemma MailedBefore(es: seq<Event>, i: nat, email: string, id: nat)
    requires es != [] && i < |es| - 1
    ensures Mailed(es, i, email, id) <==> Mailed(Init(es), i, email, id)
    ensures Superseded(es, i, email) <==> Superseded(Init(es), i, email) || Supersedes(Last(es), email)
  {
    assert Init(es)[..i] == es[..i];
    if Superseded(es, i, email) && !Supersedes(Last(es), email) {
      var m :| i < m < |es| && Supersedes(es[m], email);
      assert Supersedes(Init(es)[m], email);
    }
    if Superseded(Init(es), i, email) {
      var m :| i < m < |Init(es)| && Supersedes(Init(es)[m], email);
      assert Supersedes(es[m], email);
    }
  }

  lemma RowStays(r: Rows, e: Event, id: nat)
    requires Tidy(r) && Possible(r, e) && id in r.codes && !(e.Exhausted? && e.id == id)
    requires e.now <= r.codes[id].expires && !Supersedes(e, r.codes[id].email)
    ensures id in Record(r, e).codes
    ensures Record(r, e).codes[id] == r.codes[id].(attempts := Record(r, e).codes[id].attempts)
  {
  }

  /** The row a mailing creates. */
  predicate RowOf(c: Code, e: Event) {
    e.Issued? && c.email == e.email && c.secret == e.secret && c.created == e.now && c.expires == e.now + CODE_TTL
  }

  /** A kept code is in the table until it lapses. */
  lemma {:induction false} KeptIsStored(es: seq<Event>, i: nat, email: string, id: nat)
    requires History(es) && Kept(es, i, email, id) && Last(es).now <= es[i].now + CODE_TTL
    ensures id in After(es).codes && RowOf(After(es).codes[id], es[i])
  {
    if i == |es| - 1 {
      assert es[..i] == Init(es);
    } else {
      MailedBefore(es, i, email, id);
      DiscardedStep(es, id);
      KeptIsStored(Init(es), i, email, id);
      OneCodePerAddress(Init(es));
      RowStays(After(Init(es)), Last(es), id);
    }
  }

  /** Every row is the last code mailed to its address, neither replaced nor accepted since, nor deleted. */
  lemma {:induction false} StoredWasMailed(es: seq<Event>, id: nat) returns (i: nat)
    requires History(es) && id in After(es).codes
    ensures Kept(es, i, After(es).codes[id].email, id) && RowOf(After(es).codes[id], es[i])
  {
    assert es != [];
    var r, e := After(Init(es)), Last(es);
    OneCodePerAddress(Init(es));
    DiscardedStep(es, id);
    if id <= r.last {
      RowAfter(r, e, id);
      i := StoredWasMailed(Init(es), id);
      MailedBefore(es, i, r.codes[id].email, id);
    } else {
      i := |es| - 1;
      assert Init(es) == es[..i];
      if Discarded(Init(es), id) {
        DiscardedWasUsedUp(Init(es), id);
      }
    }
  }

  lemma LatestIsOnly(r: Rows, email: string, id: nat)
    requires Tidy(r) && id in r.codes && r.codes[id].email == email
    ensures Latest(r.codes, email, r.last) == Some(id)
  {
  }

  /** The cooldown refuses a code exactly when one was mailed to the address less than a minute ago that was
      neither replaced or accepted since, nor deleted as used up. */
  lemma CoolingDownExactly(es: seq<Event>, email: string, now: int)
    requires History(es) && (es != [] ==> Last(es).now <= now)
    ensures CoolingDown(After(es), email, now) <==>
            exists i: nat, id: nat :: Kept(es, i, email, id) && now < es[i].now + RESEND_COOLDOWN
  {
    OneCodePerAddress(es);
    if CoolingDown(After(es), email, now) {
      var _ := StoredWasMailed(es, Latest(After(es).codes, email, After(es).last).value);
    }
    forall i: nat, id: nat | Kept(es, i, email, id) && now < es[i].now + RESEND_COOLDOWN
      ensures CoolingDown(After(es), email, now)
    {
      KeptIsStored(es, i, email, id);
      LatestIsOnly(After(es), email, id);
    }
  }

  /* ---------------------------------------------------------------- runs of the handlers */

  datatype Op =
    | SendOp(email: string, secret: string, delivered: bool, now: int)
    | ResetOp(email: string, given: string, password: string, now: int)
    | AccountOp(op: AccountSafety.Op, now: int)

  function EventOf(w: World, op: Op): (e: Event)
    ensures Possible(w.rows, e) && e.now == op.now
  {
    match op
    case SendOp(email, secret, delivered, now) => SendEvent(w, email, secret, delivered, now)
    case ResetOp(email, given, password, now) => ResetEvent(w, email, given, password, now)
    case AccountOp(_, now) => Idle(now)
  }

  function DbAfter(w: World, op: Op): Db {
    match op
    case SendOp(_, _, _, _) => w.db
    case ResetOp(email, given, password, now) => ResetReply(w, email, given, password, now).db
    case AccountOp(op, _) => AccountSafety.Step(w.db, op)
  }

  function Next(w: World, op: Op): World {
    World(DbAfter(w, op), Record(w.rows, EventOf(w, op)))
  }

  function Run(ops: seq<Op>): World {
    if ops == [] then World(EMPTY, NO_ROWS) else Next(Run(Init(ops)), Last(ops))
  }

  function Events(ops: seq<Op>): (es: seq<Event>)
    ensures |es| == |ops|
  {
    if ops == [] then [] else Events(Init(ops)) + [EventOf(Run(Init(ops)), Last(ops))]
  }

  predicate InOrder(ops: seq<Op>) {
    forall i, j :: 0 <= i < j < |ops| ==> ops[i].now <= ops[j].now
  }

  lemma {:induction false} EventTimes(ops: seq<Op>)
    ensures forall i :: 0 <= i < |ops| ==> Events(ops)[i].now == ops[i].now
  {
    if ops != [] {
      EventTimes(Init(ops));
    }
  }

  /** The rows of a run are those its events leave, and its events form a history. */
  lemma {:induction false} RunHasHistory(ops: seq<Op>)
    requires InOrder(ops)
    ensures After(Events(ops)) == Run(ops).rows && History(Events(ops))
  {
    if ops != [] {
      var before, e := Events(Init(ops)), EventOf(Run(Init(ops)), Last(ops));
      RunHasHistory(Init(ops));
      assert before != [] ==> Last(before).now <= e.now by {
        EventTimes(Init(ops));
      }
      ExtendHistory(before, e);
    }
  }

  lemma {:induction false} EventAt(ops: seq<Op>, i: nat)
    requires i < |ops|
    ensures Events(ops)[i] == EventOf(Run(ops[..i]), ops[i])
  {
    if i < |ops| - 1 {
      assert Init(ops)[..i] == ops[..i];
      EventAt(Init(ops), i);
    } else {
      assert Init(ops) == ops[..i];
    }
  }

  /** A code issued in a run is the one that request made. */
  lemma {:induction false} IssuedByRequest(ops: seq<Op>, i: nat)
    requires i < |ops| && Events(ops)[i].Issued?
    ensures ops[i].SendOp?
    ensures Events(ops)[i] == Issued(ops[i].now, NormalizeEmail(ops[i].email), ops[i].secret, ops[i].delivered)
  {
    EventAt(ops, i);
  }

  /** The code issued by event i still lets its address in at a given time. */
  predicate Opens(es: seq<Event>, i: nat, email: string, given: string, now: int) {
    && i < |es| && es[i].Issued? && es[i].secret == given && now <= es[i].now + CODE_TTL
    && Stands(es, i, email, After(es[..i]).last + 1)
  }

  /** The row that is looked up lets the code in. */
  predicate Matching(r: Rows, email: string, given: string, now: int) {
    var found := Latest(r.codes, email, r.last);
    && found.Some?
    && var c := r.codes[found.value];
       c.secret == given && now <= c.expires && c.attempts < MAX_ATTEMPTS
  }

  lemma AcceptedMatches(w: World, email: string, given: string, password: string, now: int)
    ensures ResetEvent(w, email, given, password, now).Accepted? <==>
            WellFormed(email, given, password) && Matching(w.rows, NormalizeEmail(email), given, now)
  {
  }

  lemma MatchingOpens(es: seq<Event>, email: string, given: string, now: int) returns (i: nat)
    requires History(es) && Matching(After(es), email, given, now)
    ensures Opens(es, i, email, given, now)
  {
    var id := Latest(After(es).codes, email, After(es).last).value;
    TriesAreBounded(es, id);
    i := StoredWasMailed(es, id);
  }

  lemma OpeningMatches(es: seq<Event>, i: nat, email: string, given: string, now: int)
    requires History(es) && Opens(es, i, email, given, now) && Last(es).now <= now
    ensures Matching(After(es), email, given, now)
  {
    var id := After(es[..i]).last + 1;
    if Discarded(es, id) {
      DiscardedWasUsedUp(es, id);
    }
    OneCodePerAddress(es);
    KeptIsStored(es, i, email, id);
    LatestIsOnly(After(es), email, id);
    TriesAreBounded(es, id);
  }

  lemma MatchingExactly(es: seq<Event>, email: string, given: string, now: int)
    requires History(es) && (es != [] ==> Last(es).now <= now)
    ensures Matching(After(es), email, given, now) <==> exists i: nat :: Opens(es, i, email, given, now)
  {
    if Matching(After(es), email, given, now) {
      var _ := MatchingOpens(es, email, given, now);
    }
    forall i: nat | Opens(es, i, email, given, now) ensures Matching(After(es), email, given, now) {
      OpeningMatches(es, i, email, given, now);
    }
  }

  /** A reset is accepted exactly when it is well formed and gives the code that was last mailed to the
      address, no more than five minutes ago, and that was neither replaced nor accepted since, nor tried
      wrongly five times. */
  lemma AcceptedExactly(ops: seq<Op>, email: string, given: string, password: string, now: int)
    requires InOrder(ops) && (ops != [] ==> Last(ops).now <= now)
    ensures ResetEvent(Run(ops), email, given, password, now).Accepted? <==>
            WellFormed(email, given, password)
            && exists i: nat :: Opens(Events(ops), i, NormalizeEmail(email), given, now)
  {
    EventsInTime(ops, now);
    AcceptedMatches(Run(ops), email, given, password, now);
    MatchingExactly(Events(ops), NormalizeEmail(email), given, now);
  }

  /** The history of a run, up to a time that is not before its end. */
  lemma EventsInTime(ops: seq<Op>, now: int)
    requires InOrder(ops) && (ops != [] ==> Last(ops).now <= now)
    ensures History(Events(ops)) && After(Events(ops)) == Run(ops).rows
    ensures Events(ops) != [] ==> Last(Events(ops)).now <= now
  {
    RunHasHistory(ops);
    EventTimes(ops);
  }

  /** A request makes a code exactly when its address is registered and no code that was mailed to it less
      than a minute ago is still kept. */
  lemma IssuedExactly(ops: seq<Op>, rawEmail: string, secret: string, delivered: bool, now: int)
    requires InOrder(ops) && (ops != [] ==> Last(ops).now <= now)
    ensures var email := NormalizeEmail(rawEmail);
            SendEvent(Run(ops), rawEmail, secret, delivered, now).Issued? <==>
            && email != "" && HasAccount(Run(ops).db, email)
            && !exists i: nat, id: nat :: Kept(Events(ops), i, email, id) && now < Events(ops)[i].now + RESEND_COOLDOWN
  {
    EventsInTime(ops, now);
    CoolingDownExactly(Events(ops), NormalizeEmail(rawEmail), now);
  }

  /* ---------------------------------------------------------------- the cooldown is no limit */

  function Repeated(op: Op, n: nat): seq<Op> {
    if n == 0 then [] else Repeated(op, n - 1) + [op]
  }

  lemma RunSnoc(ops: seq<Op>, op: Op)
    ensures Run(ops + [op]) == Next(Run(ops), op)
  {
    assert Init(ops + [op]) == ops;
  }

  /** A reset that names another code than the row's. */
  predicate WrongTry(w: World, id: nat, op: Op) {
    && op.ResetOp? && WellFormed(op.email, op.given, op.password) && Tidy(w.rows) && id in w.rows.codes
    && w.rows.codes[id].email == NormalizeEmail(op.email) && w.rows.codes[id].secret != op.given
    && op.now <= w.rows.codes[id].expires
  }

  /** The row after n wrong tries, and after it was found used up. */
  function Tried(w: World, id: nat, n: nat): World {
    if id in w.rows.codes && n <= MAX_ATTEMPTS
    then w.(rows := Rows(w.rows.codes[id := w.rows.codes[id].(attempts := n)], w.rows.last))
    else w.(rows := w.rows.(codes := w.rows.codes - {id}))
  }

  lemma WrongTryNext(w: World, id: nat, op: Op, n: nat)
    requires WrongTry(w, id, op) && n <= MAX_ATTEMPTS
    ensures Next(Tried(w, id, n), op) == Tried(w, id, n + 1)
  {
    var w', email := Tried(w, id, n), NormalizeEmail(op.email);
    assert Tidy(w'.rows) && w'.rows.codes[id].email == email;
    TryEvent(w', id, op);
    assert w'.rows.codes - {id} == w.rows.codes - {id};
  }

  /** What becomes of a wrong try before the code lapses. */
  lemma TryEvent(w: World, id: nat, op: Op)
    requires WrongTry(w, id, op)
    ensures EventOf(w, op) ==
            if w.rows.codes[id].attempts < MAX_ATTEMPTS then Wrong(op.now, id) else Exhausted(op.now, id)
    ensures DbAfter(w, op) == w.db
  {
    LatestIsOnly(w.rows, NormalizeEmail(op.email), id);
  }

  /** Steps that follow stages, whatever they do. */
  lemma {:induction false} StagesInARow(run: seq<Op> -> World, stage: nat -> World, ops: seq<Op>, op: Op, n: nat)
    requires run(ops) == stage(0)
    requires forall xs, k: nat :: k < n && run(xs) == stage(k) ==> run(xs + [op]) == stage(k + 1)
    ensures run(ops + Repeated(op, n)) == stage(n)
  {
    if n == 0 {
      assert ops + Repeated(op, 0) == ops;
    } else {
      StagesInARow(run, stage, ops, op, n - 1);
      assert ops + Repeated(op, n) == ops + Repeated(op, n - 1) + [op];
    }
  }

  lemma {:induction false} WrongTriesInARow(ops: seq<Op>, w: World, op: Op, id: nat)
    requires WrongTry(w, id, op) && Run(ops) == Tried(w, id, 0)
    ensures Run(ops + Repeated(op, MAX_ATTEMPTS + 1)) == Tried(w, id, MAX_ATTEMPTS + 1)
  {
    var stage := (k: nat) => Tried(w, id, k);
    forall xs, k: nat | k <= MAX_ATTEMPTS && Run(xs) == stage(k) ensures Run(xs + [op]) == stage(k + 1) {
      RunSnoc(xs, op);
      WrongTryNext(w, id, op, k);
    }
    StagesInARow(Run, stage, ops, op, MAX_ATTEMPTS + 1);
  }

  /** A mailing leaves one row for the address, without tries. */
  lemma MailedNext(w: World, send: Op)
    requires Tidy(w.rows) && send.SendOp? && send.delivered && EventOf(w, send).Issued?
    ensures var w', id := Next(w, send), w.rows.last + 1;
            && w'.db == w.db && Tidy(w'.rows) && id in w'.rows.codes && w' == Tried(w', id, 0)
            && RowOf(w'.rows.codes[id], EventOf(w, send))
  {
    RecordKeepsTidy(w.rows, EventOf(w, send));
  }

  /** Without the row of an address, its next code is made at once. */
  lemma NoRowNoCooldown(w: World, id: nat, email: string, now: int)
    requires Tidy(w.rows) && id in w.rows.codes && w.rows.codes[id].email == email
    ensures !CoolingDown(w.rows.(codes := w.rows.codes - {id}), email, now)
  {
  }

  lemma UsedUpNext(w0: World, send: Op, op: Op, secret: string, later: int)
    requires Tidy(w0.rows) && send.SendOp? && send.delivered && EventOf(w0, send).Issued?
    requires op.ResetOp? && op.email == send.email && WellFormed(op.email, op.given, op.password)
    requires op.given != send.secret && op.now <= send.now + CODE_TTL
    ensures var w, id := Next(w0, send), w0.rows.last + 1;
            && WrongTry(w, id, op) && w == Tried(w, id, 0)
            && SendEvent(Tried(w, id, MAX_ATTEMPTS + 1), send.email, secret, true, later).Issued?
  {
    MailedNext(w0, send);
    NoRowNoCooldown(Next(w0, send), w0.rows.last + 1, NormalizeEmail(send.email), later);
  }

  lemma RunIsTidy(ops: seq<Op>)
    requires InOrder(ops)
    ensures Tidy(Run(ops).rows)
  {
    RunHasHistory(ops);
    OneCodePerAddress(Events(ops));
  }

  /** After any run, six wrong tries undo the cooldown of a code that was just mailed: the next code is made
      at once. */
  lemma {:induction false} UsedUpCodeDoesNotCoolDown(ops: seq<Op>, send: Op, op: Op, secret: string, later: int)
    requires send.SendOp? && send.delivered && EventOf(Run(ops), send).Issued?
    requires op.ResetOp? && op.email == send.email && WellFormed(op.email, op.given, op.password)
    requires op.given != send.secret && op.now <= send.now + CODE_TTL && InOrder(ops)
    ensures SendEvent(Run(ops + [send] + Repeated(op, MAX_ATTEMPTS + 1)), send.email, secret, true, later).Issued?
  {
    RunIsTidy(ops);
    UsedUpNext(Run(ops), send, op, secret, later);
    RunSnoc(ops, send);
    WrongTriesInARow(ops + [send], Next(Run(ops), send), op, Run(ops).rows.last + 1);
  }

  /* ---------------------------------------------------------------- what a reset changes */

  /** A request changes a password only as an administrator's reset of that account or as a reset with an
      accepted code; the latter changes the first account with the address, which is active, and leaves it
      no session. */
  lemma PasswordChanges(w: World, op: Op, u: nat)
    requires u in w.db.users && AccountSafety.RowIds(w.db) && !(op.AccountOp? && op.op.ResetByEmailOp?)
    requires u in DbAfter(w, op).users && DbAfter(w, op).users[u].password != w.db.users[u].password
    ensures !op.ResetOp? ==> op.AccountOp? && op.op.PasswordOp? && op.op.id == u
    ensures op.ResetOp? ==>
            && EventOf(w, op).Accepted?
            && First(w.db, ByEmail(NormalizeEmail(op.email))) == Some(u) && w.db.users[u].status == Active
            && DbAfter(w, op) == Revoke(SetUser(w.db, u, w.db.users[u].(password := op.password)), u)
  {
    if op.AccountOp? {
      AccountPasswordChanges(w.db, op.op, u);
    }
  }

  lemma AccountPasswordChanges(db: Db, op: AccountSafety.Op, u: nat)
    requires u in db.users && AccountSafety.RowIds(db) && !op.ResetByEmailOp?
    requires u in AccountSafety.Step(db, op).users
    requires AccountSafety.Step(db, op).users[u].password != db.users[u].password
    ensures op.PasswordOp? && op.id == u
  {
    var e := AccountSafety.EffectOf(db, op);
  }

  lemma {:induction false} RunKeepsRowIds(ops: seq<Op>)
    ensures AccountSafety.RowIds(Run(ops).db)
  {
    if ops != [] {
      RunKeepsRowIds(Init(ops));
      if Last(ops).AccountOp? {
        AccountSafety.StepKeepsRowIds(Run(Init(ops)).db, Last(ops).op);
      }
    }
  }

  /** Behind every password that a reset changes, in any run, there is a request that mailed exactly this
      code to exactly this account's address at most five minutes before. */
  lemma EveryResetHasItsMail(ops: seq<Op>, op: Op, u: nat) returns (i: nat)
    requires InOrder(ops) && (ops != [] ==> Last(ops).now <= op.now) && op.ResetOp?
    requires u in Run(ops).db.users && u in DbAfter(Run(ops), op).users
    requires DbAfter(Run(ops), op).users[u].password != Run(ops).db.users[u].password
    ensures i < |ops| && ops[i].SendOp? && ops[i].delivered && ops[i].secret == op.given
    ensures NormalizeEmail(ops[i].email) == NormalizeEmail(op.email) == Run(ops).db.users[u].email
    ensures op.now <= ops[i].now + CODE_TTL
  {
    RunKeepsRowIds(ops);
    PasswordChanges(Run(ops), op, u);
    AcceptedExactly(ops, op.email, op.given, op.password, op.now);
    i :| Opens(Events(ops), i, NormalizeEmail(op.email), op.given, op.now);
    IssuedByRequest(ops, i);
  }

  /** Each well-formed try at the code of an address is recorded for what it is. */
  lemma TryIsRecorded(w: World, email: string, given: string, password: string, now: int, id: nat)
    requires Tidy(w.rows) && id in w.rows.codes
    ensures WellFormed(email, given, password) && w.rows.codes[id].email == NormalizeEmail(email) ==>
              var c, e := w.rows.codes[id], ResetEvent(w, email, given, password, now);
              && (now > c.expires <==> e == Lapsed(now, id))
              && (now <= c.expires && c.attempts >= MAX_ATTEMPTS <==> e == Exhausted(now, id))
              && (now <= c.expires && c.attempts < MAX_ATTEMPTS && c.secret != given <==> e == Wrong(now, id))
  {
    if w.rows.codes[id].email == NormalizeEmail(email) {
      LatestIsOnly(w.rows, NormalizeEmail(email), id);
    }
  }

  /** What an accepted code does to the account it is for, the oldest with the address: an active one gets the new
      password and loses its sessions, a disabled one stays as it is. */
  ghost predicate TakesEffect(db: Db, db': Db, u: nat, password: string)
    requires u in db.users
  {
    if db.users[u].status != Active then db' == db
    else
      && db'.users == db.users[u := db.users[u].(password := password)]
      && (forall d :: d in db'.sessions <==> d in db.sessions && db.sessions[d].userId != u)
      && (forall d :: d in db'.sessions ==> db'.sessions[d] == db.sessions[d])
      && db'.tokens == db.tokens && db'.lastId == db.lastId
  }

  lemma AcceptedResetTakesEffect(w: World, op: Op, u: nat)
    requires op.ResetOp? && EventOf(w, op).Accepted? && AccountSafety.RowIds(w.db)
    requires AccountEffects.FirstAt(w.db, NormalizeEmail(op.email), u)
    ensures TakesEffect(w.db, Next(w, op).db, u, op.password)
    ensures ResetReply(w, op.email, op.given, op.password, op.now).code ==
            if w.db.users[u].status == Active then 200 else 403
    ensures var codes, email := Next(w, op).rows.codes, NormalizeEmail(op.email);
            && (forall id :: id in codes <==> id in w.rows.codes && w.rows.codes[id].email != email)
            && (forall id :: id in codes ==> codes[id] == w.rows.codes[id])
  {
    AccountEffects.FirstByEmail(w.db, NormalizeEmail(op.email), u);
  }

  /** Whatever else is not accepted leaves all accounts and sessions as they are. */
  lemma RefusedResetChangesNothing(w: World, op: Op)
    requires op.ResetOp? && !EventOf(w, op).Accepted?
    ensures Next(w, op).db == w.db && ResetReply(w, op.email, op.given, op.password, op.now).code == 400
  {
  }

  /** In every run: the code that was last mailed to an address lets its account set a new password, within five
      minutes and unless it was replaced, used or tried wrongly five times. */
  lemma MailedCodeResets(ops: seq<Op>, op: Op, u: nat, i: nat)
    requires InOrder(ops) && (ops != [] ==> Last(ops).now <= op.now) && op.ResetOp?
    requires WellFormed(op.email, op.given, op.password)
    requires Opens(Events(ops), i, NormalizeEmail(op.email), op.given, op.now)
    requires AccountEffects.FirstAt(Run(ops).db, NormalizeEmail(op.email), u)
    ensures TakesEffect(Run(ops).db, Run(ops + [op]).db, u, op.password)
  {
    assert EventOf(Run(ops), op).Accepted? by {
      EventsInTime(ops, op.now);
      OpeningMatches(Events(ops), i, NormalizeEmail(op.email), op.given, op.now);
      AcceptedMatches(Run(ops), op.email, op.given, op.password, op.now);
    }
    RunKeepsRowIds(ops);
    AcceptedResetTakesEffect(Run(ops), op, u);
    RunSnoc(ops, op);
  }

  lemma {:induction false} RunIsWellNamed(ops: seq<Op>)
    ensures AccountSafety.WellNamed(Run(ops).db)
  {
    if ops != [] {
      RunIsWellNamed(Init(ops));
      DbSteps(Run(Init(ops)), Last(ops));
      if DbAfter(Run(Init(ops)), Last(ops)) != Run(Init(ops)).db {
        AccountSafety.StepKeepsWellNamed(Run(Init(ops)).db, AccountOpOf(Last(ops)));
      }
    }
  }

  /** What an operation does to the accounts, if it does anything. */
  function AccountOpOf(op: Op): AccountSafety.Op {
    match op
    case AccountOp(op, _) => op
    case ResetOp(email, _, password, _) => AccountSafety.ResetByEmailOp(NormalizeEmail(email), password)
    case SendOp(_, _, _, _) => AccountSafety.LogoutOp("")
  }

  lemma DbSteps(w: World, op: Op)
    ensures DbAfter(w, op) == w.db || DbAfter(w, op) == AccountSafety.Step(w.db, AccountOpOf(op))
  {
  }

  /** After a reset the account's name signs in with exactly the new password, while names are apart. */
  lemma ResetSignsIn(ops: seq<Op>, op: Op, u: nat, password: string)
    requires op.ResetOp?
    ensures var db := Run(ops).db;
            && EventOf(Run(ops), op).Accepted? && AccountSafety.Distinct(db)
            && AccountEffects.FirstAt(db, NormalizeEmail(op.email), u) && db.users[u].status == Active ==>
            (AccountEffects.SignsIn(Run(ops + [op]).db, db.users[u].username, password, u) <==> password == op.password)
  {
    var w := Run(ops);
    if EventOf(w, op).Accepted? && AccountSafety.Distinct(w.db)
       && AccountEffects.FirstAt(w.db, NormalizeEmail(op.email), u) && w.db.users[u].status == Active {
      RunKeepsRowIds(ops);
      RunIsWellNamed(ops);
      RunSnoc(ops, op);
      AccountEffects.NewPasswordSignsIn(
        w.db, AccountSafety.ResetByEmailOp(NormalizeEmail(op.email), op.password), u, password);
    }
  }

  /** An address that is not registered is answered like one whose code was delivered. Too early a request is
      told so, and so is a failed delivery. */
  lemma SendAnswersExactly(w: World, rawEmail: string, secret: string, delivered: bool, now: int)
    ensures var code, email := SendAnswer(w, rawEmail, delivered, now), NormalizeEmail(rawEmail);
            && code in {200, 400, 429, 500}
            && (code == 400 <==> email == "")
            && (code == 429 <==> email != "" && CoolingDown(w.rows, email, now))
            && (code == 500 <==> SendEvent(w, rawEmail, secret, delivered, now).Issued? && !delivered)
  {
  }
}
