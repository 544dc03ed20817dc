/** One gateway instance of internal/gateway/gateway.go: its channel snapshot, the shared copy, and
    failover over the candidates of a request. Times are nanoseconds. */
module Gateway {
  import opened Options
  import opened Text

  const SECOND := 1_000_000_000
  const CHANNEL_CACHE_TTL := 30 * SECOND
  const REDIS_SNAPSHOT_TTL := 300 * SECOND

  datatype Channel = Channel(
    id: nat, name: string, protocol: string, baseUrl: string, apiKey: string,
    models: string, group: string, status: string, priority: int)

  /* ---------------------------------------------------------------- the snapshot */

  function Active(rows: seq<Channel>): seq<Channel> {
    if rows == [] then []
    else (if rows[0].status == "active" then [rows[0]] else []) + Active(rows[1..])
  }

  function Insert(c: Channel, sorted: seq<Channel>): seq<Channel> {
    if sorted == [] || c.priority >= sorted[0].priority then [c] + sorted
    else [sorted[0]] + Insert(c, sorted[1..])
  }

  /** sort.SliceStable by descending priority. */
  function SortByPriority(rows: seq<Channel>): seq<Channel> {
    if rows == [] then [] else Insert(rows[0], SortByPriority(rows[1..]))
  }

  /** What a read of the channel table yields. */
  function Snapshot(rows: seq<Channel>): seq<Channel> {
    SortByPriority(Active(rows))
  }

  predicate Descending(s: seq<Channel>) {
    forall i, j :: 0 <= i < j < |s| ==> s[i].priority >= s[j].priority
  }

  /** The channels of one priority, in their order. */
  function TierOf(s: seq<Channel>, priority: int): seq<Channel> {
    if s == [] then []
    else (if s[0].priority == priority then [s[0]] else []) + TierOf(s[1..], priority)
  }

  lemma {:induction false} InsertMembers(c: Channel, sorted: seq<Channel>)
    requires Descending(sorted)
    ensures Descending(Insert(c, sorted))
    ensures forall x :: x in Insert(c, sorted) <==> x == c || x in sorted
  {
    if sorted != [] && c.priority < sorted[0].priority {
      var rest := Insert(c, sorted[1..]);
      InsertMembers(c, sorted[1..]);
      forall j | 0 <= j < |rest| ensures sorted[0].priority >= rest[j].priority {
        assert rest[j] in rest;
      }
    }
  }

  lemma {:induction false} InsertIsStable(c: Channel, sorted: seq<Channel>, p: int)
    requires Descending(sorted)
    ensures TierOf(Insert(c, sorted), p) == (if c.priority == p then [c] else []) + TierOf(sorted, p)
  {
    if sorted == [] || c.priority >= sorted[0].priority {
      TierOfCons(c, sorted, p);
    } else {
      var head, tail := sorted[0], sorted[1..];
      InsertIsStable(c, tail, p);
      TierOfCons(head, Insert(c, tail), p);
      TierOfCons(head, tail, p);
      assert sorted == [head] + tail;
      NothingInFront(TierOf(tail, p));
      NothingInFront(TierOf(sorted, p));
    }
  }

  lemma NothingInFront<T>(s: seq<T>)
    ensures [] + s == s
  {
  }

  lemma TierOfCons(c: Channel, s: seq<Channel>, p: int)
    ensures TierOf([c] + s, p) == (if c.priority == p then [c] else []) + TierOf(s, p)
  {
  }

  /** The sort is a stable sort: descending, and every priority keeps its channels in their order. */
  lemma {:induction false} SortIsStable(rows: seq<Channel>)
    ensures Descending(SortByPriority(rows))
    ensures forall p :: TierOf(SortByPriority(rows), p) == TierOf(rows, p)
    ensures forall x :: x in SortByPriority(rows) <==> x in rows
  {
    if rows != [] {
      var sorted := SortByPriority(rows[1..]);
      SortIsStable(rows[1..]);
      InsertMembers(rows[0], sorted);
      forall p ensures TierOf(SortByPriority(rows), p) == TierOf(rows, p) {
        InsertIsStable(rows[0], sorted, p);
      }
    }
  }

  lemma {:induction false} TierOfNone(s: seq<Channel>, p: int)
    requires forall x :: x in s ==> x.priority != p
    ensures TierOf(s, p) == []
  {
    if s != [] { TierOfNone(s[1..], p); }
  }

  lemma {:induction false} TierOfSome(s: seq<Channel>, i: nat)
    requires i < |s|
    ensures TierOf(s, s[i].priority) != []
  {
    if i > 0 { TierOfSome(s[1..], i - 1); }
  }

  lemma NonEmptyHasTier(s: seq<Channel>, none: seq<Channel>)
    requires s != [] && none == []
    ensures exists p :: TierOf(s, p) != TierOf(none, p)
  {
    TierOfSome(s, 0);
    assert TierOf(s, s[0].priority) != TierOf(none, s[0].priority);
  }

  lemma TierOfTail(s: seq<Channel>, p: int)
    requires s != []
    ensures TierOf(s[1..], p) == if s[0].priority == p then TierOf(s, p)[1..] else TierOf(s, p)
  {
  }

  /** Descending order and the order inside each priority determine the list: any stable sort by
      priority, whatever its algorithm, gives this snapshot. */
  lemma {:induction false} StableSortIsUnique(a: seq<Channel>, b: seq<Channel>)
    requires Descending(a) && Descending(b)
    requires forall p :: TierOf(a, p) == TierOf(b, p)
    ensures a == b
  {
    if a == [] && b == [] {
    } else if a == [] {
      NonEmptyHasTier(b, a);
    } else if b == [] {
      NonEmptyHasTier(a, b);
    } else {
      HeadIsHighest(a, b);
      HeadIsHighest(b, a);
      var top := a[0].priority;
      assert TierOf(a, top)[0] == a[0] && TierOf(b, top)[0] == b[0];
      assert TierOf(a, top) == TierOf(b, top);
      forall p ensures TierOf(a[1..], p) == TierOf(b[1..], p) {
        assert TierOf(a, p) == TierOf(b, p);
        TierOfTail(a, p);
        TierOfTail(b, p);
      }
      StableSortIsUnique(a[1..], b[1..]);
      assert a == [a[0]] + a[1..] && b == [b[0]] + b[1..];
    }
  }

  lemma HeadIsHighest(a: seq<Channel>, b: seq<Channel>)
    requires a != [] && b != [] && Descending(a)
    requires forall p :: TierOf(a, p) == TierOf(b, p)
    ensures a[0].priority >= b[0].priority
  {
    if a[0].priority < b[0].priority {
      forall x | x in a ensures x.priority != b[0].priority {
        var i :| 0 <= i < |a| && a[i] == x;
        assert i > 0 ==> a[0].priority >= a[i].priority;
      }
      TierOfSome(b, 0);
      assert TierOf(a, b[0].priority) == TierOf(b, b[0].priority);
      TierOfNone(a, b[0].priority);
    }
  }

  lemma {:induction false} ActiveMembers(rows: seq<Channel>)
    ensures forall x :: x in Active(rows) <==> x in rows && x.status == "active"
  {
    if rows != [] { ActiveMembers(rows[1..]); }
  }

  /** The active rows are taken in the order of the database. */
  lemma {:induction false} ActiveInOrder(a: seq<Channel>, x: Channel, b: seq<Channel>)
    ensures Active(a + [x] + b) == Active(a) + (if x.status == "active" then [x] else []) + Active(b)
    ensures Active([]) == []
  {
    var kept := if x.status == "active" then [x] else [];
    if a == [] {
      assert [] + [x] + b == [x] + b && ([x] + b)[1..] == b;
      NothingInFront(kept);
    } else {
      var head := if a[0].status == "active" then [a[0]] else [];
      ActiveInOrder(a[1..], x, b);
      assert (a + [x] + b)[1..] == a[1..] + [x] + b;
      AppendAssociates(head, Active(a[1..]), kept);
      AppendAssociates(head, Active(a[1..]) + kept, Active(b));
    }
  }

  /** A snapshot holds exactly the active channels, highest priority first. */
  lemma SnapshotIsSortedActive(rows: seq<Channel>)
    ensures Descending(Snapshot(rows))
    ensures forall x :: x in Snapshot(rows) <==> x in rows && x.status == "active"
    ensures forall p :: TierOf(Snapshot(rows), p) == TierOf(Active(rows), p)
  {
    SortIsStable(Active(rows));
    ActiveMembers(rows);
  }

  /* ---------------------------------------------------------------- the shared copy */

  /** The wire form: the channel as JSON shows it, which hides its key, and the key beside it. */
  datatype WireChannel = WireChannel(channel: Channel, sealedKey: string)

  /** What json.Marshal and json.Unmarshal keep of model.Channel, whose APIKey is tagged "-". */
  function AsJson(c: Channel): Channel {
    c.(apiKey := "")
  }

  function ToWire(s: seq<Channel>): seq<WireChannel> {
    seq(|s|, i requires 0 <= i < |s| => WireChannel(AsJson(s[i]), s[i].apiKey))
  }

  function ReviveSnapshot(wire: seq<WireChannel>): seq<Channel> {
    seq(|wire|, i requires 0 <= i < |wire| => wire[i].channel.(apiKey := wire[i].sealedKey))
  }

  /** The sealed keys survive the trip through the shared copy. */
  lemma ReviveToWire(s: seq<Channel>)
    ensures ReviveSnapshot(ToWire(s)) == s
  {
  }

  datatype Copy = Copy(wire: seq<WireChannel>, expires: nat)

  datatype Memory = Memory(channels: seq<Channel>, loaded: Option<nat>)

  predicate Fresh(m: Memory, now: nat) {
    m.loaded.Some? && now - m.loaded.value < CHANNEL_CACHE_TTL
  }

  /** What the shared key holds at a moment. */
  function Lookup(cell: Option<Copy>, now: nat): Option<seq<Channel>> {
    if cell.Some? && now < cell.value.expires then Some(ReviveSnapshot(cell.value.wire)) else None
  }

  /** A list a reload has read but not yet installed. */
  datatype Pending = Pending(snap: seq<Channel>, publish: bool, since: nat)

  /** The reading half of reload; rows is None when the database read fails. */
  function BeginReload(m: Memory, cell: Option<Copy>, now: nat, sharedUp: bool, rows: Option<seq<Channel>>)
    : Option<Pending>
  {
    if Fresh(m, now) then None
    else
      var hit := if sharedUp then Lookup(cell, now) else None;
      if hit.Some? then Some(Pending(hit.value, false, now))
      else if rows.Some? then Some(Pending(Snapshot(rows.value), true, now))
      else None
  }

  /** The installing and publishing half of reload. */
  function FinishReload(p: Pending, cell: Option<Copy>, now: nat, setUp: bool): (Memory, Option<Copy>) {
    (Memory(p.snap, Some(now)),
     if p.publish && setUp then Some(Copy(ToWire(p.snap), now + REDIS_SNAPSHOT_TTL)) else cell)
  }

  /** The key in the shared store. */
  class SharedStore {
    var cell: Option<Copy>

    constructor ()
      ensures cell == None
    {
      cell := None;
    }
  }

  /* ---------------------------------------------------------------- candidates and failover */

  predicate Supports(c: Channel, model: string) {
    model in Pieces(c.models)
  }

  /** Membership of a routing group: an empty name and "default" both mean the default group. */
  predicate InGroup(list: string, group: string) {
    Member(Pieces(list), TrimSpace(group))
  }

  predicate Member(pieces: set<string>, r: string) {
    if r == "" || r == "default" then "" in pieces || "default" in pieces else r in pieces
  }

  predicate Eligible(c: Channel, model: string, group: string) {
    Supports(c, model) && InGroup(c.group, group)
  }

  function Candidates(channels: seq<Channel>, model: string, group: string): seq<Channel> {
    if channels == [] then []
    else (if Eligible(channels[0], model, group) then [channels[0]] else [])
         + Candidates(channels[1..], model, group)
  }

  /** What an upstream, or building the adapter for it, comes back with. */
  datatype Reply = Answer(text: string) | Failed(error: string)

  datatype Outcome = Served(text: string, channel: Channel) | NoChannel | AllFailed(error: string)

  /** The world outside: why an adapter cannot be built (None if it can), and what a call returns.
      A pooled provider is named by the channel row it was built from. */
  datatype Upstreams = Upstreams(adapterError: Channel -> Option<string>, call: Channel -> Reply)

  type Pool = map<nat, Channel>

  function Attempt(c: Channel, pool: Pool, up: Upstreams): (Reply, Pool) {
    if c.id in pool then (up.call(pool[c.id]), pool)
    else
      match up.adapterError(c)
      case Some(error) => (Failed(error), pool)
      case None => (up.call(c), pool[c.id := c])
  }

  function TryEach(cs: seq<Channel>, pool: Pool, up: Upstreams, lastError: string): (Outcome, Pool) {
    if cs == [] then (AllFailed(lastError), pool)
    else
      match Attempt(cs[0], pool, up)
      case (Answer(text), pool') => (Served(text, cs[0]), pool')
      case (Failed(error), pool') => TryEach(cs[1..], pool', up, error)
  }

  function Route(cs: seq<Channel>, pool: Pool, up: Upstreams): (Outcome, Pool) {
    if cs == [] then (NoChannel, pool) else TryEach(cs, pool, up, "")
  }

  predicate DistinctIds(cs: seq<Channel>) {
    forall i, j :: 0 <= i < j < |cs| ==> cs[i].id != cs[j].id
  }

  /** The channel answers: through its pooled provider, or through a new one that can be built. */
  predicate Answers(c: Channel, pool: Pool, up: Upstreams, text: string) {
    || (c.id in pool && up.call(pool[c.id]) == Answer(text))
    || (c.id !in pool && up.adapterError(c) == None && up.call(c) == Answer(text))
  }

  /** The channel fails: its provider does, or no provider can be built. */
  predicate Fails(c: Channel, pool: Pool, up: Upstreams, error: string) {
    || (c.id in pool && up.call(pool[c.id]) == Failed(error))
    || (c.id !in pool && up.adapterError(c) == Some(error))
    || (c.id !in pool && up.adapterError(c) == None && up.call(c) == Failed(error))
  }

  /** The channel does not answer. */
  ghost predicate Refuses(c: Channel, pool: Pool, up: Upstreams) {
    exists error :: Fails(c, pool, up, error)
  }

  lemma AnswersOrRefuses(c: Channel, pool: Pool, up: Upstreams)
    ensures Refuses(c, pool, up) <==> !exists text :: Answers(c, pool, up, text)
  {
    var reply := if c.id in pool then up.call(pool[c.id]) else up.call(c);
    if c.id !in pool && up.adapterError(c).Some? {
      assert Fails(c, pool, up, up.adapterError(c).value);
    } else {
      match reply
      case Answer(text) => assert Answers(c, pool, up, text);
      case Failed(error) => assert Fails(c, pool, up, error);
    }
  }

  /** The outcome is the first answer in the order of cs, or the last error if nobody answers. */
  ghost predicate FirstAnswer(o: Outcome, cs: seq<Channel>, pool: Pool, up: Upstreams, lastError: string) {
    match o
    case Served(text, c) =>
      exists i :: 0 <= i < |cs| && cs[i] == c && Answers(cs[i], pool, up, text)
                  && forall j :: 0 <= j < i ==> Refuses(cs[j], pool, up)
    case AllFailed(error) =>
      && (forall j :: 0 <= j < |cs| ==> Refuses(cs[j], pool, up))
      && if cs == [] then error == lastError else Fails(Last(cs), pool, up, error)
    case NoChannel => false
  }

  lemma {:induction false} TryEachFindsFirst(cs: seq<Channel>, pool: Pool, up: Upstreams, lastError: string)
    requires DistinctIds(cs)
    ensures FirstAnswer(TryEach(cs, pool, up, lastError).0, cs, pool, up, lastError)
  {
    if cs != [] {
      match Attempt(cs[0], pool, up)
      case (Answer(text), pool') =>
        assert Answers(cs[0], pool, up, text);
      case (Failed(error), pool') =>
        var rest := cs[1..];
        assert Fails(cs[0], pool, up, error);
        TryEachFindsFirst(rest, pool', up, error);
        FirstAnswerAfterFailure(TryEach(rest, pool', up, error).0, cs, pool, pool', up, error, lastError);
    }
  }

  /** Other channels in the pool do not matter to a channel. */
  lemma SameReply(c: Channel, pool: Pool, pool': Pool, up: Upstreams)
    requires c.id in pool <==> c.id in pool'
    requires c.id in pool ==> pool'[c.id] == pool[c.id]
    ensures Refuses(c, pool', up) <==> Refuses(c, pool, up)
    ensures forall text :: Answers(c, pool', up, text) <==> Answers(c, pool, up, text)
    ensures forall error :: Fails(c, pool', up, error) <==> Fails(c, pool, up, error)
  {
    if error :| Fails(c, pool, up, error) {
      assert Fails(c, pool', up, error);
    }
    if error :| Fails(c, pool', up, error) {
      assert Fails(c, pool, up, error);
    }
  }

  /** A failed head makes the first answer of the rest the first answer. */
  lemma FirstAnswerAfterFailure(
    o: Outcome, cs: seq<Channel>, pool: Pool, pool': Pool, up: Upstreams, error: string, lastError: string)
    requires cs != [] && DistinctIds(cs) && Fails(cs[0], pool, up, error)
    requires pool' == pool || pool' == pool[cs[0].id := cs[0]]
    requires FirstAnswer(o, cs[1..], pool', up, error)
    ensures FirstAnswer(o, cs, pool, up, lastError)
  {
    forall j | 0 < j < |cs|
      ensures Refuses(cs[j], pool', up) <==> Refuses(cs[j], pool, up)
      ensures forall text :: Answers(cs[j], pool', up, text) <==> Answers(cs[j], pool, up, text)
      ensures forall e :: Fails(cs[j], pool', up, e) <==> Fails(cs[j], pool, up, e)
    {
      assert cs[j].id != cs[0].id;
      SameReply(cs[j], pool, pool', up);
    }
    match o
    case Served(text, c) =>
      var i :| 0 <= i < |cs[1..]| && cs[1..][i] == c && Answers(cs[1..][i], pool', up, text)
               && forall j :: 0 <= j < i ==> Refuses(cs[1..][j], pool', up);
      assert cs[i + 1] == c;
      forall j | 0 <= j < i + 1 ensures Refuses(cs[j], pool, up) {
        assert j > 0 ==> cs[j] == cs[1..][j - 1];
      }
    case AllFailed(last) =>
      forall j | 0 <= j < |cs| ensures Refuses(cs[j], pool, up) {
        assert j > 0 ==> cs[j] == cs[1..][j - 1];
      }
      assert |cs| > 1 ==> Last(cs[1..]) == Last(cs);
    case NoChannel =>
  }

  /** Only channels that were tried come into the pool, each as it is, and none goes. */
  lemma {:induction false} TryEachKeepsPool(cs: seq<Channel>, pool: Pool, up: Upstreams, lastError: string)
    ensures var pool' := TryEach(cs, pool, up, lastError).1;
            && (forall id :: id in pool ==> id in pool' && pool'[id] == pool[id])
            && (forall id :: id in pool' && id !in pool ==>
                  pool'[id] in cs && pool'[id].id == id && up.adapterError(pool'[id]) == None)
  {
    if cs != [] {
      match Attempt(cs[0], pool, up)
      case (Answer(text), pool') =>
      case (Failed(error), pool') =>
        assert forall x :: x in cs[1..] ==> x in cs;
        TryEachKeepsPool(cs[1..], pool', up, error);
    }
  }

  lemma CandidatesFrom(channels: seq<Channel>, i: nat, model: string, group: string)
    requires i < |channels|
    ensures Candidates(channels[i..], model, group) ==
            (if Eligible(channels[i], model, group) then [channels[i]] else [])
            + Candidates(channels[i + 1..], model, group)
  {
    assert channels[i..][0] == channels[i] && channels[i..][1..] == channels[i + 1..];
  }

  /** Candidates are taken row by row, so those of an earlier row come first. */
  lemma {:induction false} CandidatesAppend(a: seq<Channel>, b: seq<Channel>, model: string, group: string)
    ensures Candidates(a + b, model, group) == Candidates(a, model, group) + Candidates(b, model, group)
  {
    if a == [] {
      assert a + b == b;
    } else {
      CandidatesAppend(a[1..], b, model, group);
      var first := if Eligible(a[0], model, group) then [a[0]] else [];
      assert (a + b)[1..] == a[1..] + b;
      AppendAssociates(first, Candidates(a[1..], model, group), Candidates(b, model, group));
    }
  }

  lemma {:induction false} CandidatesMembers(channels: seq<Channel>, model: string, group: string)
    ensures forall x :: x in Candidates(channels, model, group) <==> x in channels && Eligible(x, model, group)
  {
    if channels != [] {
      CandidatesMembers(channels[1..], model, group);
      assert channels == [channels[0]] + channels[1..];
    }
  }

  lemma SortedTail(channels: seq<Channel>, x: Channel)
    requires Descending(channels) && DistinctIds(channels) && channels != [] && x in channels[1..]
    ensures channels[0].priority >= x.priority && channels[0].id != x.id
  {
    var k :| 0 < k < |channels| && channels[k] == x;
  }

  /** Selecting keeps the order, so a sorted snapshot gives sorted candidates with distinct ids. */
  lemma {:induction false} CandidatesKeepOrder(channels: seq<Channel>, model: string, group: string)
    requires Descending(channels) && DistinctIds(channels)
    ensures Descending(Candidates(channels, model, group)) && DistinctIds(Candidates(channels, model, group))
  {
    if channels != [] {
      var rest := Candidates(channels[1..], model, group);
      CandidatesKeepOrder(channels[1..], model, group);
      CandidatesMembers(channels[1..], model, group);
      forall i | 0 <= i < |rest|
        ensures channels[0].priority >= rest[i].priority && channels[0].id != rest[i].id
      {
        assert rest[i] in rest;
        SortedTail(channels, rest[i]);
      }
      ConsSorted(channels[0], rest);
    }
  }

  lemma ConsSorted(c: Channel, rest: seq<Channel>)
    requires Descending(rest) && DistinctIds(rest)
    requires forall i :: 0 <= i < |rest| ==> c.priority >= rest[i].priority && c.id != rest[i].id
    ensures Descending([c] + rest) && DistinctIds([c] + rest) && [] + rest == rest
  {
  }

  /** The request is served by an eligible channel that answers and that no other answering eligible channel
      outranks; it fails only if there is no eligible channel or none of them answers, and then with the
      error of one of them. */
  ghost predicate BestAnswer(
    o: Outcome, channels: seq<Channel>, model: string, group: string, pool: Pool, up: Upstreams)
  {
    match o
    case Served(text, c) =>
      && c in channels && Eligible(c, model, group) && Answers(c, pool, up, text)
      && forall x, t :: x in channels && Eligible(x, model, group) && Answers(x, pool, up, t)
                        ==> x.priority <= c.priority
    case NoChannel => forall x :: x in channels ==> !Eligible(x, model, group)
    case AllFailed(error) =>
      && (forall x :: x in channels && Eligible(x, model, group) ==> Refuses(x, pool, up))
      && exists x :: x in channels && Eligible(x, model, group) && Fails(x, pool, up, error)
  }

  /** Failover over a priority-sorted snapshot finds the best answer. */
  lemma FailoverServesHighest(channels: seq<Channel>, model: string, group: string, pool: Pool, up: Upstreams)
    requires Descending(channels) && DistinctIds(channels)
    ensures BestAnswer(Route(Candidates(channels, model, group), pool, up).0, channels, model, group, pool, up)
  {
    var cs := Candidates(channels, model, group);
    CandidatesKeepOrder(channels, model, group);
    CandidatesMembers(channels, model, group);
    TryEachFindsFirst(cs, pool, up, "");
    FirstIsBest(TryEach(cs, pool, up, "").0, cs, channels, model, group, pool, up);
  }

  lemma FirstIsBest(o: Outcome, cs: seq<Channel>, channels: seq<Channel>, model: string, group: string,
                    pool: Pool, up: Upstreams)
    requires Descending(cs) && FirstAnswer(o, cs, pool, up, "")
    requires forall x :: x in cs <==> x in channels && Eligible(x, model, group)
    ensures BestAnswer(if cs == [] then NoChannel else o, channels, model, group, pool, up)
  {
    if cs == [] {
      forall x | x in channels ensures !Eligible(x, model, group) {
        assert x !in cs;
      }
    } else if o.Served? {
      var i :| 0 <= i < |cs| && cs[i] == o.channel && Answers(cs[i], pool, up, o.text)
               && forall j :: 0 <= j < i ==> Refuses(cs[j], pool, up);
      assert cs[i] in cs;
      forall x, t | x in cs && Answers(x, pool, up, t) ensures x.priority <= o.channel.priority {
        AnswersOrRefuses(x, pool, up);
        var k :| 0 <= k < |cs| && cs[k] == x;
      }
    } else {
      assert Last(cs) in cs;
      forall x | x in cs ensures Refuses(x, pool, up) {
        var k :| 0 <= k < |cs| && cs[k] == x;
      }
    }
  }

  /** A request to the default group, under either name, can be served by exactly the channels with an empty
      element or "default" in their list; any other request by exactly those that list its trimmed group. */
  lemma GroupsServed(list: string, group: string)
    ensures TrimSpace(group) in {"", "default"} ==>
              (InGroup(list, group) <==>
               exists p :: p in Split(list, ',') && (TrimSpace(p) == "" || TrimSpace(p) == "default"))
    ensures TrimSpace(group) !in {"", "default"} ==>
              (InGroup(list, group) <==> exists p :: p in Split(list, ',') && TrimSpace(p) == TrimSpace(group))
  {
    assert forall p :: p in Split(list, ',') ==> TrimSpace(p) in Pieces(list);
  }

  /* ---------------------------------------------------------------- the instance */

  class Gateway {
    var channels: seq<Channel>
    var providers: Pool
    var loaded: Option<nat>
    const redis: SharedStore

    constructor (redis: SharedStore)
      ensures this.redis == redis && Mem() == Memory([], None) && providers == map[]
    {
      this.redis := redis;
      channels, providers, loaded := [], map[], None;
    }

    function Mem(): Memory
      reads this
    {
      Memory(channels, loaded)
    }

    /** Refreshes the snapshot. rows is what the channel table holds, None when reading it fails;
        a client without Redis never reaches the shared key. */
    method Reload(now: nat, sharedUp: bool, rows: Option<seq<Channel>>, setUp: bool)
      modifies this`channels, this`loaded, redis
      ensures match BeginReload(old(Mem()), old(redis.cell), now, sharedUp, rows)
              case None => Mem() == old(Mem()) && redis.cell == old(redis.cell)
              case Some(p) => (Mem(), redis.cell) == FinishReload(p, old(redis.cell), now, setUp)
    {
      if loaded.Some? && now - loaded.value < CHANNEL_CACHE_TTL {
        return;
      }
      if sharedUp && redis.cell.Some? && now < redis.cell.value.expires {
        channels, loaded := ReviveSnapshot(redis.cell.value.wire), Some(now);
        return;
      }
      if rows == None {
        return;
      }
      var snapshot := SortByPriority(Active(rows.value));
      channels, loaded := snapshot, Some(now);
      if setUp {
        redis.cell := Some(Copy(ToWire(snapshot), now + REDIS_SNAPSHOT_TTL));
      }
    }

    /** Forgets the snapshot and the providers, then deletes the shared key. */
    method InvalidateChannels(delUp: bool)
      modifies this, redis
      ensures Mem() == Memory(old(channels), None) && providers == map[]
      ensures redis.cell == if delUp then None else old(redis.cell)
    {
      loaded := None;
      providers := map[];
      if delUp {
        redis.cell := None;
      }
    }

    method SupportsModel(c: Channel, model: string) returns (ok: bool)
      ensures ok == Supports(c, model)
    {
      var parts := Split(c.models, ',');
      for i := 0 to |parts|
        invariant forall k :: 0 <= k < i ==> TrimSpace(parts[k]) != model
      {
        if TrimSpace(parts[i]) == model {
          assert parts[i] in parts;
          return true;
        }
      }
      return false;
    }

    method ChannelInGroup(c: Channel, group: string) returns (ok: bool)
      ensures ok == InGroup(c.group, group)
    {
      var r := TrimSpace(group);
      var parts := Split(c.group, ',');
      var any := r == "" || r == "default";
      for i := 0 to |parts|
        invariant forall k :: 0 <= k < i ==>
          (if any then TrimSpace(parts[k]) != "" && TrimSpace(parts[k]) != "default" else TrimSpace(parts[k]) != r)
      {
        var g := TrimSpace(parts[i]);
        assert parts[i] in parts;
        if any {
          if g == "" || g == "default" { return true; }
        } else if g == r {
          return true;
        }
      }
      return false;
    }

    /** The pooled provider of a channel, built on first use. */
    method ProviderFor(c: Channel, up: Upstreams) returns (source: Channel, error: Option<string>)
      modifies this`providers
      ensures error.Some? ==> providers == old(providers) && c.id !in old(providers) && error == up.adapterError(c)
      ensures error == None ==>
        && (c.id in old(providers) ==> source == old(providers)[c.id] && providers == old(providers))
        && (c.id !in old(providers) ==>
              source == c && providers == old(providers)[c.id := c] && up.adapterError(c) == None)
    {
      if c.id in providers {
        return providers[c.id], None;
      }
      error := up.adapterError(c);
      source := c;
      if error == None {
        providers := providers[c.id := c];
      }
    }

    /** The channels that serve the model and belong to the group, in snapshot order. */
    method Select(model: string, group: string) returns (candidates: seq<Channel>)
      ensures candidates == Candidates(channels, model, group)
    {
      candidates := [];
      for i := 0 to |channels|
        invariant candidates + Candidates(channels[i..], model, group) == Candidates(channels, model, group)
      {
        var supported := SupportsModel(channels[i], model);
        var member := ChannelInGroup(channels[i], group);
        CandidatesFrom(channels, i, model, group);
        ghost var before, rest := candidates, Candidates(channels[i + 1..], model, group);
        if supported && member {
          candidates := candidates + [channels[i]];
          assert before + ([channels[i]] + rest) == candidates + rest;
        } else {
          assert [] + rest == rest;
        }
      }
    }

    method Chat(model: string, group: string, up: Upstreams,
                now: nat, sharedUp: bool, rows: Option<seq<Channel>>, setUp: bool)
      returns (outcome: Outcome)
      modifies this, redis
      ensures match BeginReload(old(Mem()), old(redis.cell), now, sharedUp, rows)
              case None => Mem() == old(Mem()) && redis.cell == old(redis.cell)
              case Some(p) => (Mem(), redis.cell) == FinishReload(p, old(redis.cell), now, setUp)
      ensures (outcome, providers) == Route(Candidates(channels, model, group), old(providers), up)
    {
      Reload(now, sharedUp, rows, setUp);
      var candidates := Select(model, group);
      if |candidates| == 0 {
        return NoChannel;
      }
      outcome := Failover(candidates, up);
    }

    /** Tries the candidates in order; the first answer wins. */
    method Failover(candidates: seq<Channel>, up: Upstreams) returns (outcome: Outcome)
      modifies this`providers
      ensures (outcome, providers) == TryEach(candidates, old(providers), up, "")
    {
      var lastError := "";
      for i := 0 to |candidates|
        invariant TryEach(candidates[i..], providers, up, lastError) == TryEach(candidates, old(providers), up, "")
      {
        assert candidates[i..][1..] == candidates[i + 1..];
        var source, error := ProviderFor(candidates[i], up);
        if error.Some? {
          lastError := error.value;
          continue;
        }
        var reply := up.call(source);
        match reply
        case Failed(e) =>
          lastError := e;
        case Answer(text) =>
          return Served(text, candidates[i]);
      }
      return AllFailed(lastError);
    }
  }
}
