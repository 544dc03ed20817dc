/** Quota points: the price of a request and the balances it is charged to (internal/handler/billing.go
    and the grant of internal/handler/subscriptions.go). Amounts are unbounded integers and prices are
    real numbers. */
module Billing {
  import opened Options
  import opened Text

  const UNLIMITED := -1
  const QUOTA_PER_USD := 500000.0

  /* ---------------------------------------------------------------- what a request costs */

  /** US dollars for a million prompt tokens and for a million completion tokens. */
  datatype Price = Price(input: real, output: real)

  const PRICE_CAP := 100000.0
  const MIN_GROUP_RATIO := 0.01
  const MAX_GROUP_RATIO := 100.0

  predicate ValidPrice(p: Price) {
    0.0 <= p.input <= PRICE_CAP && 0.0 <= p.output <= PRICE_CAP
  }

  predicate ValidGroupRatio(ratio: real) {
    MIN_GROUP_RATIO <= ratio <= MAX_GROUP_RATIO
  }

  /** Conversion of a real to an integer, towards zero. */
  function Truncate(x: real): int {
    if x >= 0.0 then x.Floor else -((-x).Floor)
  }

  function ComputeCostQuota(p: Price, prompt: int, completion: int, ratio: real): int {
    if p.input == 0.0 && p.output == 0.0 then 0
    else
      var usd := prompt as real / 1000000.0 * p.input + completion as real / 1000000.0 * p.output;
      var q := Truncate(usd * QUOTA_PER_USD * ratio);
      if q < 0 then 0 else q
  }

  /** Twice the cost before rounding. */
  function DoubleCost(p: Price, prompt: int, completion: int, ratio: real): real {
    (prompt as real * p.input + completion as real * p.output) * ratio
  }

  lemma TimesNonNegative(a: real, x: real)
    requires 0.0 <= a && 0.0 <= x
    ensures 0.0 <= a * x
  {
  }

  lemma Products(a: real, b: real, x: real, y: real)
    requires 0.0 <= a <= b && 0.0 <= x <= y
    ensures 0.0 <= a * x <= b * y
  {
    TimesNonNegative(a, x);
    TimesNonNegative(b - a, x);
    TimesNonNegative(b, y - x);
    assert b * y == a * x + (b - a) * x + b * (y - x);
  }

  /** A millionth of the tokens at half a million points is half the tokens. */
  lemma Millionth(a: real, x: real)
    ensures a / 1000000.0 * x * QUOTA_PER_USD == a * x / 2.0
  {
    assert a / 1000000.0 * QUOTA_PER_USD == a / 2.0;
    assert a / 1000000.0 * x * QUOTA_PER_USD == a / 1000000.0 * QUOTA_PER_USD * x;
  }

  lemma Scaled(a: real, b: real, x: real, y: real, ratio: real)
    ensures (a / 1000000.0 * x + b / 1000000.0 * y) * QUOTA_PER_USD * ratio == (a * x + b * y) * ratio / 2.0
  {
    Millionth(a, x);
    Millionth(b, y);
    assert (a / 1000000.0 * x + b / 1000000.0 * y) * QUOTA_PER_USD == (a * x + b * y) / 2.0;
    HalfTimes(a * x + b * y, ratio);
  }

  lemma HalfTimes(z: real, ratio: real)
    ensures z / 2.0 * ratio == z * ratio / 2.0
  {
  }

  lemma FloorMonotone(x: real, y: real)
    requires x <= y
    ensures x.Floor <= y.Floor
  {
  }

  /** Twice the cost is monotone, and never negative. */
  lemma DoubleCostMonotone(p: Price, prompt: nat, completion: nat, ratio: real,
                           p': Price, prompt': nat, completion': nat, ratio': real)
    requires 0.0 <= p.input <= p'.input && 0.0 <= p.output <= p'.output && 0.0 <= ratio <= ratio'
    requires prompt <= prompt' && completion <= completion'
    ensures 0.0 <= DoubleCost(p, prompt, completion, ratio) <= DoubleCost(p', prompt', completion', ratio')
  {
    var a, b := prompt as real * p.input, completion as real * p.output;
    var a', b' := prompt' as real * p'.input, completion' as real * p'.output;
    Products(prompt as real, prompt' as real, p.input, p'.input);
    Products(completion as real, completion' as real, p.output, p'.output);
    Products(a + b, a' + b', ratio, ratio');
  }

  /** A request costs half a point for every dollar-per-million token, times the ratio, rounded down;
      the formula never yields a negative amount. */
  lemma CostIsFloorOfHalf(p: Price, prompt: nat, completion: nat, ratio: real)
    requires 0.0 <= p.input && 0.0 <= p.output && 0.0 <= ratio
    ensures 0.0 <= DoubleCost(p, prompt, completion, ratio)
    ensures ComputeCostQuota(p, prompt, completion, ratio) == (DoubleCost(p, prompt, completion, ratio) / 2.0).Floor
  {
    DoubleCostMonotone(p, prompt, completion, ratio, p, prompt, completion, ratio);
    Scaled(prompt as real, completion as real, p.input, p.output, ratio);
    if p.input == 0.0 && p.output == 0.0 {
      assert DoubleCost(p, prompt, completion, ratio) == 0.0 by {
        ZeroTimes(prompt as real, completion as real, ratio);
      }
    }
  }

  lemma ZeroTimes(a: real, b: real, ratio: real)
    ensures (a * 0.0 + b * 0.0) * ratio == 0.0
  {
  }

  /** More tokens, higher prices or a higher ratio never cost less. */
  lemma CostIsMonotone(p: Price, prompt: nat, completion: nat, ratio: real,
                       p': Price, prompt': nat, completion': nat, ratio': real)
    requires 0.0 <= p.input <= p'.input && 0.0 <= p.output <= p'.output && 0.0 <= ratio <= ratio'
    requires prompt <= prompt' && completion <= completion'
    ensures ComputeCostQuota(p, prompt, completion, ratio) <= ComputeCostQuota(p', prompt', completion', ratio')
  {
    CostIsFloorOfHalf(p, prompt, completion, ratio);
    CostIsFloorOfHalf(p', prompt', completion', ratio');
    DoubleCostMonotone(p, prompt, completion, ratio, p', prompt', completion', ratio');
    FloorMonotone(DoubleCost(p, prompt, completion, ratio) / 2.0, DoubleCost(p', prompt', completion', ratio') / 2.0);
  }

  /** Under the admitted caps no token costs more than five million points. */
  lemma CostIsCapped(p: Price, prompt: nat, completion: nat, ratio: real)
    requires ValidPrice(p) && ValidGroupRatio(ratio)
    ensures ComputeCostQuota(p, prompt, completion, ratio) <= 5000000 * (prompt + completion)
  {
    var top := Price(PRICE_CAP, PRICE_CAP);
    CostIsMonotone(p, prompt, completion, ratio, top, prompt, completion, MAX_GROUP_RATIO);
    CostIsFloorOfHalf(top, prompt, completion, MAX_GROUP_RATIO);
    assert DoubleCost(top, prompt, completion, MAX_GROUP_RATIO) == 10000000.0 * (prompt + completion) as real;
  }

  /** Token counts of one request. */
  datatype Tokens = Tokens(prompt: nat, completion: nat)

  function SumTokens(parts: seq<Tokens>): Tokens {
    if parts == [] then Tokens(0, 0)
    else
      var t := SumTokens(Init(parts));
      Tokens(t.prompt + Last(parts).prompt, t.completion + Last(parts).completion)
  }

  function SumCosts(p: Price, parts: seq<Tokens>, ratio: real): int {
    if parts == [] then 0
    else SumCosts(p, Init(parts), ratio) + ComputeCostQuota(p, Last(parts).prompt, Last(parts).completion, ratio)
  }

  lemma TimesSum(a: real, b: real, x: real)
    ensures (a + b) * x == a * x + b * x
  {
  }

  lemma DoubleCostAdds(p: Price, a: Tokens, b: Tokens, ratio: real)
    ensures DoubleCost(p, a.prompt + b.prompt, a.completion + b.completion, ratio)
         == DoubleCost(p, a.prompt, a.completion, ratio) + DoubleCost(p, b.prompt, b.completion, ratio)
  {
    TimesSum(a.prompt as real, b.prompt as real, p.input);
    TimesSum(a.completion as real, b.completion as real, p.output);
    TimesSum(a.prompt as real * p.input + a.completion as real * p.output,
             b.prompt as real * p.input + b.completion as real * p.output, ratio);
  }

  /** Splitting a request into parts never costs more, and saves less than one point a part. */
  lemma {:induction false} SplittingSavesLittle(p: Price, parts: seq<Tokens>, ratio: real)
    requires 0.0 <= p.input && 0.0 <= p.output && 0.0 <= ratio && parts != []
    ensures SumCosts(p, parts, ratio)
         <= ComputeCostQuota(p, SumTokens(parts).prompt, SumTokens(parts).completion, ratio)
         <= SumCosts(p, parts, ratio) + |parts| - 1
  {
    var before, last := SumTokens(Init(parts)), Last(parts);
    CostIsFloorOfHalf(p, before.prompt, before.completion, ratio);
    CostIsFloorOfHalf(p, last.prompt, last.completion, ratio);
    CostIsFloorOfHalf(p, SumTokens(parts).prompt, SumTokens(parts).completion, ratio);
    DoubleCostAdds(p, before, last, ratio);
    if |parts| == 1 {
      assert Init(parts) == [];
    } else {
      SplittingSavesLittle(p, Init(parts), ratio);
    }
  }

  /* ---------------------------------------------------------------- balances */

  /** A row of users or tokens: what is left (-1 for unlimited) and what was consumed. */
  datatype Account = Account(quota: int, used: int)

  type Table = map<nat, Account>

  /** A row as a request saw it when it was authenticated. */
  datatype Seen = Seen(id: nat, quota: int)

  /** One statement on a table: a charge by a request, or a plan granted in one step. */
  datatype Event = Deduct(seen: Seen, cost: int) | Grant(id: nat, points: int)

  /** CASE WHEN quota >= cost THEN quota - cost ELSE 0 END. */
  function Clamped(quota: int, cost: int): int {
    if quota >= cost then quota - cost else 0
  }

  function Deducted(row: Account, cost: int, sawUnlimited: bool): Account {
    Account(if sawUnlimited then row.quota else Clamped(row.quota, cost), row.used + cost)
  }

  function Granted(quota: int, points: int): int {
    if points == UNLIMITED then UNLIMITED
    else if points > 0 && quota != UNLIMITED then quota + points
    else quota
  }

  function Step(t: Table, e: Event): Table {
    match e
    case Deduct(seen, cost) =>
      if cost <= 0 || seen.id !in t then t
      else t[seen.id := Deducted(t[seen.id], cost, seen.quota == UNLIMITED)]
    case Grant(id, points) =>
      if id !in t then t else t[id := t[id].(quota := Granted(t[id].quota, points))]
  }

  function Run(t: Table, events: seq<Event>): Table {
    if events == [] then t else Step(Run(t, Init(events)), Last(events))
  }

  /** internal/handler/billing.go:97-108. */
  predicate QuotaAvailable(user: Option<Account>, token: Option<Account>) {
    && user.Some?
    && (user.value.quota == UNLIMITED || user.value.quota > 0)
    && (token.None? || token.value.quota == UNLIMITED || token.value.quota > 0)
  }

  class Books {
    var users: Table
    var tokens: Table

    /** Charges the token and the user of a delivered response. */
    method DeductQuota(user: Option<Seen>, token: Option<Seen>, cost: int)
      modifies this
      ensures users == if user.Some? then Step(old(users), Deduct(user.value, cost)) else old(users)
      ensures tokens == if token.Some? then Step(old(tokens), Deduct(token.value, cost)) else old(tokens)
    {
      if cost <= 0 {
        return;
      }
      if token.Some? && token.value.id in tokens {
        var row := tokens[token.value.id];
        if token.value.quota == UNLIMITED {
          tokens := tokens[token.value.id := row.(used := row.used + cost)];
        } else {
          tokens := tokens[token.value.id := Account(Clamped(row.quota, cost), row.used + cost)];
        }
      }
      if user.Some? && user.value.id in users {
        var row := users[user.value.id];
        if user.value.quota == UNLIMITED {
          users := users[user.value.id := row.(used := row.used + cost)];
        } else {
          users := users[user.value.id := Account(Clamped(row.quota, cost), row.used + cost)];
        }
      }
    }

    /** The second half of a grant: the row is written with the quota that was read earlier. */
    method WriteGrant(seen: Seen, points: int)
      modifies this`users
      ensures users == Written(old(users), seen, points)
    {
      if seen.id !in users {
        return;
      }
      if points == UNLIMITED {
        users := users[seen.id := users[seen.id].(quota := UNLIMITED)];
      } else if points > 0 && seen.quota != UNLIMITED {
        users := users[seen.id := users[seen.id].(quota := seen.quota + points)];
      }
    }
  }

  function Written(t: Table, seen: Seen, points: int): Table {
    if seen.id in t && (points == UNLIMITED || (points > 0 && seen.quota != UNLIMITED))
    then t[seen.id := t[seen.id].(quota := Granted(seen.quota, points))] else t
  }

  /* ---------------------------------------------------------------- charges in any order */

  function Total<T>(xs: seq<T>, f: T -> int): int {
    if xs == [] then 0 else Total(Init(xs), f) + f(Last(xs))
  }

  /** What an event charges to the row id. */
  function Charge(id: nat, e: Event): int {
    if e.Deduct? && e.seen.id == id && e.cost > 0 then e.cost else 0
  }

  /** The part of it that is taken from the quota: charges of requests that saw a finite row. */
  function Take(id: nat, e: Event): int {
    if e.Deduct? && e.seen.quota != UNLIMITED then Charge(id, e) else 0
  }

  function Gift(id: nat, e: Event): int {
    if e.Grant? && e.id == id && e.points > 0 then e.points else 0
  }

  function Charged(events: seq<Event>, id: nat): int {
    Total(events, e => Charge(id, e))
  }

  function Taken(events: seq<Event>, id: nat): int {
    Total(events, e => Take(id, e))
  }

  function Gifts(events: seq<Event>, id: nat): int {
    Total(events, e => Gift(id, e))
  }

  lemma TotalsStep(events: seq<Event>, id: nat)
    requires events != []
    ensures Charged(events, id) == Charged(Init(events), id) + Charge(id, Last(events))
    ensures Taken(events, id) == Taken(Init(events), id) + Take(id, Last(events))
    ensures Gifts(events, id) == Gifts(Init(events), id) + Gift(id, Last(events))
  {
  }

  lemma {:induction false} TotalWithout<T>(xs: seq<T>, k: nat, f: T -> int)
    requires k < |xs|
    ensures Total(xs, f) == Total(xs[..k] + xs[k + 1..], f) + f(xs[k])
  {
    var rest := xs[..k] + xs[k + 1..];
    if k == |xs| - 1 {
      assert rest == Init(xs);
    } else {
      assert Init(rest) == Init(xs)[..k] + Init(xs)[k + 1..];
      assert Last(rest) == Last(xs) && Init(xs)[k] == xs[k];
      TotalWithout(Init(xs), k, f);
    }
  }

  lemma WithoutOne<T>(xs: seq<T>, ys: seq<T>, k: nat)
    requires xs != [] && multiset(xs) == multiset(ys) && k < |ys| && ys[k] == Last(xs)
    ensures multiset(Init(xs)) == multiset(ys[..k] + ys[k + 1..])
  {
    assert xs == Init(xs) + [Last(xs)];
    assert ys == ys[..k] + [ys[k]] + ys[k + 1..];
    assert multiset(Init(xs)) == multiset(xs) - multiset{Last(xs)};
    assert multiset(ys[..k] + ys[k + 1..]) == multiset(ys) - multiset{ys[k]};
  }

  lemma {:induction false} TotalPermutes<T>(xs: seq<T>, ys: seq<T>, f: T -> int)
    requires multiset(xs) == multiset(ys)
    ensures Total(xs, f) == Total(ys, f)
    decreases |xs|
  {
    assert |xs| == |multiset(xs)| == |multiset(ys)| == |ys|;
    if xs != [] {
      assert Last(xs) in multiset(ys);
      var k :| 0 <= k < |ys| && ys[k] == Last(xs);
      var rest := ys[..k] + ys[k + 1..];
      WithoutOne(xs, ys, k);
      TotalPermutes(Init(xs), rest, f);
      TotalWithout(ys, k, f);
    }
  }

  predicate NoGrants(events: seq<Event>, id: nat) {
    forall e :: e in events && e.Grant? ==> e.id != id
  }

  /** However the charges of all requests fall, a row ends at its quota less what was taken from it, but
      not below zero, and every charge is counted as used. Once anything is taken, even a row that was
      unlimited is finite and empty. */
  lemma {:induction false} ChargesAddUp(t: Table, events: seq<Event>, id: nat)
    requires id in t && NoGrants(events, id)
    ensures id in Run(t, events)
    ensures var taken := Taken(events, id);
            && taken >= 0
            && Run(t, events)[id].quota ==
               (if taken == 0 then t[id].quota else if t[id].quota >= taken then t[id].quota - taken else 0)
            && Run(t, events)[id].used == t[id].used + Charged(events, id)
  {
    if events != [] {
      assert forall e :: e in Init(events) ==> e in events;
      assert Last(events) in events;
      ChargesAddUp(t, Init(events), id);
      TotalsStep(events, id);
    }
  }

  lemma {:induction false} RunKeepsRows(t: Table, events: seq<Event>)
    ensures Run(t, events).Keys == t.Keys
  {
    if events != [] {
      RunKeepsRows(t, Init(events));
    }
  }

  /** The order of the charges cannot be observed on any row. */
  lemma AnyOrderOfCharges(t: Table, events: seq<Event>, events': seq<Event>)
    requires multiset(events) == multiset(events')
    requires forall e :: e in events ==> e.Deduct?
    ensures Run(t, events) == Run(t, events')
  {
    forall e | e in events' ensures e.Deduct? {
      assert e in multiset(events);
    }
    RunKeepsRows(t, events);
    RunKeepsRows(t, events');
    forall id | id in t ensures Run(t, events)[id] == Run(t, events')[id] {
      ChargesAddUp(t, events, id);
      ChargesAddUp(t, events', id);
      TotalPermutes(events, events', e => Take(id, e));
      TotalPermutes(events, events', e => Charge(id, e));
    }
  }

  /* ---------------------------------------------------------------- charges and grants */

  /** What the clamp wrote off on the row id. */
  function Overdraft(t: Table, events: seq<Event>, id: nat): int
    requires id in t
  {
    if events == [] then 0
    else
      RunKeepsRows(t, Init(events));
      var quota, taken := Run(t, Init(events))[id].quota, Take(id, Last(events));
      Overdraft(t, Init(events), id) + if taken > quota then taken - quota else 0
  }

  /** What was taken so far beyond what was granted so far. */
  function NetTaken(events: seq<Event>, id: nat): int {
    Taken(events, id) - Gifts(events, id)
  }

  predicate StaysFinite(events: seq<Event>, id: nat) {
    forall e :: e in events && e.Grant? && e.id == id ==> e.points != UNLIMITED
  }

  /** Conservation: quota plus grants equals what is left plus what was taken, less the write-off; and
      the quota of a finite row never falls below zero. */
  lemma {:induction false} PointsAreConserved(t: Table, events: seq<Event>, id: nat)
    requires id in t && t[id].quota >= 0 && StaysFinite(events, id)
    ensures id in Run(t, events) && Run(t, events)[id].quota >= 0
    ensures t[id].quota + Gifts(events, id)
         == Run(t, events)[id].quota + Taken(events, id) - Overdraft(t, events, id)
  {
    if events != [] {
      assert forall e :: e in Init(events) ==> e in events;
      assert Last(events) in events;
      PointsAreConserved(t, Init(events), id);
      TotalsStep(events, id);
    }
  }

  /** The write-off only grows, and whenever it grows the row is empty. */
  lemma OverdraftStep(t: Table, events: seq<Event>, id: nat)
    requires id in t && t[id].quota >= 0 && StaysFinite(events, id) && events != []
    ensures Overdraft(t, events, id) >= Overdraft(t, Init(events), id)
    ensures NetTaken(events, id) - t[id].quota <= Overdraft(t, events, id)
    ensures Overdraft(t, events, id) == Overdraft(t, Init(events), id)
            || NetTaken(events, id) - t[id].quota == Overdraft(t, events, id)
  {
    assert forall e :: e in Init(events) ==> e in events;
    assert Last(events) in events;
    PointsAreConserved(t, events, id);
    PointsAreConserved(t, Init(events), id);
  }

  /** The write-off is the worst shortfall of any prefix of the history: no charge is forgiven that the
      balance at the time could pay, and later grants never pay for it. */
  lemma {:induction false} OverdraftIsWorstShortfall(t: Table, events: seq<Event>, id: nat)
    requires id in t && t[id].quota >= 0 && StaysFinite(events, id)
    ensures var lost := Overdraft(t, events, id);
            && lost >= 0
            && (forall k :: 0 <= k <= |events| ==> NetTaken(events[..k], id) - t[id].quota <= lost)
            && (lost == 0 || exists k :: 0 <= k <= |events| && NetTaken(events[..k], id) - t[id].quota == lost)
  {
    assert events[..|events|] == events;
    if events != [] {
      var before := Init(events);
      assert forall e :: e in before ==> e in events;
      assert forall k :: 0 <= k < |events| ==> events[..k] == before[..k];
      OverdraftIsWorstShortfall(t, before, id);
      OverdraftStep(t, events, id);
      if Overdraft(t, events, id) == Overdraft(t, before, id) != 0 {
        var k :| 0 <= k <= |before| && NetTaken(before[..k], id) - t[id].quota == Overdraft(t, before, id);
        assert NetTaken(events[..k], id) - t[id].quota == Overdraft(t, events, id);
      }
    }
  }

  /** A grant that reads the row, lets other statements pass and then writes equals the grant made in one
      step exactly when it adds nothing or the quota is at its end what was read. For a row that stays finite
      that means that the top-ups and the write-off of the meantime make up for the charges; without
      top-ups, that nothing was taken or there was nothing to take. */
  lemma GrantKeepsChargesExactly(t: Table, between: seq<Event>, id: nat, points: int)
    requires id in t && t[id].quota >= UNLIMITED
    ensures id in Run(t, between)
    ensures Written(Run(t, between), Seen(id, t[id].quota), points) == Run(t, between + [Grant(id, points)])
            <==> points <= 0 || Run(t, between)[id].quota == t[id].quota
    ensures t[id].quota >= 0 && StaysFinite(between, id) ==>
              (Run(t, between)[id].quota == t[id].quota <==>
               Gifts(between, id) + Overdraft(t, between, id) == Taken(between, id))
    ensures NoGrants(between, id) ==>
              (Run(t, between)[id].quota == t[id].quota <==> t[id].quota == 0 || Taken(between, id) == 0)
  {
    RunKeepsRows(t, between);
    assert Init(between + [Grant(id, points)]) == between;
    WriteIsGrantExactly(Run(t, between), id, t[id].quota, points);
    if t[id].quota >= 0 && StaysFinite(between, id) {
      PointsAreConserved(t, between, id);
    }
    if NoGrants(between, id) {
      ChargesAddUp(t, between, id);
    }
  }

  lemma WriteIsGrantExactly(t: Table, id: nat, read: int, points: int)
    requires id in t && read >= UNLIMITED
    ensures Written(t, Seen(id, read), points) == Step(t, Grant(id, points)) <==> points <= 0 || t[id].quota == read
  {
    var split, whole := Written(t, Seen(id, read), points), Step(t, Grant(id, points));
    assert split == whole <==> split[id].quota == whole[id].quota by {
      if split[id].quota == whole[id].quota {
        assert split[id] == whole[id];
        assert split == whole;
      }
    }
  }

  /** A charge between the read and the write is used but never paid for. */
  lemma ChargeCanBeLost(t: Table, id: nat, cost: int, points: int)
    requires id in t && 0 < cost <= t[id].quota && points > 0
    ensures Written(Run(t, [Deduct(Seen(id, t[id].quota), cost)]), Seen(id, t[id].quota), points) ==
            t[id := Account(t[id].quota + points, t[id].used + cost)]
  {
    RunOne(t, Deduct(Seen(id, t[id].quota), cost));
  }

  /** A second grant between the read and the write is lost. */
  lemma TopUpCanBeLost(t: Table, id: nat, first: int, points: int)
    requires id in t && t[id].quota >= 0 && first > 0 && points > 0
    ensures Written(Run(t, [Grant(id, first)]), Seen(id, t[id].quota), points) ==
            t[id := t[id].(quota := t[id].quota + points)]
    ensures Run(t, [Grant(id, first), Grant(id, points)]) == t[id := t[id].(quota := t[id].quota + first + points)]
  {
    RunOne(t, Grant(id, first));
    RunTwo(t, Grant(id, first), Grant(id, points));
  }

  lemma RunOne(t: Table, a: Event)
    ensures Run(t, [a]) == Step(t, a)
  {
    assert Init([a]) == [];
  }

  lemma RunTwo(t: Table, a: Event, b: Event)
    ensures Run(t, [a, b]) == Step(Step(t, a), b)
  {
    RunOne(t, a);
    assert Init([a, b]) == [a];
  }

  /* ---------------------------------------------------------------- unlimited rows */

  /** The row was unlimited, or was made so by a grant, and since then nothing was taken by a request that saw
      it finite. */
  predicate UnlimitedSince(t: Table, events: seq<Event>, id: nat)
    requires id in t
  {
    (t[id].quota == UNLIMITED && NothingTaken(events, id, 0)) ||
    exists k :: 0 <= k < |events| && events[k] == Grant(id, UNLIMITED) && NothingTaken(events, id, k + 1)
  }

  predicate NothingTaken(events: seq<Event>, id: nat, from: nat) {
    forall j :: from <= j < |events| ==> Take(id, events[j]) == 0
  }

  lemma UnlimitedSinceStep(t: Table, events: seq<Event>, id: nat)
    requires id in t && events != []
    ensures UnlimitedSince(t, events, id) <==>
            Last(events) == Grant(id, UNLIMITED) ||
            (Take(id, Last(events)) == 0 && UnlimitedSince(t, Init(events), id))
  {
    var before, n := Init(events), |events| - 1;
    assert forall j :: 0 <= j < n ==> before[j] == events[j];
    if Last(events) == Grant(id, UNLIMITED) {
      assert events[n] == Grant(id, UNLIMITED) && NothingTaken(events, id, n + 1);
    } else if Take(id, Last(events)) == 0 {
      assert forall from: nat :: from <= n ==> NothingTaken(events, id, from) == NothingTaken(before, id, from);
    } else {
      assert forall from: nat :: from <= n ==> !NothingTaken(events, id, from);
    }
  }

  /** After any charges and grants a row is unlimited exactly when it is so since its start or since a grant:
      one charge by a request that saw it finite ends that. */
  lemma {:induction false} UnlimitedSurvivesExactly(t: Table, events: seq<Event>, id: nat)
    requires id in t && t[id].quota >= UNLIMITED
    ensures id in Run(t, events) && Run(t, events)[id].quota >= UNLIMITED
    ensures Run(t, events)[id].quota == UNLIMITED <==> UnlimitedSince(t, events, id)
  {
    if events != [] {
      UnlimitedSurvivesExactly(t, Init(events), id);
      UnlimitedSinceStep(t, events, id);
    }
  }

  /** A plan makes the account unlimited; a request that was authenticated before empties it. */
  lemma UnlimitedCanBeEmptied(t: Table, id: nat, cost: int)
    requires id in t && t[id].quota >= 0 && cost > 0
    ensures Run(t, [Grant(id, UNLIMITED)]) == t[id := t[id].(quota := UNLIMITED)]
    ensures Run(t, [Grant(id, UNLIMITED), Deduct(Seen(id, t[id].quota), cost)]) ==
            t[id := Account(0, t[id].used + cost)]
  {
    RunOne(t, Grant(id, UNLIMITED));
    RunTwo(t, Grant(id, UNLIMITED), Deduct(Seen(id, t[id].quota), cost));
  }

  /* ---------------------------------------------------------------- the admission check */

  /** A finite account under load: the row, the costs of the requests that were admitted and not yet charged,
      and the total cost of all requests that were served. */
  datatype Load = Load(quota: int, inFlight: seq<nat>, served: nat)

  /** A request is admitted, or one that is in flight is charged. */
  datatype Turn = Admit(cost: nat) | Settle(i: nat)

  /** At most k requests are in flight; each is admitted by the check on the row as it is then. */
  function Serve(l: Load, turn: Turn, k: nat): Load {
    match turn
    case Admit(cost) =>
      if |l.inFlight| < k && QuotaAvailable(Some(Account(l.quota, 0)), None)
      then l.(inFlight := l.inFlight + [cost], served := l.served + cost) else l
    case Settle(i) =>
      if i >= |l.inFlight| then l
      else
        Load(if l.inFlight[i] == 0 then l.quota else Clamped(l.quota, l.inFlight[i]),
             l.inFlight[..i] + l.inFlight[i + 1..], l.served)
  }

  function ServeAll(quota: int, turns: seq<Turn>, k: nat): Load {
    if turns == [] then Load(quota, [], 0) else Serve(ServeAll(quota, Init(turns), k), Last(turns), k)
  }

  function Owed(costs: seq<nat>): int {
    Total(costs, (c: nat) => c)
  }

  lemma {:induction false} OwedBounded(costs: seq<nat>, most: nat, k: nat)
    requires |costs| <= k && forall c :: c in costs ==> c <= most
    ensures 0 <= Owed(costs) <= k * most
  {
    if costs != [] {
      assert Last(costs) in costs && forall c :: c in Init(costs) ==> c in costs;
      OwedBounded(Init(costs), most, k - 1);
      assert k * most == (k - 1) * most + most;
    } else {
      assert 0 <= k * most;
    }
  }

  /** While something is left, what was served is what was charged and what is in flight. */
  predicate Balanced(l: Load, quota: int, most: nat, k: nat) {
    && |l.inFlight| <= k && (forall c :: c in l.inFlight ==> c <= most)
    && (quota <= 0 ==> l == Load(quota, [], 0))
    && (quota > 0 ==> l.quota >= 0)
    && (l.quota > 0 ==> l.served == quota - l.quota + Owed(l.inFlight))
    && (quota > 0 && l.quota == 0 ==> l.served <= quota - 1 + k * most)
  }

  lemma AdmitKeepsBalance(l: Load, cost: nat, quota: int, most: nat, k: nat)
    requires quota != UNLIMITED && cost <= most && Balanced(l, quota, most, k)
    ensures Balanced(Serve(l, Admit(cost), k), quota, most, k)
  {
    assert Init(l.inFlight + [cost]) == l.inFlight;
  }

  lemma ChargeKeepsBalance(l: Load, i: nat, quota: int, most: nat, k: nat)
    requires i < |l.inFlight| && Balanced(l, quota, most, k)
    ensures Balanced(Serve(l, Settle(i), k), quota, most, k)
  {
    var left := l.inFlight[..i] + l.inFlight[i + 1..];
    assert forall c :: c in left ==> c in l.inFlight;
    assert l.inFlight[i] in l.inFlight;
    TotalWithout(l.inFlight, i, (c: nat) => c);
    OwedBounded(l.inFlight, most, k);
  }

  /** However admissions and charges interleave, a finite account with at most k requests in flight is
      served for less than its quota and k requests. */
  lemma {:induction false} AdmissionBoundsOverdraft(quota: int, turns: seq<Turn>, most: nat, k: nat)
    requires quota != UNLIMITED && forall t :: t in turns && t.Admit? ==> t.cost <= most
    ensures Balanced(ServeAll(quota, turns, k), quota, most, k)
    ensures ServeAll(quota, turns, k).served <= if quota <= 0 then 0 else quota - 1 + k * most
  {
    if turns != [] {
      var l := ServeAll(quota, Init(turns), k);
      assert Last(turns) in turns && forall t :: t in Init(turns) ==> t in turns;
      AdmissionBoundsOverdraft(quota, Init(turns), most, k);
      if Last(turns).Admit? {
        AdmitKeepsBalance(l, Last(turns).cost, quota, most, k);
      } else if Last(turns).i < |l.inFlight| {
        ChargeKeepsBalance(l, Last(turns).i, quota, most, k);
      }
    }
    OwedBounded(ServeAll(quota, turns, k).inFlight, most, k);
  }

  /** The limit and the use that the quota endpoints report (internal/handler/proxy.go:461-474). */
  function EffectiveQuota(user: Option<Account>, token: Option<Account>): (int, int) {
    if user.None? then (0, 0)
    else
      var own := user.value;
      var tighter := token.Some? && token.value.quota >= 0 && (own.quota < 0 || token.value.quota < own.quota);
      var row := if tighter then token.value else own;
      if row.quota < 0 then (-1, row.used) else (row.quota + row.used, row.used)
  }

  predicate Stored(row: Option<Account>) {
    row.Some? ==> row.value.quota >= UNLIMITED && row.value.used >= 0
  }

  /** What is reported to be left is the least that a finite row of user or key has left, and the use is that
      row's; without a finite row the limit is reported as unlimited and the use is the user's. */
  lemma ReportsTighterRow(user: Account, token: Option<Account>)
    requires Stored(Some(user)) && Stored(token)
    ensures var (limit, used) := EffectiveQuota(Some(user), token);
            var keyed := token.Some? && token.value.quota != UNLIMITED;
            && (limit == UNLIMITED <==> user.quota == UNLIMITED && !keyed)
            && (limit == UNLIMITED ==> used == user.used)
            && (limit != UNLIMITED ==>
                  && (user.quota != UNLIMITED ==> limit - used <= user.quota)
                  && (keyed ==> limit - used <= token.value.quota)
                  && ((user.quota != UNLIMITED && Account(limit - used, used) == user)
                      || (keyed && Account(limit - used, used) == token.value)))
  {
  }

  /** The report agrees with admission: a request is admitted exactly when the reported limit is unlimited
      or above the reported use. */
  lemma ReportAgreesWithAdmission(user: Option<Account>, token: Option<Account>)
    requires Stored(user) && Stored(token)
    ensures var (limit, used) := EffectiveQuota(user, token);
            QuotaAvailable(user, token) <==> limit == UNLIMITED || limit > used
  {
  }
}
