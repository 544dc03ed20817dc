/** The sliding-window limiter of internal/middleware/ratelimit.go. Times are nanoseconds and are
    read before the lock is taken, so a run is a list of calls in lock order. */
module RateLimit {
  import opened Text

  const SWEEP_THRESHOLD := 4096
  const MINUTE := 60_000_000_000
  const API_WINDOW := 3 * MINUTE
  const CRITICAL_WINDOW := 20 * MINUTE
  const DEFAULT_API_LIMIT := 480
  const DEFAULT_CRITICAL_LIMIT := 20

  type HitLog = map<string, seq<int>>

  /** The hits that a call at time now still counts. */
  function Younger(hits: seq<int>, now: int, window: int): seq<int> {
    if hits == [] then []
    else
      var older := Younger(Init(hits), now, window);
      if now - Last(hits) < window then older + [Last(hits)] else older
  }

  function HitsOf(log: HitLog, key: string): seq<int> {
    if key in log then log[key] else []
  }

  predicate Stale(hits: seq<int>, now: int, window: int) {
    hits == [] || now - Last(hits) > window
  }

  function Sweep(log: HitLog, now: int, window: int): HitLog {
    map k | k in log && !Stale(log[k], now, window) :: log[k]
  }

  /** A sweep that has looked at the keys in seen so far. */
  ghost function SweepSome(log: HitLog, seen: set<string>, now: int, window: int): HitLog {
    map k | k in log && !(k in seen && Stale(log[k], now, window)) :: log[k]
  }

  lemma SweepOneMore(log: HitLog, seen: set<string>, k: string, now: int, window: int)
    requires k !in seen && k in log
    ensures k in SweepSome(log, seen, now, window)
    ensures SweepSome(log, seen + {k}, now, window) ==
            if Stale(log[k], now, window) then SweepSome(log, seen, now, window) - {k}
            else SweepSome(log, seen, now, window)
  {
  }

  lemma SweepAll(log: HitLog, now: int, window: int)
    ensures SweepSome(log, {}, now, window) == log
    ensures SweepSome(log, log.Keys, now, window) == Sweep(log, now, window)
  {
  }

  /** What one call does to the log, and its answer. */
  function AllowStep(log: HitLog, key: string, max: int, window: int, now: int): (HitLog, bool) {
    var keep := Younger(HitsOf(log, key), now, window);
    if |keep| >= max then
      (log[key := keep], false)
    else
      var added := log[key := keep + [now]];
      (if |added| > SWEEP_THRESHOLD then Sweep(added, now, window) else added, true)
  }

  /* ---------------------------------------------------------------- the store itself */

  /** A Go slice: the first len elements of a backing array. */
  datatype Slice = Slice(data: array<int>, len: nat)

  class SlidingWindow {
    var hits: map<string, Slice>
    ghost var log: HitLog  // the hits each key holds
    ghost var arrays: set<array<int>>  // the backing arrays in use

    constructor ()
      ensures Valid() && log == map[] && arrays == {}
    {
      hits, log, arrays := map[], map[], {};
    }

    /** The slice of key k shows log[k]. */
    ghost predicate Holds(k: string)
      requires k in hits && k in log
      reads this, hits[k].data
    {
      hits[k].len <= hits[k].data.Length && hits[k].data[..hits[k].len] == log[k]
    }

    /** No two keys share a backing array. */
    ghost predicate Separate()
      reads this
    {
      && (forall k :: k in hits ==> hits[k].data in arrays)
      && (forall k, k' :: k in hits && k' in hits && k != k' ==> hits[k].data != hits[k'].data)
    }

    ghost predicate ValidBut(key: string)
      reads this, arrays
    {
      hits.Keys == log.Keys && Separate() && forall k :: k in hits && k != key ==> Holds(k)
    }

    ghost predicate Valid()
      reads this, arrays
    {
      hits.Keys == log.Keys && Separate() && forall k :: k in hits ==> Holds(k)
    }

    /** keep := arr[:0], filled from the same backing array that is being read. */
    method Prune(data: array<int>, n: nat, now: int, window: int) returns (kept: nat)
      requires n <= data.Length
      modifies data
      ensures kept <= n
      ensures data[..kept] == Younger(old(data[..n]), now, window)
    {
      ghost var was := data[..n];
      kept := 0;
      for i := 0 to n
        invariant kept <= i
        invariant data[..kept] == Younger(was[..i], now, window)
        invariant data[i..n] == was[i..]
      {
        assert was[..i + 1] == was[..i] + [was[i]] && data[i] == data[i..n][0];
        ghost var tail := data[i + 1..n];
        assert tail == data[i..n][1..];
        if now - data[i] < window {
          ghost var front := data[..kept];
          data[kept] := data[i];
          kept := kept + 1;
          assert data[..kept] == front + [was[i]];
        }
        assert data[i + 1..n] == tail;
      }
      assert was[..n] == was;
    }

    /** append(keep, now): in place while the capacity lasts, else into a larger copy. */
    method Append(data: array<int>, n: nat, now: int) returns (grown: array<int>)
      requires n <= data.Length
      modifies data
      ensures grown == data || fresh(grown)
      ensures n < grown.Length && grown[..n + 1] == old(data[..n]) + [now]
    {
      grown := data;
      if n == data.Length {
        grown := new int[2 * n + 1];
        for i := 0 to n
          invariant grown[..i] == data[..i]
          invariant data[..n] == old(data[..n])
        {
          grown[i] := data[i];
        }
      }
      grown[n] := now;
    }

    /** delete(s.hits, key). */
    method Delete(key: string)
      requires Valid()
      modifies this
      ensures Valid() && arrays == old(arrays)
      ensures log == old(log) - {key}
    {
      ghost var slices := hits;
      hits, log := hits - {key}, log - {key};
      forall k | k in hits ensures Holds(k) {
        assert k in slices && old(Holds(k));
      }
    }

    /** Drops the stale keys, in whatever order the map yields its keys. */
    method SweepKeys(now: int, window: int)
      requires Valid()
      modifies this
      ensures Valid() && arrays == old(arrays)
      ensures log == Sweep(old(log), now, window)
    {
      ghost var was, seen := log, {};
      SweepAll(was, now, window);
      var todo := hits.Keys;
      while todo != {}
        invariant Valid() && arrays == old(arrays)
        invariant seen + todo == was.Keys && seen !! todo
        invariant log == SweepSome(was, seen, now, window)
      {
        var k :| k in todo;
        SweepOneMore(was, seen, k, now, window);
        todo, seen := todo - {k}, seen + {k};
        if IsStale(k, now, window) {
          Delete(k);
        }
      }
      assert seen == was.Keys;
    }

    /** The sweep's test on one key. */
    predicate IsStale(k: string, now: int, window: int)
      requires k in hits && k in log && Holds(k)
      reads this, hits[k].data
      ensures IsStale(k, now, window) == Stale(log[k], now, window)
    {
      var v := hits[k];
      v.len == 0 || now - v.data[v.len - 1] > window
    }

    /** s.hits[key] = data[:n]. */
    method Store(key: string, data: array<int>, n: nat)
      requires ValidBut(key) && n <= data.Length
      requires forall k :: k in hits && k != key ==> hits[k].data != data
      modifies this
      ensures Valid() && arrays == old(arrays) + {data}
      ensures log == old(log)[key := data[..n]]
    {
      ghost var slices := hits;
      hits, log, arrays := hits[key := Slice(data, n)], log[key := data[..n]], arrays + {data};
      forall k | k in hits ensures Holds(k) {
        assert k != key ==> k in slices && old(Holds(k));
      }
    }

    /** The first half of a call: keep := arr[:0] and the pruning loop. */
    method PruneKey(key: string, now: int, window: int) returns (data: array<int>, kept: nat)
      requires Valid()
      modifies arrays
      ensures ValidBut(key) && kept <= data.Length
      ensures data[..kept] == Younger(HitsOf(log, key), now, window)
      ensures forall k :: k in hits && k != key ==> hits[k].data != data
      ensures data in arrays || fresh(data)
    {
      var n := 0;
      if key in hits {
        data, n := hits[key].data, hits[key].len;
        assert Holds(key);
      } else {
        data := new int[0];
      }
      assert data[..n] == HitsOf(log, key);
      kept := Prune(data, n, now, window);
      forall k | k in hits && k != key ensures Holds(k) {
        assert hits[k].data != data;
      }
    }

    /** s.hits[key] = append(keep, now). */
    method RecordHit(key: string, data: array<int>, kept: nat, now: int)
      requires ValidBut(key) && kept <= data.Length
      requires forall k :: k in hits && k != key ==> hits[k].data != data
      modifies this, data
      ensures Valid() && fresh(arrays - old(arrays) - {data})
      ensures log == old(log)[key := old(data[..kept]) + [now]]
    {
      var grown := Append(data, kept, now);
      forall k | k in hits && k != key ensures Holds(k) {
        assert hits[k].data != data;
      }
      Store(key, grown, kept + 1);
    }

    /** Records a hit and reports whether it fits the budget. */
    method Allow(key: string, max: int, window: int, now: int) returns (ok: bool)
      requires Valid()
      modifies this, arrays
      ensures Valid() && fresh(arrays - old(arrays))
      ensures (log, ok) == AllowStep(old(log), key, max, window, now)
    {
      var data, kept := PruneKey(key, now, window);
      if kept >= max {
        Store(key, data, kept);
        return false;
      }
      RecordHit(key, data, kept, now);
      assert |hits.Keys| == |log.Keys|;
      if |hits| > SWEEP_THRESHOLD {
        SweepKeys(now, window);
      }
      return true;
    }
  }

  /* ---------------------------------------------------------------- runs */

  datatype Tier = Tier(max: int, window: int)

  datatype Call = Call(key: string, now: int)

  /** What a limiter does on each call: the new log and the answer. */
  type Rule = (HitLog, Call) -> (HitLog, bool)

  /** The limiter; each key has its own tier, as the mark in front of the address fixes it. */
  function Limiter(tiers: string -> Tier): Rule {
    (log: HitLog, c: Call) => AllowStep(log, c.key, tiers(c.key).max, tiers(c.key).window, c.now)
  }

  function Answers(rule: Rule, log: HitLog, calls: seq<Call>): (answers: seq<bool>)
    ensures |answers| == |calls|
    decreases |calls|
  {
    if calls == [] then []
    else
      var (log', ok) := rule(log, calls[0]);
      [ok] + Answers(rule, log', calls[1..])
  }

  function LogAfter(rule: Rule, log: HitLog, calls: seq<Call>): HitLog
    decreases |calls|
  {
    if calls == [] then log else LogAfter(rule, rule(log, calls[0]).0, calls[1..])
  }

  lemma {:induction false} RunAppend(rule: Rule, log: HitLog, calls: seq<Call>, more: seq<Call>)
    ensures LogAfter(rule, log, calls + more) == LogAfter(rule, LogAfter(rule, log, calls), more)
    ensures Answers(rule, log, calls + more) ==
            Answers(rule, log, calls) + Answers(rule, LogAfter(rule, log, calls), more)
    decreases |calls|
  {
    if calls == [] {
      assert calls + more == more;
    } else {
      assert (calls + more)[1..] == calls[1..] + more;
      RunAppend(rule, rule(log, calls[0]).0, calls[1..], more);
    }
  }

  lemma RunOne(rule: Rule, log: HitLog, c: Call)
    ensures LogAfter(rule, log, [c]) == rule(log, c).0 && Answers(rule, log, [c]) == [rule(log, c).1]
  {
  }

  /** The reference: keep every accepted hit for ever, and count those younger than the window. */
  function NaiveStep(log: HitLog, key: string, t: Tier, now: int): (HitLog, bool) {
    if |Younger(HitsOf(log, key), now, t.window)| >= t.max then (log, false)
    else (log[key := HitsOf(log, key) + [now]], true)
  }

  function FullLog(tiers: string -> Tier): Rule {
    (log: HitLog, c: Call) => NaiveStep(log, c.key, tiers(c.key), c.now)
  }

  predicate InOrder(calls: seq<Call>) {
    forall i, j :: 0 <= i < j < |calls| ==> calls[i].now <= calls[j].now
  }

  /** The call is accepted and leaves so many keys that it sweeps. */
  predicate Sweeping(log: HitLog, c: Call, t: Tier) {
    var keep := Younger(HitsOf(log, c.key), c.now, t.window);
    |keep| < t.max && |log[c.key := keep + [c.now]]| > SWEEP_THRESHOLD
  }

  /** The sweep of call c drops key k although its youngest hit is within that key's own window. */
  predicate Forgets(log: HitLog, c: Call, t: Tier, k: string, window: int) {
    && Sweeping(log, c, t) && k in log && k != c.key && log[k] != []
    && t.window < c.now - Last(log[k]) < window
  }

  ghost predicate HarmlessCall(log: HitLog, c: Call, t: Tier, tiers: string -> Tier) {
    forall k :: k in log ==> !Forgets(log, c, t, k, tiers(k).window)
  }

  /** No sweep of the run drops a key that still has a hit within its own window. */
  ghost predicate SweepsHarmless(log: HitLog, calls: seq<Call>, tiers: string -> Tier)
    decreases |calls|
  {
    calls == [] ||
    (var c, t := calls[0], tiers(calls[0].key);
     && HarmlessCall(log, c, t, tiers)
     && SweepsHarmless(Limiter(tiers)(log, c).0, calls[1..], tiers))
  }

  /* ---------------------------------------------------------------- pruning and sweeping */

  predicate Chronological(hits: seq<int>, now: int) {
    && (forall i, j :: 0 <= i < j < |hits| ==> hits[i] <= hits[j])
    && (forall i :: 0 <= i < |hits| ==> hits[i] <= now)
  }

  lemma {:induction false} YoungerShape(hits: seq<int>, now: int, window: int)
    requires Chronological(hits, now)
    ensures Chronological(Younger(hits, now, window), now)
    ensures forall x :: x in Younger(hits, now, window) ==> x in hits
  {
    if hits != [] {
      var older := Younger(Init(hits), now, window);
      YoungerShape(Init(hits), now, window);
      forall x | x in older ensures x in hits && x <= Last(hits) {
        var i :| 0 <= i < |hits| - 1 && hits[i] == x;
      }
      assert forall i :: 0 <= i < |older| ==> older[i] in older;
    }
  }

  /** What is already too old stays too old: pruning early changes no later count. */
  lemma {:induction false} PruningIsUnobservable(hits: seq<int>, now: int, later: int, window: int)
    requires now <= later
    ensures Younger(Younger(hits, now, window), later, window) == Younger(hits, later, window)
  {
    if hits != [] {
      PruningIsUnobservable(Init(hits), now, later, window);
      var older := Younger(Init(hits), now, window);
      if now - Last(hits) < window {
        assert Init(older + [Last(hits)]) == older;
      }
    }
  }

  lemma {:induction false} AllOldMeansNone(hits: seq<int>, now: int, window: int)
    requires forall x :: x in hits ==> now - x >= window
    ensures Younger(hits, now, window) == []
  {
    if hits != [] {
      assert Last(hits) in hits && forall x :: x in Init(hits) ==> x in hits;
      AllOldMeansNone(Init(hits), now, window);
    }
  }

  /** Dropping a key is unobservable exactly when its youngest hit has left that key's own window. */
  lemma DropUnobservableExactly(hits: seq<int>, now: int, window: int)
    requires hits != [] && Chronological(hits, now)
    ensures (forall later :: later >= now ==> Younger(hits, later, window) == [])
            <==> now - Last(hits) >= window
  {
    if now - Last(hits) >= window {
      forall later | later >= now ensures Younger(hits, later, window) == [] {
        forall x | x in hits ensures later - x >= window {
          var i :| 0 <= i < |hits| && hits[i] == x;
        }
        AllOldMeansNone(hits, later, window);
      }
    } else {
      assert Younger(hits, now, window) != [];
    }
  }

  /* ---------------------------------------------------------------- refinement */

  /** Two logs give key the same count now and at every later time. */
  ghost predicate AgreeOn(log: HitLog, naive: HitLog, key: string, now: int, window: int) {
    forall later :: later >= now ==>
      Younger(HitsOf(log, key), later, window) == Younger(HitsOf(naive, key), later, window)
  }

  ghost predicate Simulates(log: HitLog, naive: HitLog, now: int, tiers: string -> Tier) {
    forall k :: AgreeOn(log, naive, k, now, tiers(k).window) && Chronological(HitsOf(log, k), now)
  }

  lemma AppendAgrees(log: HitLog, naive: HitLog, key: string, window: int, now: int)
    requires AgreeOn(log, naive, key, now, window)
    ensures var keep := Younger(HitsOf(log, key), now, window);
            forall later :: later >= now ==>
              && Younger(keep, later, window) == Younger(HitsOf(naive, key), later, window)
              && Younger(keep + [now], later, window) == Younger(HitsOf(naive, key) + [now], later, window)
  {
    var keep, all := Younger(HitsOf(log, key), now, window), HitsOf(naive, key);
    assert Init(keep + [now]) == keep && Init(all + [now]) == all;
    forall later | later >= now ensures Younger(keep, later, window) == Younger(all, later, window) {
      PruningIsUnobservable(HitsOf(log, key), now, later, window);
    }
  }

  /** A key whose hits survive, or are all old enough to go, keeps agreeing. */
  lemma SweepAgrees(added: HitLog, naive: HitLog, key: string, now: int, swept: int, window: int)
    requires AgreeOn(added, naive, key, now, window) && Chronological(HitsOf(added, key), now)
    requires key in added && added[key] != [] && now - Last(added[key]) > swept ==> now - Last(added[key]) >= window
    ensures AgreeOn(Sweep(added, now, swept), naive, key, now, window)
    ensures Chronological(HitsOf(Sweep(added, now, swept), key), now)
  {
    var log := Sweep(added, now, swept);
    if key in added && key !in log && added[key] != [] {
      DropUnobservableExactly(added[key], now, window);
      assert HitsOf(log, key) == [];
      forall later | later >= now
        ensures Younger(HitsOf(log, key), later, window) == Younger(HitsOf(naive, key), later, window)
      {
        assert Younger(HitsOf(added, key), later, window) == [];
      }
    } else {
      assert HitsOf(log, key) == HitsOf(added, key);
    }
  }

  lemma StepSimulates(log: HitLog, naive: HitLog, c: Call, was: int, tiers: string -> Tier)
    requires was <= c.now && Simulates(log, naive, was, tiers)
    requires HarmlessCall(log, c, tiers(c.key), tiers)
    ensures var t := tiers(c.key);
            var (log', ok) := AllowStep(log, c.key, t.max, t.window, c.now);
            var (naive', ok') := NaiveStep(naive, c.key, t, c.now);
            ok == ok' && Simulates(log', naive', c.now, tiers)
  {
    var t := tiers(c.key);
    SameAnswer(log, naive, c, was, t);
    forall k
      ensures AgreeOn(AllowStep(log, c.key, t.max, t.window, c.now).0, NaiveStep(naive, c.key, t, c.now).0,
                      k, c.now, tiers(k).window)
      ensures Chronological(HitsOf(AllowStep(log, c.key, t.max, t.window, c.now).0, k), c.now)
    {
      assert AgreeOn(log, naive, k, was, tiers(k).window) && Chronological(HitsOf(log, k), was);
      KeyStaysSimulated(log, naive, c, was, t, k, tiers(k).window);
    }
  }

  lemma SameAnswer(log: HitLog, naive: HitLog, c: Call, was: int, t: Tier)
    requires was <= c.now && AgreeOn(log, naive, c.key, was, t.window)
    ensures AllowStep(log, c.key, t.max, t.window, c.now).1 == NaiveStep(naive, c.key, t, c.now).1
  {
  }

  /** One call, as seen by one key: it keeps agreeing unless the sweep forgets it. */
  lemma KeyStaysSimulated(log: HitLog, naive: HitLog, c: Call, was: int, t: Tier, k: string, window: int)
    requires was <= c.now && AgreeOn(log, naive, k, was, window) && Chronological(HitsOf(log, k), was)
    requires AgreeOn(log, naive, c.key, was, t.window) && Chronological(HitsOf(log, c.key), was)
    requires k == c.key ==> window == t.window
    requires !Forgets(log, c, t, k, window)
    ensures AgreeOn(AllowStep(log, c.key, t.max, t.window, c.now).0, NaiveStep(naive, c.key, t, c.now).0,
                    k, c.now, window)
    ensures Chronological(HitsOf(AllowStep(log, c.key, t.max, t.window, c.now).0, k), c.now)
  {
    var keep := Younger(HitsOf(log, c.key), c.now, t.window);
    var (naive', ok) := NaiveStep(naive, c.key, t, c.now);
    SameAnswer(log, naive, c, was, t);
    var added := log[c.key := if ok then keep + [c.now] else keep];
    if k == c.key {
      StoredAgrees(log, naive, c, was, t);
    } else {
      assert HitsOf(added, k) == HitsOf(log, k) && HitsOf(naive', k) == HitsOf(naive, k);
    }
    if ok && |added| > SWEEP_THRESHOLD {
      SweepAgrees(added, naive', k, c.now, t.window, window);
    }
  }

  /** The limiter and the full log agree after a call, for all keys and all later times, exactly when the
      call's sweep forgets no key; the call itself is answered alike in any case. */
  lemma StepSimulatesExactly(log: HitLog, naive: HitLog, c: Call, was: int, tiers: string -> Tier)
    requires was <= c.now && Simulates(log, naive, was, tiers)
    ensures var t := tiers(c.key);
            var (log', ok) := AllowStep(log, c.key, t.max, t.window, c.now);
            var (naive', ok') := NaiveStep(naive, c.key, t, c.now);
            ok == ok' && (Simulates(log', naive', c.now, tiers) <==> HarmlessCall(log, c, t, tiers))
  {
    var t := tiers(c.key);
    assert AgreeOn(log, naive, c.key, was, t.window);
    SameAnswer(log, naive, c, was, t);
    if HarmlessCall(log, c, t, tiers) {
      StepSimulates(log, naive, c, was, tiers);
    } else {
      var k :| k in log && Forgets(log, c, t, k, tiers(k).window);
      ForgottenDisagrees(log, naive, c, was, t, k, tiers(k).window);
    }
  }

  lemma ForgottenDisagrees(log: HitLog, naive: HitLog, c: Call, was: int, t: Tier, k: string, window: int)
    requires was <= c.now && AgreeOn(log, naive, k, was, window) && Forgets(log, c, t, k, window)
    ensures k !in AllowStep(log, c.key, t.max, t.window, c.now).0
    ensures !AgreeOn(AllowStep(log, c.key, t.max, t.window, c.now).0, NaiveStep(naive, c.key, t, c.now).0,
                     k, c.now, window)
  {
    var log', naive' := AllowStep(log, c.key, t.max, t.window, c.now).0, NaiveStep(naive, c.key, t, c.now).0;
    assert HitsOf(log', k) == [] && HitsOf(naive', k) == HitsOf(naive, k);
    assert Younger(HitsOf(log, k), c.now, window) != [];
    assert Younger(HitsOf(log', k), c.now, window) != Younger(HitsOf(naive', k), c.now, window);
  }

  /** The key that is called keeps agreeing, whether or not its hit is accepted. */
  lemma StoredAgrees(log: HitLog, naive: HitLog, c: Call, was: int, t: Tier)
    requires was <= c.now
    requires AgreeOn(log, naive, c.key, was, t.window) && Chronological(HitsOf(log, c.key), was)
    ensures var keep := Younger(HitsOf(log, c.key), c.now, t.window);
            var (naive', ok) := NaiveStep(naive, c.key, t, c.now);
            var added := log[c.key := if ok then keep + [c.now] else keep];
            AgreeOn(added, naive', c.key, c.now, t.window) && Chronological(HitsOf(added, c.key), c.now)
  {
    assert AgreeOn(log, naive, c.key, c.now, t.window);
    AppendAgrees(log, naive, c.key, t.window, c.now);
    YoungerShape(HitsOf(log, c.key), c.now, t.window);
    var keep := Younger(HitsOf(log, c.key), c.now, t.window);
    var (naive', ok) := NaiveStep(naive, c.key, t, c.now);
    var added := log[c.key := if ok then keep + [c.now] else keep];
    assert HitsOf(added, c.key) == if ok then keep + [c.now] else keep;
    assert HitsOf(naive', c.key) == if ok then HitsOf(naive, c.key) + [c.now] else HitsOf(naive, c.key);
    assert Chronological(HitsOf(added, c.key), c.now);
    forall later | later >= c.now
      ensures Younger(HitsOf(added, c.key), later, t.window) == Younger(HitsOf(naive', c.key), later, t.window)
    {
    }
  }

  /** Pruning and sweeping are unobservable: the limiter answers every call of the run exactly as
      the naive full log does. */
  lemma {:induction false} AnswersLikeFullLog(
    log: HitLog, naive: HitLog, calls: seq<Call>, was: int, tiers: string -> Tier)
    requires Simulates(log, naive, was, tiers)
    requires InOrder(calls) && (calls != [] ==> was <= calls[0].now)
    requires SweepsHarmless(log, calls, tiers)
    ensures Answers(Limiter(tiers), log, calls) == Answers(FullLog(tiers), naive, calls)
    decreases |calls|
  {
    if calls != [] {
      var c, t := calls[0], tiers(calls[0].key);
      StepSimulates(log, naive, c, was, tiers);
      AnswersLikeFullLog(AllowStep(log, c.key, t.max, t.window, c.now).0,
                         NaiveStep(naive, c.key, t, c.now).0, calls[1..], c.now, tiers);
    }
  }

  /** One window for the whole run is enough for every sweep to be harmless. */
  lemma {:induction false} OneWindowIsHarmless(log: HitLog, calls: seq<Call>, tiers: string -> Tier, window: int)
    requires forall k :: tiers(k).window == window
    ensures SweepsHarmless(log, calls, tiers)
    decreases |calls|
  {
    if calls != [] {
      var c, t := calls[0], tiers(calls[0].key);
      OneWindowIsHarmless(Limiter(tiers)(log, c).0, calls[1..], tiers, window);
    }
  }

  /* ---------------------------------------------------------------- the budget */

  /** The accepted hits of key with from <= time < to. */
  function AcceptedIn(calls: seq<Call>, answers: seq<bool>, key: string, from: int, to: int): nat
    requires |calls| == |answers|
  {
    if calls == [] then 0
    else (if answers[0] && calls[0].key == key && from <= calls[0].now < to then 1 else 0)
         + AcceptedIn(calls[1..], answers[1..], key, from, to)
  }

  function CountIn(hits: seq<int>, from: int, to: int): nat {
    if hits == [] then 0
    else (if from <= Last(hits) < to then 1 else 0) + CountIn(Init(hits), from, to)
  }

  /** Hits inside a window that ends after now are young at now. */
  lemma {:induction false} WindowHitsAreYoung(hits: seq<int>, from: int, window: int, now: int)
    requires from <= now < from + window
    ensures CountIn(hits, from, from + window) <= |Younger(hits, now, window)|
  {
    if hits != [] {
      WindowHitsAreYoung(Init(hits), from, window, now);
    }
  }

  /** One call to the full log: the count in the window grows by what is accepted, and stays in budget. */
  lemma NaiveStepKeepsBudget(log: HitLog, c: Call, t: Tier, key: string, from: int, k: Tier)
    requires k.max >= 0 && CountIn(HitsOf(log, key), from, from + k.window) <= k.max && (c.key == key ==> t == k)
    ensures var (log', ok) := NaiveStep(log, c.key, t, c.now);
            && CountIn(HitsOf(log', key), from, from + k.window) <= k.max
            && CountIn(HitsOf(log', key), from, from + k.window) ==
               CountIn(HitsOf(log, key), from, from + k.window)
               + if ok && c.key == key && from <= c.now < from + k.window then 1 else 0
  {
    var hits := HitsOf(log, key);
    assert Init(hits + [c.now]) == hits;
    if c.key == key && from <= c.now < from + k.window {
      WindowHitsAreYoung(hits, from, k.window, c.now);
    }
  }

  lemma {:induction false} NaiveKeepsBudget(
    log: HitLog, calls: seq<Call>, key: string, from: int, tiers: string -> Tier)
    requires tiers(key).max >= 0
    requires CountIn(HitsOf(log, key), from, from + tiers(key).window) <= tiers(key).max
    ensures CountIn(HitsOf(log, key), from, from + tiers(key).window)
            + AcceptedIn(calls, Answers(FullLog(tiers), log, calls), key, from, from + tiers(key).window)
            <= tiers(key).max
    decreases |calls|
  {
    if calls != [] {
      var (log', ok) := FullLog(tiers)(log, calls[0]);
      NaiveStepKeepsBudget(log, calls[0], tiers(calls[0].key), key, from, tiers(key));
      NaiveKeepsBudget(log', calls[1..], key, from, tiers);
      AcceptedStep(FullLog(tiers), log, calls, key, from, from + tiers(key).window);
    }
  }

  lemma AcceptedStep(rule: Rule, log: HitLog, calls: seq<Call>, key: string, from: int, to: int)
    requires calls != []
    ensures var (log', ok) := rule(log, calls[0]);
            AcceptedIn(calls, Answers(rule, log, calls), key, from, to) ==
            (if ok && calls[0].key == key && from <= calls[0].now < to then 1 else 0)
            + AcceptedIn(calls[1..], Answers(rule, log', calls[1..]), key, from, to)
  {
    assert Answers(rule, log, calls)[1..] == Answers(rule, rule(log, calls[0]).0, calls[1..]);
  }

  /** From an empty log, no half-open interval from some moment on as long as the key's window holds more
      than max accepted hits. */
  ghost predicate InBudget(rule: Rule, calls: seq<Call>, key: string, from: int, t: Tier) {
    AcceptedIn(calls, Answers(rule, map[], calls), key, from, from + t.window) <= t.max
  }

  /** The budget holds in any run whose times are in order and whose sweeps are harmless. */
  lemma BudgetHolds(calls: seq<Call>, key: string, from: int, tiers: string -> Tier)
    requires InOrder(calls) && SweepsHarmless(map[], calls, tiers)
    requires tiers(key).max >= 0
    ensures InBudget(Limiter(tiers), calls, key, from, tiers(key))
  {
    if calls != [] {
      AnswersLikeFullLog(map[], map[], calls, calls[0].now, tiers);
      NaiveKeepsBudget(map[], calls, key, from, tiers);
    }
  }

  /** The young hits are those within the window that ends now. */
  lemma {:induction false} YoungAreInWindow(hits: seq<int>, now: int, window: int)
    requires forall x :: x in hits ==> x <= now
    ensures |Younger(hits, now, window)| == CountIn(hits, now - window + 1, now + 1)
  {
    if hits != [] {
      assert Last(hits) in hits && forall x :: x in Init(hits) ==> x in hits;
      YoungAreInWindow(Init(hits), now, window);
    }
  }

  /** The full log holds what was accepted. */
  lemma {:induction false} FullLogCounts(
    log: HitLog, calls: seq<Call>, key: string, from: int, to: int, tiers: string -> Tier)
    ensures CountIn(HitsOf(LogAfter(FullLog(tiers), log, calls), key), from, to) ==
            CountIn(HitsOf(log, key), from, to) + AcceptedIn(calls, Answers(FullLog(tiers), log, calls), key, from, to)
    decreases |calls|
  {
    if calls != [] {
      var (log', ok) := FullLog(tiers)(log, calls[0]);
      NaiveStepCounts(log, calls[0], tiers(calls[0].key), key, from, to);
      FullLogCounts(log', calls[1..], key, from, to, tiers);
      AcceptedStep(FullLog(tiers), log, calls, key, from, to);
    }
  }

  lemma NaiveStepCounts(log: HitLog, c: Call, t: Tier, key: string, from: int, to: int)
    ensures var (log', ok) := NaiveStep(log, c.key, t, c.now);
            CountIn(HitsOf(log', key), from, to) ==
            CountIn(HitsOf(log, key), from, to) + if ok && c.key == key && from <= c.now < to then 1 else 0
  {
    var hits := HitsOf(log, key);
    assert Init(hits + [c.now]) == hits;
  }

  lemma {:induction false} FullLogIsPast(log: HitLog, calls: seq<Call>, key: string, now: int, tiers: string -> Tier)
    requires (forall x :: x in HitsOf(log, key) ==> x <= now) && forall c :: c in calls ==> c.now <= now
    ensures forall x :: x in HitsOf(LogAfter(FullLog(tiers), log, calls), key) ==> x <= now
    decreases |calls|
  {
    if calls != [] {
      var c := calls[0];
      assert c in calls && forall x :: x in calls[1..] ==> x in calls;
      NaiveStepAdds(log, c, tiers(c.key), key);
      FullLogIsPast(NaiveStep(log, c.key, tiers(c.key), c.now).0, calls[1..], key, now, tiers);
    }
  }

  lemma NaiveStepAdds(log: HitLog, c: Call, t: Tier, key: string)
    ensures forall x :: x in HitsOf(NaiveStep(log, c.key, t, c.now).0, key) ==> x in HitsOf(log, key) || x == c.now
  {
  }

  lemma FullLogAllows(calls: seq<Call>, c: Call, tiers: string -> Tier)
    requires forall x :: x in calls ==> x.now <= c.now
    ensures var t, rule := tiers(c.key), FullLog(tiers);
            NaiveStep(LogAfter(rule, map[], calls), c.key, t, c.now).1 <==>
            AcceptedIn(calls, Answers(rule, map[], calls), c.key, c.now - t.window + 1, c.now + 1) < t.max
  {
    var t := tiers(c.key);
    FullLogIsPast(map[], calls, c.key, c.now, tiers);
    YoungAreInWindow(HitsOf(LogAfter(FullLog(tiers), map[], calls), c.key), c.now, t.window);
    FullLogCounts(map[], calls, c.key, c.now - t.window + 1, c.now + 1, tiers);
  }

  /** After any run whose sweeps are harmless a call is let through exactly when fewer than max hits of its key
      were accepted in the window that ends with it. */
  lemma AllowedExactly(calls: seq<Call>, c: Call, tiers: string -> Tier)
    requires InOrder(calls) && (calls != [] ==> Last(calls).now <= c.now) && SweepsHarmless(map[], calls, tiers)
    ensures var t, rule := tiers(c.key), Limiter(tiers);
            rule(LogAfter(rule, map[], calls), c).1 <==>
            AcceptedIn(calls, Answers(rule, map[], calls), c.key, c.now - t.window + 1, c.now + 1) < t.max
  {
    var t, was := tiers(c.key), if calls == [] then c.now else calls[0].now;
    var log, naive := LogAfter(Limiter(tiers), map[], calls), LogAfter(FullLog(tiers), map[], calls);
    RunSimulates(map[], map[], calls, was, tiers);
    AnswersLikeFullLog(map[], map[], calls, was, tiers);
    assert AgreeOn(log, naive, c.key, EndOf(calls, was), t.window);
    SameAnswer(log, naive, c, EndOf(calls, was), t);
    forall x | x in calls ensures x.now <= c.now {
      var i :| 0 <= i < |calls| && calls[i] == x;
    }
    FullLogAllows(calls, c, tiers);
  }

  /* ---------------------------------------------------------------- exactly when */

  /** n calls of one key at one moment. */
  function Burst(key: string, now: int, n: nat): seq<Call> {
    seq(n, i => Call(key, now))
  }

  lemma BurstStep(key: string, now: int, n: nat)
    requires n > 0
    ensures Burst(key, now, n)[0] == Call(key, now) && Burst(key, now, n)[1..] == Burst(key, now, n - 1)
  {
  }

  lemma {:induction false} AcceptedAppend(
    calls: seq<Call>, answers: seq<bool>, calls': seq<Call>, answers': seq<bool>, key: string, from: int, to: int)
    requires |calls| == |answers| && |calls'| == |answers'|
    ensures AcceptedIn(calls + calls', answers + answers', key, from, to) ==
            AcceptedIn(calls, answers, key, from, to) + AcceptedIn(calls', answers', key, from, to)
  {
    if calls == [] {
      assert calls + calls' == calls' && answers + answers' == answers';
    } else {
      assert (calls + calls')[1..] == calls[1..] + calls' && (answers + answers')[1..] == answers[1..] + answers';
      AcceptedAppend(calls[1..], answers[1..], calls', answers', key, from, to);
    }
  }

  function EndOf(calls: seq<Call>, was: int): int {
    if calls == [] then was else Last(calls).now
  }

  lemma {:induction false} RunSimulates(
    log: HitLog, naive: HitLog, calls: seq<Call>, was: int, tiers: string -> Tier)
    requires Simulates(log, naive, was, tiers) && SweepsHarmless(log, calls, tiers)
    requires InOrder(calls) && (calls != [] ==> was <= calls[0].now)
    ensures Simulates(LogAfter(Limiter(tiers), log, calls), LogAfter(FullLog(tiers), naive, calls),
                      EndOf(calls, was), tiers)
    decreases |calls|
  {
    if calls != [] {
      var c, t := calls[0], tiers(calls[0].key);
      StepSimulates(log, naive, c, was, tiers);
      RunSimulates(AllowStep(log, c.key, t.max, t.window, c.now).0,
                   NaiveStep(naive, c.key, t, c.now).0, calls[1..], c.now, tiers);
    }
  }

  lemma {:induction false} HarmlessPrefix(log: HitLog, calls: seq<Call>, n: nat, tiers: string -> Tier)
    requires n <= |calls| && SweepsHarmless(log, calls, tiers)
    ensures SweepsHarmless(log, calls[..n], tiers)
    decreases |calls|
  {
    if n > 0 {
      var c, t := calls[0], tiers(calls[0].key);
      assert calls[..n][1..] == calls[1..][..n - 1];
      HarmlessPrefix(Limiter(tiers)(log, c).0, calls[1..], n - 1, tiers);
    }
  }

  /** A burst is answered as the full log answers it, whatever its own sweeps do to other keys. */
  lemma {:induction false} BurstLikeFullLog(
    log: HitLog, naive: HitLog, key: string, now: int, n: nat, tiers: string -> Tier)
    requires AgreeOn(log, naive, key, now, tiers(key).window) && Chronological(HitsOf(log, key), now)
    ensures Answers(Limiter(tiers), log, Burst(key, now, n)) == Answers(FullLog(tiers), naive, Burst(key, now, n))
    decreases n
  {
    if n > 0 {
      var c, t := Call(key, now), tiers(key);
      BurstStep(key, now, n);
      SameAnswer(log, naive, c, now, t);
      KeyStaysSimulated(log, naive, c, now, t, key, t.window);
      BurstLikeFullLog(AllowStep(log, key, t.max, t.window, now).0, NaiveStep(naive, key, t, now).0,
                       key, now, n - 1, tiers);
    }
  }

  lemma {:induction false} NoneOfOthers(calls: seq<Call>, answers: seq<bool>, key: string, from: int, to: int)
    requires |calls| == |answers| && forall i :: 0 <= i < |calls| ==> calls[i].key != key
    ensures AcceptedIn(calls, answers, key, from, to) == 0
  {
    if calls != [] {
      NoneOfOthers(calls[1..], answers[1..], key, from, to);
    }
  }

  /** Two rules that answer a run alike keep the same budgets. */
  lemma SameAnswersSameBudget(
    rule: Rule, naive: Rule, calls: seq<Call>, more: seq<Call>, key: string, from: int, t: Tier)
    requires Answers(rule, map[], calls) == Answers(naive, map[], calls)
    requires Answers(rule, LogAfter(rule, map[], calls), more) == Answers(naive, LogAfter(naive, map[], calls), more)
    requires InBudget(naive, calls + more, key, from, t)
    ensures InBudget(rule, calls + more, key, from, t)
  {
    RunAppend(rule, map[], calls, more);
    RunAppend(naive, map[], calls, more);
  }

  /** Calls of other keys do not count. */
  lemma OthersInBudget(rule: Rule, calls: seq<Call>, more: seq<Call>, key: string, from: int, t: Tier)
    requires InBudget(rule, calls, key, from, t) && forall i :: 0 <= i < |more| ==> more[i].key != key
    ensures InBudget(rule, calls + more, key, from, t)
  {
    var log := LogAfter(rule, map[], calls);
    RunAppend(rule, map[], calls, more);
    NoneOfOthers(more, Answers(rule, log, more), key, from, from + t.window);
    AcceptedAppend(calls, Answers(rule, map[], calls), more, Answers(rule, log, more), key, from, from + t.window);
  }

  /** After a harmless run a burst is answered as by the full log. */
  lemma BurstAfterRun(calls: seq<Call>, key: string, n: nat, tiers: string -> Tier)
    requires calls != [] && InOrder(calls) && SweepsHarmless(map[], calls, tiers)
    ensures var more := Burst(key, Last(calls).now, n);
            Answers(Limiter(tiers), LogAfter(Limiter(tiers), map[], calls), more) ==
            Answers(FullLog(tiers), LogAfter(FullLog(tiers), map[], calls), more)
  {
    var log, naive := LogAfter(Limiter(tiers), map[], calls), LogAfter(FullLog(tiers), map[], calls);
    RunSimulates(map[], map[], calls, calls[0].now, tiers);
    assert AgreeOn(log, naive, key, Last(calls).now, tiers(key).window);
    BurstLikeFullLog(log, naive, key, Last(calls).now, n, tiers);
  }

  lemma FullLogInBudget(calls: seq<Call>, key: string, from: int, tiers: string -> Tier)
    requires tiers(key).max >= 0
    ensures InBudget(FullLog(tiers), calls, key, from, tiers(key))
  {
    NaiveKeepsBudget(map[], calls, key, from, tiers);
  }

  /** After a harmless run a burst of a key does not break that key's budget. */
  lemma OwnBurstInBudget(calls: seq<Call>, key: string, n: nat, from: int, tiers: string -> Tier)
    requires calls != [] && InOrder(calls) && SweepsHarmless(map[], calls, tiers) && tiers(key).max >= 0
    ensures InBudget(Limiter(tiers), calls + Burst(key, Last(calls).now, n), key, from, tiers(key))
  {
    var more := Burst(key, Last(calls).now, n);
    BurstAfterRun(calls, key, n, tiers);
    AnswersLikeFullLog(map[], map[], calls, calls[0].now, tiers);
    FullLogInBudget(calls + more, key, from, tiers);
    SameAnswersSameBudget(Limiter(tiers), FullLog(tiers), calls, more, key, from, tiers(key));
  }

  /** After a harmless run no burst breaks any budget. */
  lemma BurstInBudget(calls: seq<Call>, key: string, n: nat, j: string, from: int, tiers: string -> Tier)
    requires calls != [] && InOrder(calls) && SweepsHarmless(map[], calls, tiers) && tiers(j).max >= 0
    ensures InBudget(Limiter(tiers), calls + Burst(key, Last(calls).now, n), j, from, tiers(j))
  {
    if j == key {
      OwnBurstInBudget(calls, key, n, from, tiers);
    } else {
      BudgetHolds(calls, j, from, tiers);
      OthersInBudget(Limiter(tiers), calls, Burst(key, Last(calls).now, n), j, from, tiers(j));
    }
  }

  lemma {:induction false} YoungerCount(hits: seq<int>, now: int, window: int, from: int, to: int)
    ensures CountIn(Younger(hits, now, window), from, to) <= CountIn(hits, from, to)
  {
    if hits != [] {
      YoungerCount(Init(hits), now, window, from, to);
      var older := Younger(Init(hits), now, window);
      assert Init(older + [Last(hits)]) == older;
    }
  }

  lemma HitsOfStep(log: HitLog, c: Call, t: Tier, key: string, from: int, to: int)
    ensures var (log', ok) := AllowStep(log, c.key, t.max, t.window, c.now);
            CountIn(HitsOf(log', key), from, to) <=
            CountIn(HitsOf(log, key), from, to) + if ok && c.key == key && from <= c.now < to then 1 else 0
  {
    var keep := Younger(HitsOf(log, c.key), c.now, t.window);
    YoungerCount(HitsOf(log, c.key), c.now, t.window, from, to);
    assert Init(keep + [c.now]) == keep;
  }

  /** What the log holds was accepted in the run. */
  lemma {:induction false} HitsWereAccepted(
    log: HitLog, calls: seq<Call>, key: string, from: int, to: int, tiers: string -> Tier)
    ensures CountIn(HitsOf(LogAfter(Limiter(tiers), log, calls), key), from, to) <=
            CountIn(HitsOf(log, key), from, to) + AcceptedIn(calls, Answers(Limiter(tiers), log, calls), key, from, to)
    decreases |calls|
  {
    if calls != [] {
      var c, t := calls[0], tiers(calls[0].key);
      var (log', ok) := AllowStep(log, c.key, t.max, t.window, c.now);
      HitsOfStep(log, c, t, key, from, to);
      AcceptedStep(Limiter(tiers), log, calls, key, from, to);
      HitsWereAccepted(log', calls[1..], key, from, to, tiers);
    }
  }

  lemma AppendedChronological(hits: seq<int>, was: int, now: int, window: int)
    requires was <= now && Chronological(hits, was)
    ensures Chronological(Younger(hits, now, window), now)
    ensures Chronological(Younger(hits, now, window) + [now], now)
  {
    YoungerShape(hits, now, window);
  }

  lemma StepChronological(log: HitLog, c: Call, t: Tier, was: int, key: string)
    requires was <= c.now && Chronological(HitsOf(log, key), was) && Chronological(HitsOf(log, c.key), was)
    ensures Chronological(HitsOf(AllowStep(log, c.key, t.max, t.window, c.now).0, key), c.now)
  {
    AppendedChronological(HitsOf(log, c.key), was, c.now, t.window);
    var log', keep := AllowStep(log, c.key, t.max, t.window, c.now).0, Younger(HitsOf(log, c.key), c.now, t.window);
    assert HitsOf(log', key) in {[], HitsOf(log, key), keep, keep + [c.now]};
  }

  lemma {:induction false} LogChronological(log: HitLog, calls: seq<Call>, was: int, tiers: string -> Tier)
    requires forall k :: Chronological(HitsOf(log, k), was)
    requires InOrder(calls) && (calls != [] ==> was <= calls[0].now)
    ensures forall k :: Chronological(HitsOf(LogAfter(Limiter(tiers), log, calls), k), EndOf(calls, was))
    decreases |calls|
  {
    if calls != [] {
      var c, t := calls[0], tiers(calls[0].key);
      var log' := AllowStep(log, c.key, t.max, t.window, c.now).0;
      forall k ensures Chronological(HitsOf(log', k), c.now) {
        StepChronological(log, c, t, was, k);
      }
      LogChronological(log', calls[1..], c.now, tiers);
    }
  }

  predicate AllAt(hits: seq<int>, now: int) {
    forall i :: 0 <= i < |hits| ==> hits[i] == now
  }

  lemma {:induction false} YoungerAllAt(hits: seq<int>, now: int, window: int)
    requires AllAt(hits, now) && window > 0
    ensures Younger(hits, now, window) == hits
  {
    if hits != [] {
      YoungerAllAt(Init(hits), now, window);
    }
  }

  /** A key without older hits is let through until its budget is full. */
  lemma {:induction false} BurstAccepted(
    log: HitLog, key: string, now: int, n: nat, from: int, to: int, tiers: string -> Tier)
    requires AllAt(HitsOf(log, key), now) && |HitsOf(log, key)| + n <= tiers(key).max
    requires tiers(key).window > 0 && from <= now < to
    ensures AcceptedIn(Burst(key, now, n), Answers(Limiter(tiers), log, Burst(key, now, n)), key, from, to) == n
    decreases n
  {
    if n > 0 {
      var t, hits := tiers(key), HitsOf(log, key);
      var log' := AllowStep(log, key, t.max, t.window, now).0;
      BurstStep(key, now, n);
      YoungerAllAt(hits, now, t.window);
      assert HitsOf(log', key) == hits + [now];
      BurstAccepted(log', key, now, n - 1, from, to, tiers);
      AcceptedStep(Limiter(tiers), log, Burst(key, now, n), key, from, to);
    }
  }

  lemma CountsLast(hits: seq<int>, to: int)
    requires hits != [] && Last(hits) < to
    ensures CountIn(hits, Last(hits), to) >= 1
  {
  }

  lemma HitsAreInPast(calls: seq<Call>, key: string, tiers: string -> Tier)
    requires InOrder(calls) && HitsOf(LogAfter(Limiter(tiers), map[], calls), key) != []
    ensures calls != [] && Last(HitsOf(LogAfter(Limiter(tiers), map[], calls), key)) <= Last(calls).now
  {
    if calls != [] {
      LogChronological(map[], calls, calls[0].now, tiers);
      assert Chronological(HitsOf(LogAfter(Limiter(tiers), map[], calls), key), Last(calls).now);
    }
  }

  /** The youngest hit of a key was accepted in the run. */
  lemma LastHitWasAccepted(calls: seq<Call>, key: string, to: int, tiers: string -> Tier)
    requires HitsOf(LogAfter(Limiter(tiers), map[], calls), key) != []
    requires Last(HitsOf(LogAfter(Limiter(tiers), map[], calls), key)) < to
    ensures AcceptedIn(calls, Answers(Limiter(tiers), map[], calls), key,
                       Last(HitsOf(LogAfter(Limiter(tiers), map[], calls), key)), to) >= 1
  {
    var hits := HitsOf(LogAfter(Limiter(tiers), map[], calls), key);
    CountsLast(hits, to);
    HitsWereAccepted(map[], calls, key, Last(hits), to, tiers);
  }

  /** A key that is forgotten can at once spend its whole budget again. */
  lemma ForgettingBreaksBudget(calls: seq<Call>, c: Call, key: string, tiers: string -> Tier)
    requires InOrder(calls) && (calls != [] ==> Last(calls).now <= c.now) && tiers(key).max >= 0
    requires Forgets(LogAfter(Limiter(tiers), map[], calls), c, tiers(c.key), key, tiers(key).window)
    ensures !InBudget(Limiter(tiers), calls + [c] + Burst(key, c.now, tiers(key).max), key,
                      Last(LogAfter(Limiter(tiers), map[], calls)[key]), tiers(key))
  {
    var log, t := LogAfter(Limiter(tiers), map[], calls), tiers(key);
    var from, to := Last(log[key]), Last(log[key]) + t.window;
    HitsAreInPast(calls, key, tiers);
    LastHitWasAccepted(calls, key, to, tiers);
    ForgottenIsGone(log, c, key, tiers);
    BurstAccepted(LogAfter(Limiter(tiers), log, [c]), key, c.now, t.max, from, to, tiers);
    AcceptedTwiceBreaksBudget(Limiter(tiers), calls, c, Burst(key, c.now, t.max), key, from, t);
  }

  lemma ForgottenIsGone(log: HitLog, c: Call, key: string, tiers: string -> Tier)
    requires Forgets(log, c, tiers(c.key), key, tiers(key).window)
    ensures HitsOf(LogAfter(Limiter(tiers), log, [c]), key) == []
  {
    RunOne(Limiter(tiers), log, c);
  }

  /** A hit, a call and another whole budget within one window. */
  lemma AcceptedTwiceBreaksBudget(
    rule: Rule, calls: seq<Call>, c: Call, more: seq<Call>, key: string, from: int, t: Tier)
    requires AcceptedIn(calls, Answers(rule, map[], calls), key, from, from + t.window) >= 1
    requires AcceptedIn(more, Answers(rule, LogAfter(rule, LogAfter(rule, map[], calls), [c]), more),
                        key, from, from + t.window) >= t.max
    ensures !InBudget(rule, calls + [c] + more, key, from, t)
  {
    var log := LogAfter(rule, map[], calls);
    var log' := LogAfter(rule, log, [c]);
    var to := from + t.window;
    RunAppend(rule, map[], calls, [c]);
    RunAppend(rule, map[], calls + [c], more);
    AcceptedAppend(calls, Answers(rule, map[], calls), [c], Answers(rule, log, [c]), key, from, to);
    AcceptedAppend(calls + [c], Answers(rule, map[], calls + [c]), more, Answers(rule, log', more), key, from, to);
  }

  lemma RunCons(rule: Rule, log: HitLog, c: Call, calls: seq<Call>)
    ensures LogAfter(rule, log, [c] + calls) == LogAfter(rule, rule(log, c).0, calls)
  {
    assert ([c] + calls)[1..] == calls;
  }

  lemma {:induction false} FirstHarm(log: HitLog, calls: seq<Call>, tiers: string -> Tier) returns (n: nat)
    requires !SweepsHarmless(log, calls, tiers)
    ensures n < |calls|
    ensures !HarmlessCall(LogAfter(Limiter(tiers), log, calls[..n]), calls[n], tiers(calls[n].key), tiers)
    decreases |calls|
  {
    var c, rest := calls[0], calls[1..];
    if HarmlessCall(log, c, tiers(c.key), tiers) {
      var k := FirstHarm(Limiter(tiers)(log, c).0, rest, tiers);
      RunCons(Limiter(tiers), log, c, rest[..k]);
      n := k + 1;
      assert calls[..n] == [c] + rest[..k] && calls[n] == rest[k];
    } else {
      n := 0;
    }
  }

  /** After n calls of the run, m more calls of one key exceed no budget. */
  ghost predicate BurstSafe(
    calls: seq<Call>, n: nat, key: string, m: nat, j: string, from: int, tiers: string -> Tier)
  {
    0 < n <= |calls| ==>
      InBudget(Limiter(tiers), calls[..n] + Burst(key, calls[n - 1].now, m), j, from, tiers(j))
  }

  /** At each moment of the run, whichever key then calls however often, no budget is exceeded. */
  ghost predicate BudgetSafe(calls: seq<Call>, tiers: string -> Tier) {
    forall n, key, m, j, from :: BurstSafe(calls, n, key, m, j, from, tiers)
  }

  /** The budgets are safe throughout a run exactly when none of its sweeps forgets a key that still has a
      hit within its own window. */
  lemma BudgetSafeExactly(calls: seq<Call>, tiers: string -> Tier)
    requires InOrder(calls) && forall k :: tiers(k).max >= 0
    ensures BudgetSafe(calls, tiers) <==> SweepsHarmless(map[], calls, tiers)
  {
    if SweepsHarmless(map[], calls, tiers) {
      forall n: nat, key, m: nat, j, from ensures BurstSafe(calls, n, key, m, j, from, tiers) {
        if 0 < n <= |calls| {
          HarmlessPrefix(map[], calls, n, tiers);
          BurstInBudget(calls[..n], key, m, j, from, tiers);
        }
      }
    } else {
      HarmIsUnsafe(calls, tiers);
    }
  }

  lemma HarmIsUnsafe(calls: seq<Call>, tiers: string -> Tier)
    requires InOrder(calls) && (forall k :: tiers(k).max >= 0) && !SweepsHarmless(map[], calls, tiers)
    ensures !BudgetSafe(calls, tiers)
  {
    var n := FirstHarm(map[], calls, tiers);
    var log, c := LogAfter(Limiter(tiers), map[], calls[..n]), calls[n];
    var k :| k in log && Forgets(log, c, tiers(c.key), k, tiers(k).window);
    ForgettingIsUnsafe(calls, n, k, tiers);
  }

  lemma ForgettingIsUnsafe(calls: seq<Call>, n: nat, key: string, tiers: string -> Tier)
    requires InOrder(calls) && n < |calls| && tiers(key).max >= 0
    requires Forgets(LogAfter(Limiter(tiers), map[], calls[..n]), calls[n], tiers(calls[n].key), key, tiers(key).window)
    ensures !BudgetSafe(calls, tiers)
  {
    assert calls[..n] + [calls[n]] == calls[..n + 1] && (n > 0 ==> Last(calls[..n]) == calls[n - 1]);
    ForgettingBreaksBudget(calls[..n], calls[n], key, tiers);
    var from := Last(LogAfter(Limiter(tiers), map[], calls[..n])[key]);
    assert !BurstSafe(calls, n + 1, key, tiers(key).max, key, from, tiers);
  }

  /* ---------------------------------------------------------------- two windows on one store */

  function Dots(n: nat): string {
    if n == 0 then "" else "." + Dots(n - 1)
  }

  lemma {:induction false} DotsLength(n: nat)
    ensures |Dots(n)| == n
  {
    if n > 0 { DotsLength(n - 1); }
  }

  /** Keys marked "c" have one tier, all others have the other. */
  function TwoTiers(a: Tier, c: Tier): string -> Tier {
    (key: string) => if key != "" && key[0] == 'c' then c else a
  }

  /** n calls from n different addresses. */
  function Crowd(n: nat, now: int): seq<Call> {
    if n == 0 then [] else Crowd(n - 1, now) + [CrowdCall(n, now)]
  }

  function CrowdCall(n: nat, now: int): Call {
    Call("a" + Dots(n), now)
  }

  lemma {:induction false} CrowdTimes(n: nat, now: int)
    ensures |Crowd(n, now)| == n && forall i :: 0 <= i < n ==> Crowd(n, now)[i].now == now
  {
    if n > 0 { CrowdTimes(n - 1, now); }
  }

  ghost predicate CrowdedLog(log: HitLog, n: nat) {
    && |log| == n + 1
    && "c" in log && log["c"] == [0]
    && (forall k :: k in log && k != "c" ==> |k| <= n + 1)
  }

  lemma CrowdCallIsNew(log: HitLog, n: nat, now: int)
    requires n > 0 && CrowdedLog(log, n - 1)
    ensures CrowdCall(n, now).key !in log && |CrowdCall(n, now).key| == n + 1
  {
    DotsLength(n);
  }

  /** The first hit of a new address, while the map is small enough not to be swept. */
  lemma NewKeyStep(log: HitLog, key: string, t: Tier, now: int)
    requires key !in log && t.max > 0 && |log| < SWEEP_THRESHOLD
    ensures AllowStep(log, key, t.max, t.window, now) == (log[key := [now]], true)
  {
    assert [] + [now] == [now] && HitsOf(log, key) == [];
    assert |log[key := [now]]| == |log| + 1;
  }

  lemma CrowdedOneMore(log: HitLog, key: string, n: nat, now: int)
    requires n > 0 && CrowdedLog(log, n - 1) && key !in log && |key| == n + 1
    ensures CrowdedLog(log[key := [now]], n)
  {
  }

  lemma CrowdStep(log: HitLog, n: nat, now: int, a: Tier, c: Tier)
    requires 0 < n < SWEEP_THRESHOLD && CrowdedLog(log, n - 1) && a.max > 0
    ensures CrowdedLog(Limiter(TwoTiers(a, c))(log, CrowdCall(n, now)).0, n)
  {
    var call := CrowdCall(n, now);
    CrowdCallIsNew(log, n, now);
    NewKeyStep(log, call.key, a, now);
    CrowdedOneMore(log, call.key, n, now);
  }

  lemma RunSnoc(rule: Rule, log: HitLog, calls: seq<Call>, c: Call)
    ensures LogAfter(rule, log, calls + [c]) == rule(LogAfter(rule, log, calls), c).0
  {
    RunAppend(rule, log, calls, [c]);
    RunOne(rule, LogAfter(rule, log, calls), c);
  }

  /** A rule that takes each new address fills the log with the crowd. */
  lemma {:induction false} CrowdFills(rule: Rule, one: HitLog, n: nat, now: int)
    requires n < SWEEP_THRESHOLD && CrowdedLog(one, 0)
    requires forall log, k: nat :: 0 < k <= n && CrowdedLog(log, k - 1) ==>
               CrowdedLog(rule(log, CrowdCall(k, now)).0, k)
    ensures CrowdedLog(LogAfter(rule, one, Crowd(n, now)), n)
  {
    if n > 0 {
      CrowdFills(rule, one, n - 1, now);
      RunSnoc(rule, one, Crowd(n - 1, now), CrowdCall(n, now));
    }
  }

  /** One hit of "c" and then a crowd. */
  lemma CrowdFillsLog(n: nat, now: int, a: Tier, c: Tier)
    requires n < SWEEP_THRESHOLD && a.max > 0 && c.max > 0
    ensures CrowdedLog(LogAfter(Limiter(TwoTiers(a, c)), map[], [Call("c", 0)] + Crowd(n, now)), n)
  {
    var rule, none, one: HitLog := Limiter(TwoTiers(a, c)), map[], map["c" := [0]];
    assert none["c" := [0]] == one && |one| == 1;
    NewKeyStep(none, "c", c, 0);
    RunOne(rule, none, Call("c", 0));
    RunAppend(rule, none, [Call("c", 0)], Crowd(n, now));
    forall log, k: nat | 0 < k <= n && CrowdedLog(log, k - 1)
      ensures CrowdedLog(rule(log, CrowdCall(k, now)).0, k)
    {
      CrowdStep(log, k, now, a, c);
    }
    CrowdFills(rule, one, n, now);
  }

  /** The call that makes the map sweep forgets "c" between the two windows. */
  lemma CrowdForgets(log: HitLog, n: nat, a: Tier, c: Tier)
    requires n == SWEEP_THRESHOLD && CrowdedLog(log, n - 1)
    requires a.max > 0 && 0 <= a.window && a.window + 1 < c.window
    ensures Forgets(log, CrowdCall(n, a.window + 1), a, "c", c.window)
  {
    var call := CrowdCall(n, a.window + 1);
    CrowdCallIsNew(log, n, a.window + 1);
    assert HitsOf(log, call.key) == [] && |log[call.key := [] + [call.now]]| == |log| + 1;
  }

  predicate OneEarlier(calls: seq<Call>, now: int) {
    calls != [] && calls[0].now <= now && forall i :: 0 < i < |calls| ==> calls[i].now == now
  }

  lemma OneEarlierInOrder(calls: seq<Call>, now: int)
    requires OneEarlier(calls, now)
    ensures InOrder(calls) && Last(calls).now <= now
  {
  }

  lemma CrowdTimesInOrder(n: nat, now: int, m: nat)
    requires now >= 0
    ensures OneEarlier([Call("c", 0)] + Crowd(n, now), now)
    ensures OneEarlier([Call("c", 0)] + Crowd(n, now) + [CrowdCall(n + 1, now)] + Burst("c", now, m), now)
  {
    CrowdTimes(n, now);
  }

  /** Two tiers on one store break the budget of the one with the longer window, whatever their limits are: one
      sweep by the shorter tier forgets a hit that is still young. */
  lemma MixedWindowsBreakBudget(a: Tier, c: Tier) returns (calls: seq<Call>)
    requires a.max > 0 && c.max > 0 && 0 <= a.window && a.window + 1 < c.window
    ensures InOrder(calls) && !InBudget(Limiter(TwoTiers(a, c)), calls, "c", 0, c)
  {
    var n: nat :| n == SWEEP_THRESHOLD;
    var now, before := a.window + 1, [Call("c", 0)] + Crowd(n - 1, a.window + 1);
    CrowdFillsLog(n - 1, now, a, c);
    CrowdForgets(LogAfter(Limiter(TwoTiers(a, c)), map[], before), n, a, c);
    calls := before + [CrowdCall(n, now)] + Burst("c", now, c.max);
    CrowdTimesInOrder(n - 1, now, c.max);
    OneEarlierInOrder(before, now);
    OneEarlierInOrder(calls, now);
    ForgettingBreaksBudget(before, CrowdCall(n, now), "c", TwoTiers(a, c));
    assert Last(LogAfter(Limiter(TwoTiers(a, c)), map[], before)["c"]) == 0;
  }

  /** In particular the default tiers do. */
  lemma DefaultTiersBreakBudget() returns (calls: seq<Call>)
    ensures var a, c := Tier(DEFAULT_API_LIMIT, API_WINDOW), Tier(DEFAULT_CRITICAL_LIMIT, CRITICAL_WINDOW);
            InOrder(calls) && !InBudget(Limiter(TwoTiers(a, c)), calls, "c", 0, c)
  {
    calls := MixedWindowsBreakBudget(
      Tier(DEFAULT_API_LIMIT, API_WINDOW), Tier(DEFAULT_CRITICAL_LIMIT, CRITICAL_WINDOW));
  }
}
