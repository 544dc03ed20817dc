/** Runs of several gateway instances that share one Redis key and one database: how old a served
    snapshot can be, and when an invalidation takes effect everywhere.

    A reload is two steps, reading and installing, because the instance's lock does not stop other
    instances, the database or the shared key from changing in between. */
module Fleet {
  import opened Options
  import opened Text
  import opened Gateway

  datatype Node = Node(memory: Memory, pending: Option<Pending>)

  datatype World = World(now: nat, rows: seq<Channel>, shared: Option<Copy>, nodes: seq<Node>)

  datatype Op =
    | Mutate(rows: seq<Channel>)                       // an admin changes channels
    | Begin(i: nat, sharedUp: bool, databaseUp: bool)  // instance i reads, if it is stale
    | Finish(i: nat, setUp: bool)                      // instance i installs and publishes
    | ResetMemory(i: nat)                              // first half of InvalidateChannels
    | DeleteKey                                        // second half, when it reaches Redis
    | Tick(d: nat)

  /** What one step does; a step that is not enabled does nothing. The lock of an instance keeps its
      own reset and its next reload out while a reload is pending. */
  function Step(w: World, op: Op): World {
    match op
    case Mutate(rows) => w.(rows := rows)
    case Begin(i, sharedUp, databaseUp) =>
      if i >= |w.nodes| || w.nodes[i].pending.Some? then w
      else
        var rows := if databaseUp then Some(w.rows) else None;
        w.(nodes := w.nodes[i := w.nodes[i].(
             pending := BeginReload(w.nodes[i].memory, w.shared, w.now, sharedUp, rows))])
    case Finish(i, setUp) =>
      if i >= |w.nodes| || w.nodes[i].pending.None? then w
      else
        var (memory, cell) := FinishReload(w.nodes[i].pending.value, w.shared, w.now, setUp);
        w.(nodes := w.nodes[i := Node(memory, None)], shared := cell)
    case ResetMemory(i) =>
      if i >= |w.nodes| || w.nodes[i].pending.Some? then w
      else w.(nodes := w.nodes[i := Node(w.nodes[i].memory.(loaded := None), None)])
    case DeleteKey => w.(shared := None)
    case Tick(d) => w.(now := w.now + d)
  }

  /** All the worlds of a run, the start included. */
  function Trace(start: World, ops: seq<Op>): (h: seq<World>)
    ensures |h| == |ops| + 1 && h[0] == start
  {
    if ops == [] then [start]
    else
      var before := Trace(start, Init(ops));
      before + [Step(Last(before), Last(ops))]
  }

  function After(start: World, ops: seq<Op>): World {
    Last(Trace(start, ops))
  }

  /** Nothing loaded anywhere yet. */
  predicate Boot(w: World) {
    w.shared == None && forall i :: 0 <= i < |w.nodes| ==> w.nodes[i] == Node(Memory([], None), None)
  }

  /** snap is what the database held at some moment of h later than time t. */
  ghost predicate HeldAfter(h: seq<World>, snap: seq<Channel>, t: int) {
    exists j :: 0 <= j < |h| && h[j].now > t && Snapshot(h[j].rows) == snap
  }

  /** No reload of the run takes longer than gap from reading to installing. */
  predicate GapsWithin(h: seq<World>, gap: nat) {
    forall k, i :: 0 <= k < |h| && 0 <= i < |h[k].nodes| && h[k].nodes[i].pending.Some? ==>
      h[k].now - h[k].nodes[i].pending.value.since <= gap
  }

  /* ---------------------------------------------------------------- bounded staleness */

  ghost predicate MemorySourced(h: seq<World>, m: Memory, now: nat, gap: nat) {
    m.loaded.Some? ==>
      m.loaded.value <= now && HeldAfter(h, m.channels, m.loaded.value - REDIS_SNAPSHOT_TTL - 2 * gap)
  }

  ghost predicate PendingSourced(h: seq<World>, p: Pending, now: nat, gap: nat) {
    && p.since <= now
    && HeldAfter(h, p.snap, p.since - REDIS_SNAPSHOT_TTL - gap)
    && (p.publish ==> HeldAfter(h, p.snap, p.since - 1))
  }

  ghost predicate CopySourced(h: seq<World>, c: Copy, gap: nat) {
    HeldAfter(h, ReviveSnapshot(c.wire), c.expires - REDIS_SNAPSHOT_TTL - gap - 1)
  }

  ghost predicate Sourced(h: seq<World>, gap: nat)
    requires h != []
  {
    var w := Last(h);
    && (w.shared.Some? ==> CopySourced(h, w.shared.value, gap))
    && forall i :: 0 <= i < |w.nodes| ==>
         && MemorySourced(h, w.nodes[i].memory, w.now, gap)
         && (w.nodes[i].pending.Some? ==> PendingSourced(h, w.nodes[i].pending.value, w.now, gap))
  }

  lemma {:induction false} HeldAfterGrows(h: seq<World>, w: World, snap: seq<Channel>, t: int, t': int)
    requires HeldAfter(h, snap, t) && t' <= t
    ensures HeldAfter(h + [w], snap, t')
  {
    var j :| 0 <= j < |h| && h[j].now > t && Snapshot(h[j].rows) == snap;
    assert (h + [w])[j] == h[j];
  }

  lemma {:induction false} HeldNow(h: seq<World>, w: World, t: int)
    requires t < w.now
    ensures HeldAfter(h + [w], Snapshot(w.rows), t)
  {
    assert (h + [w])[|h|] == w;
  }

  lemma {:induction false} MemoryStays(h: seq<World>, w: World, m: Memory, now: nat, gap: nat)
    requires MemorySourced(h, m, now, gap) && now <= w.now
    ensures MemorySourced(h + [w], m, w.now, gap)
  {
    if m.loaded.Some? {
      var t := m.loaded.value - REDIS_SNAPSHOT_TTL - 2 * gap;
      HeldAfterGrows(h, w, m.channels, t, t);
    }
  }

  lemma {:induction false} PendingStays(h: seq<World>, w: World, p: Pending, now: nat, gap: nat)
    requires PendingSourced(h, p, now, gap) && now <= w.now
    ensures PendingSourced(h + [w], p, w.now, gap)
  {
    var t := p.since - REDIS_SNAPSHOT_TTL - gap;
    HeldAfterGrows(h, w, p.snap, t, t);
    if p.publish {
      HeldAfterGrows(h, w, p.snap, p.since - 1, p.since - 1);
    }
  }

  lemma {:induction false} CopyStays(h: seq<World>, w: World, c: Copy, gap: nat)
    requires CopySourced(h, c, gap)
    ensures CopySourced(h + [w], c, gap)
  {
    var t := c.expires - REDIS_SNAPSHOT_TTL - gap - 1;
    HeldAfterGrows(h, w, ReviveSnapshot(c.wire), t, t);
  }

  /** What a reload reads is sourced. */
  lemma {:induction false} BeginSourced(h: seq<World>, i: nat, sharedUp: bool, databaseUp: bool, gap: nat)
    requires h != [] && Sourced(h, gap) && i < |Last(h).nodes| && Last(h).nodes[i].pending.None?
    ensures var w' := Step(Last(h), Begin(i, sharedUp, databaseUp));
            w'.nodes[i].pending.Some? ==> PendingSourced(h + [w'], w'.nodes[i].pending.value, w'.now, gap)
  {
    var w := Last(h);
    var w' := Step(w, Begin(i, sharedUp, databaseUp));
    var p := w'.nodes[i].pending;
    if p.Some? && !p.value.publish {
      var c := w.shared.value;
      HeldAfterGrows(h, w', p.value.snap, c.expires - REDIS_SNAPSHOT_TTL - gap - 1,
                     p.value.since - REDIS_SNAPSHOT_TTL - gap);
    } else if p.Some? {
      HeldNow(h, w', w.now - 1);
      HeldNow(h, w', w.now - REDIS_SNAPSHOT_TTL - gap);
    }
  }

  /** What a reload installs and publishes is sourced. */
  lemma {:induction false} FinishSourced(h: seq<World>, i: nat, setUp: bool, gap: nat)
    requires h != [] && Sourced(h, gap) && GapsWithin(h, gap)
    requires i < |Last(h).nodes| && Last(h).nodes[i].pending.Some?
    ensures var w' := Step(Last(h), Finish(i, setUp));
            && MemorySourced(h + [w'], w'.nodes[i].memory, w'.now, gap)
            && (w'.shared.Some? ==> CopySourced(h + [w'], w'.shared.value, gap))
  {
    var w := Last(h);
    var w' := Step(w, Finish(i, setUp));
    var p := w.nodes[i].pending.value;
    assert h[|h| - 1] == w && w.now - p.since <= gap;
    HeldAfterGrows(h, w', p.snap, p.since - REDIS_SNAPSHOT_TTL - gap, w.now - REDIS_SNAPSHOT_TTL - 2 * gap);
    if p.publish && setUp {
      ReviveToWire(p.snap);
      HeldAfterGrows(h, w', p.snap, p.since - 1, w.now - gap - 1);
    } else if w.shared.Some? {
      CopyStays(h, w', w.shared.value, gap);
    }
  }

  lemma {:induction false} StepSourced(h: seq<World>, op: Op, gap: nat)
    requires h != [] && Sourced(h, gap) && GapsWithin(h, gap)
    ensures Sourced(h + [Step(Last(h), op)], gap)
  {
    var w, w' := Last(h), Step(Last(h), op);
    var h' := h + [w'];
    assert Last(h') == w' && w.now <= w'.now;
    var i := if op.Begin? || op.Finish? || op.ResetMemory? then op.i else |w.nodes|;
    if op.Begin? && i < |w.nodes| && w.nodes[i].pending.None? {
      BeginSourced(h, i, op.sharedUp, op.databaseUp, gap);
    }
    if op.Finish? && i < |w.nodes| && w.nodes[i].pending.Some? {
      FinishSourced(h, i, op.setUp, gap);
    } else if w'.shared.Some? {
      CopyStays(h, w', w.shared.value, gap);
    }
    forall k | 0 <= k < |w'.nodes|
      ensures MemorySourced(h', w'.nodes[k].memory, w'.now, gap)
      ensures w'.nodes[k].pending.Some? ==> PendingSourced(h', w'.nodes[k].pending.value, w'.now, gap)
    {
      if w.nodes[k].memory == w'.nodes[k].memory {
        MemoryStays(h, w', w.nodes[k].memory, w.now, gap);
      }
      if w.nodes[k].pending == w'.nodes[k].pending && w.nodes[k].pending.Some? {
        PendingStays(h, w', w.nodes[k].pending.value, w.now, gap);
      }
    }
  }

  lemma {:induction false} RunSourced(start: World, ops: seq<Op>, gap: nat)
    requires Boot(start) && GapsWithin(Trace(start, ops), gap)
    ensures Sourced(Trace(start, ops), gap)
  {
    if ops != [] {
      var before := Trace(start, Init(ops));
      assert forall k :: 0 <= k < |before| ==> Trace(start, ops)[k] == before[k];
      RunSourced(start, Init(ops), gap);
      StepSourced(before, Last(ops), gap);
    }
  }

  /** In every run, an instance that is fresh serves exactly the priority-sorted active channels the
      database held at some moment less than 5 min 30 s ago, give or take twice the time a reload
      needs: with reloads that take no time (gap 0) the bound is the promised one. */
  lemma {:induction false} BoundedStaleness(start: World, ops: seq<Op>, gap: nat, i: nat)
    requires Boot(start) && GapsWithin(Trace(start, ops), gap)
    requires var w := After(start, ops); i < |w.nodes| && Fresh(w.nodes[i].memory, w.now)
    ensures var w := After(start, ops);
            HeldAfter(Trace(start, ops), w.nodes[i].memory.channels,
                      w.now - CHANNEL_CACHE_TTL - REDIS_SNAPSHOT_TTL - 2 * gap)
  {
    RunSourced(start, ops, gap);
    var h, w := Trace(start, ops), After(start, ops);
    var m := w.nodes[i].memory;
    assert MemorySourced(h, m, w.now, gap);
    var j :| 0 <= j < |h| && h[j].now > m.loaded.value - REDIS_SNAPSHOT_TTL - 2 * gap
             && Snapshot(h[j].rows) == m.channels;
  }

  /** A reload either leaves the instance fresh or, when the shared key gives nothing and the
      database read fails, leaves its old list and its staleness as they were. */
  lemma ReloadRefreshesOrFails(w: World, i: nat, sharedUp: bool, databaseUp: bool, setUp: bool)
    requires i < |w.nodes| && w.nodes[i].pending.None?
    ensures var w' := Step(Step(w, Begin(i, sharedUp, databaseUp)), Finish(i, setUp));
            && w'.nodes[i].pending.None?
            && (Fresh(w'.nodes[i].memory, w'.now) <==>
                Fresh(w.nodes[i].memory, w.now) || databaseUp
                || (sharedUp && Lookup(w.shared, w.now).Some?))
            && (!Fresh(w'.nodes[i].memory, w'.now) ==> w' == w)
            && (Fresh(w.nodes[i].memory, w.now) ==> w' == w)
  {
  }

  /* ---------------------------------------------------------------- convergence */

  /** snap is what the database held at moment m of the run or later. */
  ghost predicate NoOlder(h: seq<World>, snap: seq<Channel>, m: nat) {
    exists j :: m <= j < |h| && Snapshot(h[j].rows) == snap
  }

  /** No reload in flight has read a list older than moment m. */
  ghost predicate InFlightNoOlder(h: seq<World>, m: nat)
    requires h != []
  {
    forall i :: 0 <= i < |Last(h).nodes| && Last(h).nodes[i].pending.Some? ==>
      NoOlder(h, Last(h).nodes[i].pending.value.snap, m)
  }

  /** A reload in flight holds a list from moment m or later, or it read an older shared copy, which it
      will not publish, no later than time early. */
  ghost predicate PendingCleared(h: seq<World>, p: Pending, m: nat, early: int) {
    NoOlder(h, p.snap, m) || (!p.publish && p.since <= early)
  }

  /** What holds from the deletion of the key on: only lists from moment m or later are shared, in
      flight (but for reloads that read by time early), or loaded after time d. */
  ghost predicate Cleared(h: seq<World>, m: nat, d: int, early: int)
    requires h != []
  {
    var w := Last(h);
    && m < |h|
    && (w.shared.Some? ==> NoOlder(h, ReviveSnapshot(w.shared.value.wire), m))
    && (forall i :: 0 <= i < |w.nodes| && w.nodes[i].pending.Some? ==>
          PendingCleared(h, w.nodes[i].pending.value, m, early))
    && forall i :: 0 <= i < |w.nodes| && w.nodes[i].memory.loaded.Some? && w.nodes[i].memory.loaded.value > d ==>
         NoOlder(h, w.nodes[i].memory.channels, m)
  }

  /** Reloads that read by time early are over by time d. */
  predicate EarlyOver(w: World, d: int, early: int) {
    forall i :: 0 <= i < |w.nodes| && w.nodes[i].pending.Some? && w.nodes[i].pending.value.since <= early ==> w.now <= d
  }

  lemma {:induction false} NoOlderGrows(h: seq<World>, w: World, snap: seq<Channel>, m: nat)
    requires NoOlder(h, snap, m)
    ensures NoOlder(h + [w], snap, m)
  {
    var j :| m <= j < |h| && Snapshot(h[j].rows) == snap;
    assert (h + [w])[j] == h[j];
  }

  lemma {:induction false} StepCleared(h: seq<World>, op: Op, m: nat, d: int, early: int)
    requires h != [] && Cleared(h, m, d, early) && early <= Last(h).now && EarlyOver(Last(h), d, early)
    ensures Cleared(h + [Step(Last(h), op)], m, d, early)
  {
    var w, w' := Last(h), Step(Last(h), op);
    var h' := h + [w'];
    assert Last(h') == w';
    if w'.shared.Some? {
      SharedStaysCleared(h, op, m, d, early);
    }
    forall i | 0 <= i < |w'.nodes| && w'.nodes[i].pending.Some?
      ensures PendingCleared(h', w'.nodes[i].pending.value, m, early)
    {
      PendingStaysCleared(h, op, m, d, early, i);
    }
    forall i | 0 <= i < |w'.nodes| && w'.nodes[i].memory.loaded.Some? && w'.nodes[i].memory.loaded.value > d
      ensures NoOlder(h', w'.nodes[i].memory.channels, m)
    {
      if w'.nodes[i].memory == w.nodes[i].memory {
        NoOlderGrows(h, w', w.nodes[i].memory.channels, m);
      } else {
        NoOlderGrows(h, w', w.nodes[i].pending.value.snap, m);
      }
    }
  }

  lemma {:induction false} SharedStaysCleared(h: seq<World>, op: Op, m: nat, d: int, early: int)
    requires h != [] && Cleared(h, m, d, early) && Step(Last(h), op).shared.Some?
    ensures var w' := Step(Last(h), op); NoOlder(h + [w'], ReviveSnapshot(w'.shared.value.wire), m)
  {
    var w, w' := Last(h), Step(Last(h), op);
    if w'.shared == w.shared {
      NoOlderGrows(h, w', ReviveSnapshot(w.shared.value.wire), m);
    } else {
      var p := w.nodes[op.i].pending.value;
      ReviveToWire(p.snap);
      NoOlderGrows(h, w', p.snap, m);
    }
  }

  lemma {:induction false} PendingStaysCleared(h: seq<World>, op: Op, m: nat, d: int, early: int, i: nat)
    requires h != [] && Cleared(h, m, d, early)
    requires var w' := Step(Last(h), op); i < |w'.nodes| && w'.nodes[i].pending.Some?
    ensures var w' := Step(Last(h), op); PendingCleared(h + [w'], w'.nodes[i].pending.value, m, early)
  {
    var w, w' := Last(h), Step(Last(h), op);
    if w.nodes[i].pending == w'.nodes[i].pending {
      var p := w.nodes[i].pending.value;
      if NoOlder(h, p.snap, m) {
        NoOlderGrows(h, w', p.snap, m);
      }
    } else if !w'.nodes[i].pending.value.publish {
      NoOlderGrows(h, w', ReviveSnapshot(w.shared.value.wire), m);
    } else {
      assert (h + [w'])[|h|] == w';
    }
  }

  lemma TraceAppend(start: World, ops: seq<Op>, op: Op)
    ensures Trace(start, ops + [op]) == Trace(start, ops) + [Step(After(start, ops), op)]
  {
  }

  /** No reload in flight that read after time early, or that will publish, holds an older list. */
  ghost predicate InFlightCleared(h: seq<World>, m: nat, early: int)
    requires h != []
  {
    forall i :: 0 <= i < |Last(h).nodes| && Last(h).nodes[i].pending.Some? ==>
      PendingCleared(h, Last(h).nodes[i].pending.value, m, early)
  }

  /** Deleting the key clears the run, if nothing old is in flight. */
  lemma {:induction false} DeleteClears(start: World, pre: seq<Op>, m: nat, d: int, early: int)
    requires m <= |pre| && InFlightCleared(Trace(start, pre), m, early) && LoadsInPast(After(start, pre))
    requires After(start, pre).now <= d
    ensures Cleared(Trace(start, pre + [DeleteKey]), m, d, early)
  {
    var h, w := Trace(start, pre), After(start, pre);
    TraceAppend(start, pre, DeleteKey);
    forall i | 0 <= i < |w.nodes| && w.nodes[i].pending.Some?
      ensures PendingCleared(h + [w.(shared := None)], w.nodes[i].pending.value, m, early)
    {
      if NoOlder(h, w.nodes[i].pending.value.snap, m) {
        NoOlderGrows(h, w.(shared := None), w.nodes[i].pending.value.snap, m);
      }
    }
  }

  predicate LoadsInPast(w: World) {
    forall i :: 0 <= i < |w.nodes| ==>
      && (w.nodes[i].memory.loaded.Some? ==> w.nodes[i].memory.loaded.value <= w.now)
      && (w.nodes[i].pending.Some? ==> w.nodes[i].pending.value.since <= w.now)
  }

  lemma {:induction false} RunLoadsInPast(start: World, ops: seq<Op>)
    requires Boot(start)
    ensures LoadsInPast(After(start, ops))
  {
    if ops != [] {
      RunLoadsInPast(start, Init(ops));
    }
  }

  /** A run goes on from the world it has reached. */
  lemma {:induction false} TraceConcat(start: World, a: seq<Op>, b: seq<Op>)
    ensures Trace(start, a + b) == Trace(start, a) + Trace(After(start, a), b)[1..]
    ensures After(start, a + b) == After(After(start, a), b)
    decreases |b|
  {
    if b == [] {
      assert a + b == a;
    } else {
      assert a + b == a + Init(b) + [Last(b)];
      TraceConcat(start, a, Init(b));
      TraceAppend(start, a + Init(b), Last(b));
      TraceAppend(After(start, a), Init(b), Last(b));
      assert Init(b) + [Last(b)] == b;
    }
  }

  /** A history and the run that goes on from its last world. */
  function Continued(h: seq<World>, ops: seq<Op>): (h': seq<World>)
    requires h != []
    ensures h' != [] && Last(h') == After(Last(h), ops)
  {
    h + Trace(Last(h), ops)[1..]
  }

  lemma ContinuedStep(h: seq<World>, ops: seq<Op>)
    requires h != [] && ops != []
    ensures Continued(h, ops) == Continued(h, Init(ops)) + [Step(After(Last(h), Init(ops)), Last(ops))]
  {
  }

  lemma {:induction false} ContinuedCleared(h: seq<World>, ops: seq<Op>, m: nat, d: int, early: int)
    requires h != [] && Cleared(h, m, d, early) && early <= Last(h).now
    requires forall w :: w in Trace(Last(h), ops) ==> EarlyOver(w, d, early)
    ensures Cleared(Continued(h, ops), m, d, early) && Last(h).now <= After(Last(h), ops).now
  {
    if ops == [] {
      assert Continued(h, ops) == h;
    } else {
      var before := Trace(Last(h), Init(ops));
      assert Trace(Last(h), ops) == before + [Step(Last(before), Last(ops))];
      ContinuedCleared(h, Init(ops), m, d, early);
      assert Last(before) in Trace(Last(h), ops);
      ContinuedStep(h, ops);
      StepCleared(Continued(h, Init(ops)), Last(ops), m, d, early);
    }
  }

  lemma {:induction false} RunCleared(start: World, pre: seq<Op>, post: seq<Op>, m: nat, d: int, early: int)
    requires Boot(start) && m <= |pre| && InFlightCleared(Trace(start, pre), m, early)
    requires early <= After(start, pre).now <= d
    requires forall w :: w in Trace(start, pre + [DeleteKey] + post) ==> EarlyOver(w, d, early)
    ensures Cleared(Trace(start, pre + [DeleteKey] + post), m, d, early)
    ensures After(start, pre).now <= After(start, pre + [DeleteKey] + post).now
  {
    var h := Trace(start, pre + [DeleteKey]);
    TraceAppend(start, pre, DeleteKey);
    TraceConcat(start, pre + [DeleteKey], post);
    RunLoadsInPast(start, pre);
    DeleteClears(start, pre, m, d, early);
    assert Continued(h, post) == Trace(start, pre + [DeleteKey] + post);
    forall w | w in Trace(Last(h), post) ensures EarlyOver(w, d, early) {
      assert Trace(Last(h), post)[0] == Last(h) && Last(h) in h;
      assert w in h || w in Trace(Last(h), post)[1..];
    }
    ContinuedCleared(h, post, m, d, early);
  }

  /** After the key has been deleted and 30 s have passed, instance i serves, whenever it is fresh,
      nothing older than moment m, whatever happens in between. */
  ghost predicate Converged(start: World, pre: seq<Op>, post: seq<Op>, m: nat) {
    var w := After(start, pre + [DeleteKey] + post);
    w.now >= After(start, pre).now + CHANNEL_CACHE_TTL ==>
      forall i :: 0 <= i < |w.nodes| && Fresh(w.nodes[i].memory, w.now) ==>
        NoOlder(Trace(start, pre + [DeleteKey] + post), w.nodes[i].memory.channels, m)
  }

  ghost predicate AlwaysConverges(start: World, pre: seq<Op>, m: nat) {
    forall post :: Converged(start, pre, post, m)
  }

  /** Invalidation reaches every instance within 30 s of the key's deletion exactly when no reload
      that is in flight at the deletion holds a list from before the change at moment m. */
  lemma {:induction false} InvalidationConvergesExactly(start: World, pre: seq<Op>, m: nat)
    requires Boot(start) && m <= |pre|
    ensures AlwaysConverges(start, pre, m) <==> InFlightNoOlder(Trace(start, pre), m)
  {
    if InFlightNoOlder(Trace(start, pre), m) {
      forall post ensures Converged(start, pre, post, m) {
        var d := After(start, pre).now;
        RunCleared(start, pre, post, m, d, -1);
      }
    } else {
      var w := After(start, pre);
      var i :| 0 <= i < |w.nodes| && w.nodes[i].pending.Some?
               && !NoOlder(Trace(start, pre), w.nodes[i].pending.value.snap, m);
      LateInstallServesOld(start, pre, m, i);
    }
  }

  /** Instance 0 loads and publishes; the channels change; while instance 0 has reset its memory but not
      yet deleted the key, instance 1 reads the old copy. */
  function StaleCopyRun(rows: seq<Channel>): seq<Op> {
    [Begin(0, true, true), Finish(0, true), Mutate(rows), ResetMemory(0), Begin(1, true, true)]
  }

  /** So a reload that begins after the change and never publishes is enough to break convergence. */
  lemma {:induction false} StaleCopyBreaksConvergence(start: World, rows: seq<Channel>)
    requires Boot(start) && |start.nodes| >= 2 && Snapshot(rows) != Snapshot(start.rows)
    ensures Trace(start, StaleCopyRun(rows))[3].rows == rows
    ensures !AlwaysConverges(start, StaleCopyRun(rows), 3)
  {
    var ops := StaleCopyRun(rows);
    var w1, w2 := Step(start, ops[0]), Step(Step(start, ops[0]), ops[1]);
    var w3 := Step(w2, ops[2]);
    var w4 := Step(w3, ops[3]);
    var h := [start, w1, w2, w3, w4, Step(w4, ops[4])];
    assert Trace(start, ops) == h by {
      TraceTwo(start, ops[0], ops[1]);
      TraceAppend3(start, [ops[0], ops[1]], ops[2], ops[3], ops[4]);
      assert [ops[0], ops[1]] + [ops[2], ops[3], ops[4]] == ops;
    }
    FirstLoadPublishes(start);
    StaleCopyIsRead(w2, rows);
    OldInFlight(h, 3, rows, 1);
    InvalidationConvergesExactly(start, ops, 3);
  }

  lemma {:induction false} FirstLoadPublishes(w: World)
    requires Boot(w) && |w.nodes| >= 2
    ensures var w' := Step(Step(w, Begin(0, true, true)), Finish(0, true));
            && w'.nodes == w.nodes[0 := w'.nodes[0]] && w'.nodes[0].pending.None?
            && Lookup(w'.shared, w'.now) == Some(Snapshot(w.rows))
  {
    ReviveToWire(Snapshot(w.rows));
  }

  lemma StaleCopyIsRead(w: World, rows: seq<Channel>)
    requires |w.nodes| >= 2 && w.nodes[1] == Node(Memory([], None), None) && Lookup(w.shared, w.now).Some?
    ensures var w' := Step(Step(Step(w, Mutate(rows)), ResetMemory(0)), Begin(1, true, true));
            && w'.rows == rows && |w'.nodes| == |w.nodes| && w'.nodes[1].pending.Some?
            && w'.nodes[1].pending.value.snap == Lookup(w.shared, w.now).value
  {
  }

  lemma {:induction false} OldInFlight(h: seq<World>, m: nat, rows: seq<Channel>, i: nat)
    requires m < |h| && forall j :: m <= j < |h| ==> h[j].rows == rows
    requires i < |Last(h).nodes| && Last(h).nodes[i].pending.Some?
    requires Last(h).nodes[i].pending.value.snap != Snapshot(rows)
    ensures !InFlightNoOlder(h, m)
  {
    assert !NoOlder(h, Last(h).nodes[i].pending.value.snap, m);
  }

  lemma {:induction false} TraceTwo(start: World, a: Op, b: Op)
    ensures Trace(start, [a, b]) == [start, Step(start, a), Step(Step(start, a), b)]
  {
    var none: seq<Op> := [];
    TraceAppend(start, none, a);
    assert Trace(start, none) == [start] && none + [a] == [a];
    assert Trace(start, [a]) == [start, Step(start, a)];
    TraceAppend(start, [a], b);
    assert [a] + [b] == [a, b];
    assert Trace(start, [a, b]) == [start, Step(start, a)] + [Step(Step(start, a), b)];
  }

  /** The run that breaks convergence: the old reload installs its list 30 s after the deletion. */
  lemma {:induction false} LateInstallServesOld(start: World, pre: seq<Op>, m: nat, i: nat)
    requires m <= |pre|
    requires var w := After(start, pre);
             && i < |w.nodes| && w.nodes[i].pending.Some?
             && !NoOlder(Trace(start, pre), w.nodes[i].pending.value.snap, m)
    ensures !Converged(start, pre, [Tick(CHANNEL_CACHE_TTL), Finish(i, false)], m)
  {
    var h, w := Trace(start, pre), After(start, pre);
    var post := [Tick(CHANNEL_CACHE_TTL), Finish(i, false)];
    var w1 := Step(w, DeleteKey);
    var w2 := Step(w1, post[0]);
    var w3 := Step(w2, post[1]);
    TraceAppend3(start, pre, DeleteKey, post[0], post[1]);
    assert pre + [DeleteKey] + post == pre + [DeleteKey, post[0], post[1]];
    assert w3.now == w.now + CHANNEL_CACHE_TTL;
    assert i < |w3.nodes| && w3.nodes[i].memory == Memory(w.nodes[i].pending.value.snap, Some(w3.now));
    assert w1.rows == w.rows && w2.rows == w.rows && w3.rows == w.rows;
    NoNewRows(h, [w1, w2, w3], w.nodes[i].pending.value.snap, m);
    assert Trace(start, pre + [DeleteKey] + post) == h + [w1, w2, w3];
  }

  lemma {:induction false} TraceAppend3(start: World, ops: seq<Op>, a: Op, b: Op, c: Op)
    ensures var w1 := Step(After(start, ops), a);
            var w2 := Step(w1, b);
            Trace(start, ops + [a, b, c]) == Trace(start, ops) + [w1, w2, Step(w2, c)]
  {
    TraceAppend(start, ops, a);
    TraceAppend(start, ops + [a], b);
    TraceAppend(start, ops + [a] + [b], c);
    assert ops + [a, b, c] == ops + [a] + [b] + [c];
  }

  /** Worlds with the same rows add no new list. */
  lemma {:induction false} NoNewRows(h: seq<World>, more: seq<World>, snap: seq<Channel>, m: nat)
    requires m < |h| && !NoOlder(h, snap, m) && forall w :: w in more ==> w.rows == Last(h).rows
    ensures !NoOlder(h + more, snap, m)
  {
    var h' := h + more;
    forall j | m <= j < |h'| ensures Snapshot(h'[j].rows) != snap {
      assert h'[j].rows == h[if j < |h| then j else |h| - 1].rows;
    }
  }

  /* ---------------------------------------------------------------- with reloads of bounded length */

  /** After the deletion and 30 s and one more reload time, whatever is fresh is no older than moment m, in
      every continuation whose reloads take no longer than gap. */
  ghost predicate ConvergedWithin(start: World, pre: seq<Op>, post: seq<Op>, m: nat, gap: nat) {
    var h := Trace(start, pre + [DeleteKey] + post);
    GapsWithin(h, gap) && Last(h).now >= After(start, pre).now + CHANNEL_CACHE_TTL + gap ==>
      forall i :: 0 <= i < |Last(h).nodes| && Fresh(Last(h).nodes[i].memory, Last(h).now) ==>
        NoOlder(h, Last(h).nodes[i].memory.channels, m)
  }

  ghost predicate AlwaysConvergesWithin(start: World, pre: seq<Op>, m: nat, gap: nat) {
    forall post :: ConvergedWithin(start, pre, post, m, gap)
  }

  /** No reload in flight that will publish holds an older list. */
  ghost predicate PublishersNoOlder(h: seq<World>, m: nat)
    requires h != []
  {
    forall i :: 0 <= i < |Last(h).nodes| && Last(h).nodes[i].pending.Some? && Last(h).nodes[i].pending.value.publish ==>
      NoOlder(h, Last(h).nodes[i].pending.value.snap, m)
  }

  lemma {:induction false} WithinConverges(start: World, pre: seq<Op>, post: seq<Op>, m: nat, gap: nat)
    requires Boot(start) && m <= |pre| && PublishersNoOlder(Trace(start, pre), m)
    ensures ConvergedWithin(start, pre, post, m, gap)
  {
    var h, now := Trace(start, pre + [DeleteKey] + post), After(start, pre).now;
    if GapsWithin(h, gap) {
      RunLoadsInPast(start, pre);
      forall w | w in h ensures EarlyOver(w, now + gap, now) {
        var k :| 0 <= k < |h| && h[k] == w;
      }
      RunCleared(start, pre, post, m, now + gap, now);
    }
  }

  /** With reloads that take at most gap, invalidation reaches every instance within 30 s + gap exactly when
      no reload that is in flight at the deletion and will publish holds an older list: one that read the
      old shared copy is harmless after that time. */
  lemma {:induction false} ConvergesWithinExactly(start: World, pre: seq<Op>, m: nat, gap: nat)
    requires Boot(start) && m <= |pre| && GapsWithin(Trace(start, pre), gap)
    ensures AlwaysConvergesWithin(start, pre, m, gap) <==> PublishersNoOlder(Trace(start, pre), m)
  {
    if PublishersNoOlder(Trace(start, pre), m) {
      forall post ensures ConvergedWithin(start, pre, post, m, gap) {
        WithinConverges(start, pre, post, m, gap);
      }
    } else {
      var w := After(start, pre);
      var i :| 0 <= i < |w.nodes| && w.nodes[i].pending.Some? && w.nodes[i].pending.value.publish
               && !NoOlder(Trace(start, pre), w.nodes[i].pending.value.snap, m);
      LatePublishSurvives(start, pre, m, gap, i);
    }
  }

  /** All reloads in flight but that of instance i finish; none publishes. */
  function FinishOthers(n: nat, i: nat): seq<Op> {
    if n == 0 then [] else FinishOthers(n - 1, i) + [if n - 1 == i then Tick(0) else Finish(n - 1, false)]
  }

  /** Same time, rows and shared copy, and no reload in flight that was not there before. */
  predicate Calmer(w: World, before: World) {
    && w.now == before.now && w.rows == before.rows && w.shared == before.shared && |w.nodes| == |before.nodes|
    && forall j :: 0 <= j < |w.nodes| ==> w.nodes[j].pending.None? || w.nodes[j].pending == before.nodes[j].pending
  }

  /** All reloads in flight on the first n instances but i are over, and nothing else has changed. */
  predicate OthersOver(w: World, before: World, n: nat, i: nat) {
    && Calmer(w, before) && i < |w.nodes| && w.nodes[i] == before.nodes[i]
    && forall j :: 0 <= j < n && j < |w.nodes| && j != i ==> w.nodes[j].pending.None?
  }

  lemma FinishOneMore(w: World, before: World, n: nat, i: nat)
    requires OthersOver(w, before, n, i)
    ensures OthersOver(Step(w, if n == i then Tick(0) else Finish(n, false)), before, n + 1, i)
  {
  }

  lemma {:induction false} OthersFinish(w: World, n: nat, i: nat)
    requires i < |w.nodes|
    ensures forall w' :: w' in Trace(w, FinishOthers(n, i)) ==> Calmer(w', w)
    ensures OthersOver(After(w, FinishOthers(n, i)), w, n, i)
  {
    if n > 0 {
      var op := if n - 1 == i then Tick(0) else Finish(n - 1, false);
      OthersFinish(w, n - 1, i);
      FinishOneMore(After(w, FinishOthers(n - 1, i)), w, n - 1, i);
      TraceAppend(w, FinishOthers(n - 1, i), op);
    }
  }

  /** What then breaks convergence: instance i publishes the old list, reloads it from the shared copy once
      it is stale, and takes the full reload time for that. */
  function Republish(i: nat, gap: nat): seq<Op> {
    [Finish(i, true), Tick(CHANNEL_CACHE_TTL), Begin(i, true, false), Tick(gap), Finish(i, false)]
  }

  /** The worlds of these five steps. */
  function RepublishWorlds(w: World, i: nat, gap: nat): seq<World>
    requires i < |w.nodes| && w.nodes[i].pending.Some?
  {
    var snap, later := w.nodes[i].pending.value.snap, w.now + CHANNEL_CACHE_TTL;
    var w1 := w.(nodes := w.nodes[i := Node(Memory(snap, Some(w.now)), None)],
                 shared := Some(Copy(ToWire(snap), w.now + REDIS_SNAPSHOT_TTL)));
    var again := Node(Memory(snap, Some(w.now)), Some(Pending(snap, false, later)));
    var w3 := w1.(now := later, nodes := w.nodes[i := again]);
    [w1, w1.(now := later), w3, w3.(now := later + gap),
     w3.(now := later + gap, nodes := w.nodes[i := Node(Memory(snap, Some(later + gap)), None)])]
  }

  lemma {:induction false} RepublishSteps(w: World, i: nat, gap: nat)
    requires i < |w.nodes| && w.nodes[i].pending.Some? && w.nodes[i].pending.value.publish
    ensures var ws, ops := RepublishWorlds(w, i, gap), Republish(i, gap);
            && ws[0] == Step(w, ops[0]) && ws[1] == Step(ws[0], ops[1]) && ws[2] == Step(ws[1], ops[2])
            && ws[3] == Step(ws[2], ops[3]) && ws[4] == Step(ws[3], ops[4])
  {
    ReviveToWire(w.nodes[i].pending.value.snap);
  }

  lemma {:induction false} RepublishTrace(w: World, i: nat, gap: nat)
    requires i < |w.nodes| && w.nodes[i].pending.Some? && w.nodes[i].pending.value.publish
    ensures Trace(w, Republish(i, gap)) == [w] + RepublishWorlds(w, i, gap)
  {
    var ops := Republish(i, gap);
    RepublishSteps(w, i, gap);
    TraceTwo(w, ops[0], ops[1]);
    TraceAppend3(w, [ops[0], ops[1]], ops[2], ops[3], ops[4]);
    assert [ops[0], ops[1]] + [ops[2], ops[3], ops[4]] == ops;
  }

  lemma {:induction false} RepublishServesOld(w: World, i: nat, gap: nat)
    requires i < |w.nodes| && w.nodes[i].pending.Some? && w.nodes[i].pending.value.publish
    requires forall j :: 0 <= j < |w.nodes| && j != i ==> w.nodes[j].pending.None?
    ensures forall w' :: w' in Trace(w, Republish(i, gap))[1..] ==> w'.rows == w.rows
    ensures GapsWithin(Trace(w, Republish(i, gap))[1..], gap)
    ensures var last := After(w, Republish(i, gap));
            && last.now == w.now + CHANNEL_CACHE_TTL + gap && i < |last.nodes| && Fresh(last.nodes[i].memory, last.now)
            && last.nodes[i].memory.channels == w.nodes[i].pending.value.snap
  {
    RepublishTrace(w, i, gap);
    assert Trace(w, Republish(i, gap))[1..] == RepublishWorlds(w, i, gap);
  }

  lemma GapsAppend(h: seq<World>, more: seq<World>, gap: nat)
    requires GapsWithin(h, gap) && GapsWithin(more, gap)
    ensures GapsWithin(h + more, gap)
  {
  }

  /** The worlds of that run after its deletion. */
  lemma {:induction false} RepublishRun(w: World, i: nat, gap: nat)
    requires i < |w.nodes| && w.nodes[i].pending.Some? && w.nodes[i].pending.value.publish
    requires GapsWithin([w], gap)
    ensures var h := Trace(w, FinishOthers(|w.nodes|, i) + Republish(i, gap));
            && GapsWithin(h, gap) && (forall w' :: w' in h ==> w'.rows == w.rows)
            && var last := Last(h);
               && last.now == w.now + CHANNEL_CACHE_TTL + gap
               && i < |last.nodes| && Fresh(last.nodes[i].memory, last.now)
               && last.nodes[i].memory.channels == w.nodes[i].pending.value.snap
  {
    var others := FinishOthers(|w.nodes|, i);
    OthersFinish(w, |w.nodes|, i);
    CalmGaps(w, Trace(w, others), gap);
    RepublishServesOld(After(w, others), i, gap);
    TraceConcat(w, others, Republish(i, gap));
    GapsAppend(Trace(w, others), Trace(After(w, others), Republish(i, gap))[1..], gap);
  }

  /** A list read before the change and published just after the deletion is picked up from the shared
      copy again, and is still served 30 s and a reload after the deletion. */
  lemma {:induction false} LatePublishSurvives(start: World, pre: seq<Op>, m: nat, gap: nat, i: nat)
    requires m <= |pre| && GapsWithin(Trace(start, pre), gap)
    requires var w := After(start, pre);
             && i < |w.nodes| && w.nodes[i].pending.Some? && w.nodes[i].pending.value.publish
             && !NoOlder(Trace(start, pre), w.nodes[i].pending.value.snap, m)
    ensures !ConvergedWithin(start, pre, FinishOthers(|After(start, pre).nodes|, i) + Republish(i, gap), m, gap)
  {
    var w := After(start, pre);
    var deleted, post := w.(shared := None), FinishOthers(|w.nodes|, i) + Republish(i, gap);
    assert GapsWithin([deleted], gap) by {
      assert Trace(start, pre)[|pre|] == w;
    }
    RepublishRun(deleted, i, gap);
    TraceFromDeletion(start, pre, post);
    GapsAppend(Trace(start, pre), Trace(deleted, post), gap);
    NoNewRows(Trace(start, pre), Trace(deleted, post), w.nodes[i].pending.value.snap, m);
  }

  lemma {:induction false} TraceFromDeletion(start: World, pre: seq<Op>, post: seq<Op>)
    ensures Trace(start, pre + [DeleteKey] + post) ==
            Trace(start, pre) + Trace(After(start, pre).(shared := None), post)
  {
    var deleted := After(start, pre).(shared := None);
    TraceAppend(start, pre, DeleteKey);
    TraceConcat(start, pre + [DeleteKey], post);
    assert Trace(deleted, post) == [deleted] + Trace(deleted, post)[1..];
  }

  lemma {:induction false} CalmGaps(w: World, calm: seq<World>, gap: nat)
    requires GapsWithin([w], gap) && forall w' :: w' in calm ==> Calmer(w', w)
    ensures GapsWithin(calm, gap)
  {
    forall k, i | 0 <= k < |calm| && 0 <= i < |calm[k].nodes| && calm[k].nodes[i].pending.Some?
      ensures calm[k].now - calm[k].nodes[i].pending.value.since <= gap
    {
      assert Calmer(calm[k], w) && [w][0].nodes[i].pending.Some?;
    }
  }

  /** With no other request in between, the reload right after an invalidation already serves the
      database as it is. */
  lemma NextReloadIsCurrent(w: World, i: nat, sharedUp: bool, setUp: bool)
    requires i < |w.nodes| && w.nodes[i].pending.None?
    ensures var w1 := Step(Step(w, ResetMemory(i)), DeleteKey);
            var w2 := Step(Step(w1, Begin(i, sharedUp, true)), Finish(i, setUp));
            Fresh(w2.nodes[i].memory, w2.now) && w2.nodes[i].memory.channels == Snapshot(w.rows)
  {
  }
}
