/** The single-use store of pending passkey ceremonies (internal/handler/passkey.go:27-83). Time is in
    seconds and read under the lock, so it never runs backwards. Map iteration order is arbitrary: the
    evicted key is any key. */
module Challenges {
  import opened Options
  import opened Text

  const CHALLENGE_TTL := 120
  const MAX_PENDING := 4096

  /** The ceremony (WebAuthn session data and user id) and the time it lapses. */
  datatype Entry<T> = Entry(session: T, expires: int)

  function Sweep<T>(entries: map<string, Entry<T>>, now: int): map<string, Entry<T>> {
    map k | k in entries && now <= entries[k].expires :: entries[k]
  }

  function Evict<T>(entries: map<string, Entry<T>>, victim: string): map<string, Entry<T>> {
    if |entries| >= MAX_PENDING then entries - {victim} else entries
  }

  function AfterPut<T>(entries: map<string, Entry<T>>, key: string, session: T, now: int, victim: string)
    : map<string, Entry<T>>
  {
    Evict(Sweep(entries, now), victim)[key := Entry(session, now + CHALLENGE_TTL)]
  }

  /** A full store must evict a key it has. */
  predicate CanEvict<T>(entries: map<string, Entry<T>>, now: int, victim: string) {
    |Sweep(entries, now)| >= MAX_PENDING ==> victim in Sweep(entries, now)
  }

  /** What taking a key yields at a given time; the key is gone afterwards either way. */
  function Answer<T>(entries: map<string, Entry<T>>, key: string, now: int): Option<T> {
    if key in entries && now < entries[key].expires then Some(entries[key].session) else None
  }

  class ChallengeStore<T(!new)> {
    var entries: map<string, Entry<T>>

    constructor ()
      ensures entries == map[]
    {
      entries := map[];
    }

    method Put(key: string, session: T, now: int) returns (ghost victim: string)
      modifies this
      ensures CanEvict(old(entries), now, victim)
      ensures entries == AfterPut(old(entries), key, session, now, victim)
    {
      var keys := entries.Keys;
      while keys != {}
        invariant keys <= old(entries).Keys
        invariant entries ==
          map k | k in old(entries) && (k in keys || now <= old(entries)[k].expires) :: old(entries)[k]
      {
        var k :| k in keys;
        if now > entries[k].expires {
          entries := entries - {k};
        }
        keys := keys - {k};
      }
      assert entries == Sweep(old(entries), now);
      victim := "";
      if |entries| >= MAX_PENDING {
        var k :| k in entries;
        victim := k;
        entries := entries - {k};
      }
      entries := entries[key := Entry(session, now + CHALLENGE_TTL)];
    }

    method Take(key: string, now: int) returns (r: Option<T>)
      modifies this
      ensures r == Answer(old(entries), key, now)
      ensures entries == old(entries) - {key}
    {
      if key !in entries {
        return None;
      }
      var e := entries[key];
      entries := entries - {key};
      r := if now < e.expires then Some(e.session) else None;
    }
  }

  /* ---------------------------------------------------------------- runs */

  datatype Op<T> = PutOp(key: string, session: T, now: int, victim: string) | TakeOp(key: string, now: int)

  function Step<T>(entries: map<string, Entry<T>>, op: Op<T>): map<string, Entry<T>> {
    match op
    case PutOp(key, session, now, victim) => AfterPut(entries, key, session, now, victim)
    case TakeOp(key, _) => entries - {key}
  }

  function After<T>(ops: seq<Op<T>>): map<string, Entry<T>> {
    if ops == [] then map[] else Step(After(Init(ops)), Last(ops))
  }

  /** Time never runs backwards, and evictions hit present keys. */
  predicate Legal<T>(ops: seq<Op<T>>) {
    && (forall i, j :: 0 <= i < j < |ops| ==> ops[i].now <= ops[j].now)
    && (forall i :: 0 <= i < |ops| && ops[i].PutOp? ==> CanEvict(After(ops[..i]), ops[i].now, ops[i].victim))
  }

  lemma LegalInit<T>(ops: seq<Op<T>>)
    requires Legal(ops) && ops != []
    ensures Legal(Init(ops))
    ensures Last(ops).PutOp? ==> CanEvict(After(Init(ops)), Last(ops).now, Last(ops).victim)
  {
    assert forall i :: 0 <= i < |ops| ==> Init(ops)[..i] == ops[..i];
  }

  lemma SweepShrinks<T>(entries: map<string, Entry<T>>, now: int)
    ensures |Sweep(entries, now)| <= |entries|
  {
    SubsetSize(Sweep(entries, now).Keys, entries.Keys);
    assert |Sweep(entries, now).Keys| == |Sweep(entries, now)| && |entries.Keys| == |entries|;
  }

  lemma SubsetSize(a: set<string>, b: set<string>)
    requires a <= b
    ensures |a| <= |b|
  {
    assert b == a + (b - a);
  }

  lemma PutSize<T>(entries: map<string, Entry<T>>, key: string, session: T, now: int, victim: string)
    requires CanEvict(entries, now, victim) && |entries| <= MAX_PENDING
    ensures |AfterPut(entries, key, session, now, victim)| <= MAX_PENDING
  {
    var swept := Sweep(entries, now);
    var kept := Evict(swept, victim);
    SweepShrinks(entries, now);
    assert |kept| < MAX_PENDING by {
      if |swept| >= MAX_PENDING {
        assert swept.Keys == kept.Keys + {victim};
        assert |swept.Keys| == |kept.Keys| + 1;
      }
    }
    var after := AfterPut(entries, key, session, now, victim);
    assert after.Keys == kept.Keys + {key};
    assert |after.Keys| <= |kept.Keys| + 1;
  }

  /** The store never holds more than 4096 ceremonies. */
  lemma {:induction false} StoreIsBounded<T>(ops: seq<Op<T>>)
    requires Legal(ops)
    ensures |After(ops)| <= MAX_PENDING
  {
    if ops != [] {
      var before, op := After(Init(ops)), Last(ops);
      LegalInit(ops);
      StoreIsBounded(Init(ops));
      if op.PutOp? {
        PutSize(before, op.key, op.session, op.now, op.victim);
      } else {
        SubsetSize((before - {op.key}).Keys, before.Keys);
        assert |(before - {op.key}).Keys| == |before - {op.key}| && |before.Keys| == |before|;
      }
    }
  }

  /** The last operation on a key, or -1. */
  function Touched<T>(ops: seq<Op<T>>, key: string): (i: int)
    ensures -1 <= i < |ops| && (i >= 0 ==> ops[i].key == key)
    ensures forall j :: i < j < |ops| ==> ops[j].key != key
  {
    if ops == [] then -1 else if Last(ops).key == key then |ops| - 1 else Touched(Init(ops), key)
  }

  /** The operation is a put that finds the store full and evicts the key. */
  predicate Evicts<T>(entries: map<string, Entry<T>>, op: Op<T>, key: string) {
    op.PutOp? && |Sweep(entries, op.now)| >= MAX_PENDING && op.victim == key
  }

  /** The last operation on the key was a put less than two minutes ago. */
  predicate Pending<T>(ops: seq<Op<T>>, key: string, now: int) {
    var i := Touched(ops, key);
    i >= 0 && ops[i].PutOp? && now < ops[i].now + CHALLENGE_TTL
  }

  /** Some operation since the last one on the key has evicted it. */
  predicate EvictedSince<T>(ops: seq<Op<T>>, key: string) {
    ops != [] && Last(ops).key != key
    && (Evicts(After(Init(ops)), Last(ops), key) || EvictedSince(Init(ops), key))
  }

  /** In every run a take succeeds exactly when the last operation on its key was a put, less than two
      minutes ago, and that put was not evicted since; it yields the ceremony of that put. Sweeping is
      not part of the condition. */
  lemma {:induction false} TakeSucceedsExactly<T>(ops: seq<Op<T>>, key: string, now: int)
    requires Legal(ops) && (ops != [] ==> Last(ops).now <= now)
    ensures Answer(After(ops), key, now) ==
            if Pending(ops, key, now) && !EvictedSince(ops, key) then Some(ops[Touched(ops, key)].session) else None
  {
    if ops != [] {
      LegalInit(ops);
      assert Init(ops) != [] ==> Last(Init(ops)).now <= Last(ops).now;
      TakeSucceedsExactly(Init(ops), key, now);
      if Last(ops).key != key {
        OthersStep(After(Init(ops)), Last(ops), key, now);
      }
    }
  }

  /** An operation on another key changes the answer only by evicting. */
  lemma OthersStep<T>(entries: map<string, Entry<T>>, op: Op<T>, key: string, now: int)
    requires op.key != key && op.now <= now
    ensures Answer(Step(entries, op), key, now) ==
            if Evicts(entries, op, key) then None else Answer(entries, key, now)
  {
  }

  /** No put is taken twice: two takes that succeed took different puts. */
  lemma NoPutIsTakenTwice<T>(ops: seq<Op<T>>, a: nat, b: nat)
    requires Legal(ops) && a < b < |ops| && ops[a].TakeOp? && ops[b].TakeOp?
    requires Answer(After(ops[..a]), ops[a].key, ops[a].now).Some?
    requires Answer(After(ops[..b]), ops[b].key, ops[b].now).Some?
    ensures 0 <= Touched(ops[..a], ops[a].key) && 0 <= Touched(ops[..b], ops[b].key)
    ensures Touched(ops[..a], ops[a].key) != Touched(ops[..b], ops[b].key)
  {
    LegalPrefix(ops, a);
    LegalPrefix(ops, b);
    TakeSucceedsExactly(ops[..a], ops[a].key, ops[a].now);
    TakeSucceedsExactly(ops[..b], ops[b].key, ops[b].now);
    assert ops[..b][a] == ops[a];
  }

  lemma LegalPrefix<T>(ops: seq<Op<T>>, n: nat)
    requires Legal(ops) && n < |ops|
    ensures Legal(ops[..n])
    ensures n > 0 ==> Last(ops[..n]).now <= ops[n].now
  {
    assert forall i :: 0 <= i < n ==> ops[..n][..i] == ops[..i];
  }

  /* ---------------------------------------------------------------- an unbounded map */

  /** The same operations on a map that is never swept and never full. */
  function Unbounded<T>(ops: seq<Op<T>>): map<string, Entry<T>> {
    if ops == [] then map[]
    else
      match Last(ops)
      case PutOp(key, session, now, _) => Unbounded(Init(ops))[key := Entry(session, now + CHALLENGE_TTL)]
      case TakeOp(key, _) => Unbounded(Init(ops)) - {key}
  }

  lemma {:induction false} UnboundedExactly<T>(ops: seq<Op<T>>, key: string, now: int)
    ensures Answer(Unbounded(ops), key, now) ==
            if Pending(ops, key, now) then Some(ops[Touched(ops, key)].session) else None
  {
    if ops != [] {
      UnboundedExactly(Init(ops), key, now);
    }
  }

  /** No put finds 4096 entries left after its sweep. */
  predicate NeverFull<T>(ops: seq<Op<T>>) {
    forall i :: 0 <= i < |ops| && ops[i].PutOp? ==> |Sweep(After(ops[..i]), ops[i].now)| < MAX_PENDING
  }

  lemma {:induction false} NeverFullEvictsNone<T>(ops: seq<Op<T>>, key: string)
    requires NeverFull(ops)
    ensures !EvictedSince(ops, key)
  {
    if ops != [] {
      assert Init(ops) == ops[..|ops| - 1] && forall i :: 0 <= i < |ops| ==> Init(ops)[..i] == ops[..i];
      NeverFullEvictsNone(Init(ops), key);
    }
  }

  /** The store answers like the unbounded map except for keys evicted since their put; in particular it
      cannot be told apart while no put finds 4096 entries left after its sweep. */
  lemma RefinesUnboundedMap<T>(ops: seq<Op<T>>, key: string, now: int)
    requires Legal(ops) && (ops != [] ==> Last(ops).now <= now)
    ensures Answer(After(ops), key, now) == if EvictedSince(ops, key) then None else Answer(Unbounded(ops), key, now)
    ensures NeverFull(ops) ==> Answer(After(ops), key, now) == Answer(Unbounded(ops), key, now)
  {
    TakeSucceedsExactly(ops, key, now);
    UnboundedExactly(ops, key, now);
    if NeverFull(ops) {
      NeverFullEvictsNone(ops, key);
    }
  }
}
