/**
 * The state of src/decay.cpp as a value: items in time buckets, a scheduler holding the pending checks, and what the
 * operations do to it. Times are in milliseconds and do not run backwards.
 */
module DecayModel {
  import opened WordArithmetic

  const MIN_TASK_INTERVAL: int := 50
  const HALF: int := 0x8000_0000

  type Item = nat
  type EventId = nat  // 0 is no event
  type Duration = Int32

  datatype Bucket = Bucket(key: int, items: seq<Item>)

  /** A check that was scheduled at time created for time due. */
  datatype Event = Event(created: int, due: int)

  /** buckets is ordered by key; stamp is the duration timestamp attribute of the items that have one. */
  datatype State = State(buckets: seq<Bucket>, stamp: map<Item, int>, eventId: EventId, pending: map<EventId, Event>,
                         nextEvent: EventId)

  const Initial := State([], map[], 0, map[], 1)

  // ---------------------------------------------------------------- buckets

  function Insert(b: seq<Bucket>, key: int, item: Item): seq<Bucket> {
    if b == [] || key < b[0].key then [Bucket(key, [item])] + b
    else if key == b[0].key then [Bucket(key, b[0].items + [item])] + b[1..]
    else [b[0]] + Insert(b[1..], key, item)
  }

  function IndexOf(items: seq<Item>, item: Item): (i: nat)
    requires item in items
    ensures i < |items| && items[i] == item
  {
    if items[0] == item then 0 else 1 + IndexOf(items[1..], item)
  }

  /** The last item takes the place of the one that is removed. */
  function SwapRemoved(items: seq<Item>, item: Item): seq<Item>
    requires item in items
  {
    items[IndexOf(items, item) := items[|items| - 1]][..|items| - 1]
  }

  /** Decay::stopDecay on the buckets. */
  function Removed(b: seq<Bucket>, key: int, item: Item): seq<Bucket> {
    if b == [] then []
    else if b[0].key != key then [b[0]] + Removed(b[1..], key, item)
    else if item !in b[0].items then b
    else if |b[0].items| == 1 then b[1..]
    else [Bucket(key, SwapRemoved(b[0].items, item))] + b[1..]
  }

  /** How many buckets are due. */
  function DueCount(b: seq<Bucket>, now: int): (n: nat)
    ensures n <= |b|
    ensures n < |b| ==> b[n].key > now
    ensures forall i | 0 <= i < n :: b[i].key <= now
  {
    if b == [] || b[0].key > now then 0 else 1 + DueCount(b[1..], now)
  }

  function Batch(b: seq<Bucket>): seq<Item> {
    if b == [] then [] else b[0].items + Batch(b[1..])
  }

  predicate Held(b: seq<Bucket>, key: int, item: Item) {
    b != [] && ((b[0].key == key && item in b[0].items) || Held(b[1..], key, item))
  }

  predicate BucketOk(bucket: Bucket, stamp: map<Item, int>) {
    && bucket.items != []
    && (forall x | x in bucket.items :: x in stamp && stamp[x] == bucket.key)
    && (forall i, j | 0 <= i < j < |bucket.items| :: bucket.items[i] != bucket.items[j])
  }

  /** Buckets in order, none empty, each item once and under its own timestamp. */
  predicate BucketsOk(b: seq<Bucket>, stamp: map<Item, int>) {
    && (forall i, j | 0 <= i < j < |b| :: b[i].key < b[j].key)
    && (forall bucket | bucket in b :: BucketOk(bucket, stamp))
  }

  lemma BucketsCons(bucket: Bucket, b: seq<Bucket>, stamp: map<Item, int>)
    ensures BucketsOk([bucket] + b, stamp) <==>
              BucketOk(bucket, stamp) && BucketsOk(b, stamp) && forall c | c in b :: bucket.key < c.key
  {
    hide *;
    BucketsAre([bucket] + b, stamp);
    BucketsAre(b, stamp);
    RisingCons(bucket, b);
    assert forall c :: c in [bucket] + b <==> c == bucket || c in b;
  }

  predicate Rising(b: seq<Bucket>) {
    forall i, j | 0 <= i < j < |b| :: b[i].key < b[j].key
  }

  lemma BucketsAre(b: seq<Bucket>, stamp: map<Item, int>)
    ensures BucketsOk(b, stamp) <==> Rising(b) && forall bucket | bucket in b :: BucketOk(bucket, stamp)
  {
  }

  lemma RisingCons(bucket: Bucket, b: seq<Bucket>)
    ensures Rising([bucket] + b) <==> Rising(b) && forall c | c in b :: bucket.key < c.key
  {
    var s := [bucket] + b;
    if Rising(s) {
      forall c | c in b
        ensures bucket.key < c.key
      {
        var i :| 0 <= i < |b| && b[i] == c;
        assert s[0].key < s[i + 1].key;
      }
      forall i, j | 0 <= i < j < |b|
        ensures b[i].key < b[j].key
      {
        assert s[i + 1].key < s[j + 1].key;
      }
    }
    if Rising(b) && forall c | c in b :: bucket.key < c.key {
      forall i, j | 0 <= i < j < |s|
        ensures s[i].key < s[j].key
      {
        assert s[j] == b[j - 1] && b[j - 1] in b;
        assert i > 0 ==> s[i] == b[i - 1];
      }
    }
  }

  lemma BucketsUncons(b: seq<Bucket>, stamp: map<Item, int>)
    requires b != [] && BucketsOk(b, stamp)
    ensures BucketOk(b[0], stamp) && BucketsOk(b[1..], stamp) && forall c | c in b[1..] :: b[0].key < c.key
  {
    assert b == [b[0]] + b[1..];
    BucketsCons(b[0], b[1..], stamp);
  }

  /** What is held lies under the timestamp of the item. */
  lemma {:induction false} HeldIsStamped(b: seq<Bucket>, stamp: map<Item, int>, key: int, item: Item)
    requires BucketsOk(b, stamp) && Held(b, key, item)
    ensures item in stamp && stamp[item] == key
  {
    BucketsUncons(b, stamp);
    if !(b[0].key == key && item in b[0].items) {
      HeldIsStamped(b[1..], stamp, key, item);
    }
  }

  lemma {:induction false} HeldIsBounded(b: seq<Bucket>, key: int, item: Item, low: int)
    requires Held(b, key, item) && forall c | c in b :: low < c.key
    ensures low < key
  {
    assert b[0] in b;
    if !(b[0].key == key && item in b[0].items) {
      assert forall c | c in b[1..] :: c in b;
      HeldIsBounded(b[1..], key, item, low);
    }
  }

  ghost predicate Below(b: seq<Bucket>, high: int) {
    forall c | c in b :: c.key < high
  }

  ghost predicate Above(b: seq<Bucket>, low: int) {
    forall c | c in b :: low < c.key
  }

  lemma {:induction false} InsertKeys(b: seq<Bucket>, key: int, item: Item, low: int, high: int)
    ensures Below(b, high) && key < high ==> Below(Insert(b, key, item), high)
    ensures Above(b, low) && low < key ==> Above(Insert(b, key, item), low)
    ensures Insert(b, key, item) != []
    ensures Insert(b, key, item)[0].key == if b == [] || key < b[0].key then key else b[0].key
  {
    if b == [] {
    } else {
      assert b[0] in b;
      assert forall c | c in b[1..] :: c in b;
      if key > b[0].key {
        InsertKeys(b[1..], key, item, low, high);
      }
    }
  }

  lemma {:induction false} InsertHolds(b: seq<Bucket>, key: int, item: Item)
    ensures forall k, x :: Held(Insert(b, key, item), k, x) <==> Held(b, k, x) || (k == key && x == item)
  {
    var r := Insert(b, key, item);
    if b == [] {
      assert r == [Bucket(key, [item])];
    } else if key < b[0].key {
      assert r[1..] == b;
    } else if key == b[0].key {
      assert r[1..] == b[1..];
    } else {
      InsertHolds(b[1..], key, item);
      assert r[1..] == Insert(b[1..], key, item);
    }
  }

  /** An item that is in no bucket goes into the bucket of its timestamp. */
  lemma {:induction false} InsertKeepsOk(b: seq<Bucket>, stamp: map<Item, int>, key: int, item: Item)
    requires BucketsOk(b, stamp) && forall k :: !Held(b, k, item)
    ensures BucketsOk(Insert(b, key, item), stamp[item := key])
  {
    hide *;
    var after := stamp[item := key];
    InsertUnfolds(b, stamp, key, item);
    if b == [] {
      BucketsCons(Bucket(key, [item]), [], after);
    } else {
      BucketsUncons(b, stamp);
      HeldUnfolds(b, item);
      RestampBucket(b[0], stamp, key, item);
      if key < b[0].key {
        RestampBuckets(b, stamp, key, item);
        assert forall c | c in b :: c == b[0] || c in b[1..];
        BucketsCons(Bucket(key, [item]), b, after);
      } else if key == b[0].key {
        RestampBuckets(b[1..], stamp, key, item);
        BucketsCons(Bucket(key, b[0].items + [item]), b[1..], after);
      } else {
        InsertKeepsOk(b[1..], stamp, key, item);
        AboveMeans(b[1..], b[0].key);
        InsertKeys(b[1..], key, item, b[0].key, 0);
        AboveMeans(Insert(b[1..], key, item), b[0].key);
        BucketsCons(b[0], Insert(b[1..], key, item), after);
      }
    }
  }

  lemma InsertUnfolds(b: seq<Bucket>, stamp: map<Item, int>, key: int, item: Item)
    requires BucketsOk(b, stamp) && forall k :: !Held(b, k, item)
    ensures b == [] ==> Insert(b, key, item) == [Bucket(key, [item])] + [] && BucketsOk([], stamp[item := key])
    ensures BucketOk(Bucket(key, [item]), stamp[item := key])
    ensures b != [] ==>
              && (key < b[0].key ==> Insert(b, key, item) == [Bucket(key, [item])] + b)
              && (key > b[0].key ==> Insert(b, key, item) == [b[0]] + Insert(b[1..], key, item))
              && (key == b[0].key ==>
                    && Insert(b, key, item) == [Bucket(key, b[0].items + [item])] + b[1..]
                    && BucketOk(Bucket(key, b[0].items + [item]), stamp[item := key]))
  {
    if b != [] {
      assert b[0] in b && BucketOk(b[0], stamp);
      assert !Held(b, b[0].key, item);
    }
  }

  lemma HeldUnfolds(b: seq<Bucket>, item: Item)
    requires b != [] && forall k :: !Held(b, k, item)
    ensures item !in b[0].items && forall k :: !Held(b[1..], k, item)
  {
    assert !Held(b, b[0].key, item);
    forall k
      ensures !Held(b[1..], k, item)
    {
      assert !Held(b, k, item);
    }
  }

  lemma AboveMeans(b: seq<Bucket>, low: int)
    ensures Above(b, low) == forall c | c in b :: low < c.key
  {
  }

  lemma RestampBucket(bucket: Bucket, stamp: map<Item, int>, key: int, item: Item)
    requires BucketOk(bucket, stamp) && item !in bucket.items
    ensures BucketOk(bucket, stamp[item := key])
  {
  }

  lemma {:induction false} RestampBuckets(b: seq<Bucket>, stamp: map<Item, int>, key: int, item: Item)
    requires BucketsOk(b, stamp) && forall k :: !Held(b, k, item)
    ensures BucketsOk(b, stamp[item := key])
  {
    if b == [] {
    } else {
      BucketsUncons(b, stamp);
      assert !Held(b, b[0].key, item);
      RestampBucket(b[0], stamp, key, item);
      assert forall k :: Held(b[1..], k, item) ==> Held(b, k, item);
      RestampBuckets(b[1..], stamp, key, item);
      BucketsCons(b[0], b[1..], stamp[item := key]);
      assert [b[0]] + b[1..] == b;
    }
  }

  lemma SwapRemovedItems(items: seq<Item>, item: Item)
    requires item in items && forall i, j | 0 <= i < j < |items| :: items[i] != items[j]
    ensures var r := SwapRemoved(items, item);
            && |r| == |items| - 1
            && (forall x :: x in r <==> x in items && x != item)
            && (forall i, j | 0 <= i < j < |r| :: r[i] != r[j])
  {
    var n, at, r := |items| - 1, IndexOf(items, item), SwapRemoved(items, item);
    assert forall i | 0 <= i < n :: r[i] == if i == at then items[n] else items[i];
    forall x | x in items && x != item
      ensures x in r
    {
      var i :| 0 <= i < |items| && items[i] == x;
      assert r[if i == n then at else i] == x;
    }
  }

  lemma {:induction false} RemoveKeys(b: seq<Bucket>, key: int, item: Item, low: int, high: int)
    ensures Below(b, high) ==> Below(Removed(b, key, item), high)
    ensures Above(b, low) ==> Above(Removed(b, key, item), low)
  {
    if b == [] {
    } else {
      assert b[0] in b;
      assert forall c | c in b[1..] :: c in b;
      if b[0].key != key {
        RemoveKeys(b[1..], key, item, low, high);
      }
    }
  }

  /** Taking an item out of the bucket of its timestamp takes it out altogether and moves no other item. */
  lemma {:induction false} RemoveKeepsOk(b: seq<Bucket>, stamp: map<Item, int>, key: int, item: Item)
    requires BucketsOk(b, stamp)
    ensures BucketsOk(Removed(b, key, item), stamp)
    ensures forall k, x :: Held(Removed(b, key, item), k, x) <==> Held(b, k, x) && !(k == key && x == item)
  {
    hide *;
    RemoveUnfolds(b, key, item);
    if b != [] {
      BucketsUncons(b, stamp);
      HeldParts(b);
      if b[0].key != key {
        var rest := Removed(b[1..], key, item);
        RemoveKeepsOk(b[1..], stamp, key, item);
        AboveMeans(b[1..], b[0].key);
        RemoveKeys(b[1..], key, item, b[0].key, 0);
        AboveMeans(rest, b[0].key);
        BucketsCons(b[0], rest, stamp);
        HeldParts([b[0]] + rest);
        assert ([b[0]] + rest)[1..] == rest;
      } else {
        NotHeldAbove(b[1..], key);
        if item in b[0].items {
          BucketOkMeans(b[0], stamp);
          SwapRemovedItems(b[0].items, item);
          if |b[0].items| == 1 {
            assert b[0].items == [item];
          } else {
            var less := Bucket(key, SwapRemoved(b[0].items, item));
            BucketOkMeans(less, stamp);
            BucketsCons(less, b[1..], stamp);
            HeldParts([less] + b[1..]);
            assert ([less] + b[1..])[1..] == b[1..];
          }
        }
      }
    }
  }

  lemma RemoveUnfolds(b: seq<Bucket>, key: int, item: Item)
    ensures b == [] ==> Removed(b, key, item) == [] && forall k, x :: !Held([], k, x)
    ensures b != [] ==>
              Removed(b, key, item) ==
              if b[0].key != key then [b[0]] + Removed(b[1..], key, item)
              else if item !in b[0].items then b
              else if |b[0].items| == 1 then b[1..]
              else [Bucket(key, SwapRemoved(b[0].items, item))] + b[1..]
  {
  }

  lemma HeldParts(b: seq<Bucket>)
    requires b != []
    ensures forall k, x :: Held(b, k, x) <==> (b[0].key == k && x in b[0].items) || Held(b[1..], k, x)
  {
  }

  lemma NotHeldAbove(b: seq<Bucket>, key: int)
    requires forall c | c in b :: key < c.key
    ensures forall x :: !Held(b, key, x)
  {
    forall x
      ensures !Held(b, key, x)
    {
      if Held(b, key, x) {
        HeldIsBounded(b, key, x, key);
      }
    }
  }

  lemma BucketOkMeans(bucket: Bucket, stamp: map<Item, int>)
    ensures BucketOk(bucket, stamp) <==>
              && bucket.items != []
              && (forall x | x in bucket.items :: x in stamp && stamp[x] == bucket.key)
              && (forall i, j | 0 <= i < j < |bucket.items| :: bucket.items[i] != bucket.items[j])
  {
  }

  /** Removing an item never brings the first key forward. */
  lemma FirstKeyAfterRemove(b: seq<Bucket>, stamp: map<Item, int>, key: int, item: Item)
    requires BucketsOk(b, stamp) && Removed(b, key, item) != []
    ensures b != [] && b[0].key <= Removed(b, key, item)[0].key
  {
    BucketsUncons(b, stamp);
    if |b| > 1 {
      assert b[1] in b[1..];
    }
  }

  // ---------------------------------------------------------------- operations

  function Clamp(duration: int): int {
    if duration < MIN_TASK_INTERVAL then MIN_TASK_INTERVAL else duration
  }

  function Scheduled(s: State, created: int, delay: int): State {
    s.(eventId := s.nextEvent, pending := s.pending[s.nextEvent := Event(created, created + delay)],
       nextEvent := s.nextEvent + 1)
  }

  function Cancelled(s: State): State {
    s.(pending := s.pending - {s.eventId})
  }

  /** startDecay first takes the item out of the bucket it may be in. */
  function Freed(s: State, item: Item): State {
    if item in s.stamp then s.(buckets := Removed(s.buckets, s.stamp[item], item)) else s
  }

  /** A check is set for the first of all items, in place of a later one. */
  function Woken(s: State, key: int, created: int, delay: int): State {
    if s.buckets == [] then Scheduled(s, created, delay)
    else if key < s.buckets[0].key then Scheduled(Cancelled(s), created, delay)
    else s
  }

  /** startDecay */
  function Start(s: State, item: Item, duration: Duration, now: int): State {
    var woken := Woken(Freed(s, item), now + duration, now, Clamp(duration));
    woken.(buckets := Insert(woken.buckets, now + duration, item), stamp := woken.stamp[item := now + duration])
  }

  /** Game::stopDecay for an item that is decaying: stopDecay, after which the timestamp goes as well. */
  function Stop(s: State, item: Item): State {
    if item !in s.stamp then s
    else s.(buckets := Removed(s.buckets, s.stamp[item], item), stamp := s.stamp - {item})
  }

  function Clear(s: State): State {
    var quiet := if s.eventId != 0 then Cancelled(s).(eventId := 0) else s;
    quiet.(buckets := [])
  }

  /** What the decay of one batch may do. */
  datatype Op = StartOp(item: Item, duration: Duration, now: int) | StopOp(item: Item)

  function Apply(s: State, op: Op): State {
    match op
    case StartOp(item, duration, now) => Start(s, item, duration, now)
    case StopOp(item) => Stop(s, item)
  }

  function ApplyAll(s: State, ops: seq<Op>): State
    decreases |ops|
  {
    if ops == [] then s else ApplyAll(Apply(s, ops[0]), ops[1..])
  }

  function ScheduledNext(s: State, now: int): State
    requires s.buckets != []
  {
    Scheduled(if s.eventId != 0 then Cancelled(s) else s, now, Clamp(AsInt32(s.buckets[0].key - now)))
  }

  function Drained(s: State, now: int): State {
    s.(buckets := s.buckets[DueCount(s.buckets, now)..])
  }

  /** checkDecay: due buckets are emptied at time now, their items decay, and at time later the next check is set. */
  function Check(s: State, now: int, ops: seq<Op>, later: int): State {
    var decayed := ApplyAll(Drained(s, now), ops);
    if decayed.buckets == [] then decayed else ScheduledNext(decayed, later)
  }

  /** A pending check comes due. */
  function Fired(s: State, id: EventId, now: int, ops: seq<Op>, later: int): State {
    Check(s.(pending := s.pending - {id}), now, ops, later)
  }

  // ---------------------------------------------------------------- invariants

  /** What holds between any two operations, inside a batch too. */
  ghost predicate Sound(s: State, now: int) {
    && BucketsOk(s.buckets, s.stamp)
    && Below(s.buckets, now + HALF)
    && s.eventId < s.nextEvent
    && (forall id | id in s.pending :: 0 < id < s.nextEvent)
  }

  /** While anything is decaying a check is pending, at most 50 ms late. */
  predicate Awake(s: State) {
    s.buckets != [] ==>
      && s.eventId in s.pending
      && s.pending[s.eventId].due <= Max(s.buckets[0].key, s.pending[s.eventId].created) + MIN_TASK_INTERVAL
  }

  predicate TimesWithin(ops: seq<Op>, from: int, to: int)
    decreases |ops|
  {
    from <= to &&
    (ops == [] ||
     if ops[0].StartOp? then from <= ops[0].now && TimesWithin(ops[1..], ops[0].now, to)
     else TimesWithin(ops[1..], from, to))
  }

  lemma SoundLater(s: State, now: int, later: int)
    requires Sound(s, now) && now <= later
    ensures Sound(s, later)
  {
  }

  lemma NotHeldAfterRemove(s: State, item: Item, now: int)
    requires Sound(s, now)
    ensures forall k :: !Held(Freed(s, item).buckets, k, item)
    ensures forall k, x | x != item :: Held(Freed(s, item).buckets, k, x) <==> Held(s.buckets, k, x)
  {
    if item in s.stamp {
      RemoveKeepsOk(s.buckets, s.stamp, s.stamp[item], item);
    }
    forall k
      ensures !Held(Freed(s, item).buckets, k, item)
    {
      if Held(s.buckets, k, item) {
        HeldIsStamped(s.buckets, s.stamp, k, item);
      }
    }
  }

  lemma FreedKeeps(s: State, item: Item, now: int)
    requires Sound(s, now)
    ensures Sound(Freed(s, item), now) && (Awake(s) ==> Awake(Freed(s, item)))
  {
    if item in s.stamp {
      RemoveKeepsOk(s.buckets, s.stamp, s.stamp[item], item);
      RemoveKeys(s.buckets, s.stamp[item], item, 0, now + HALF);
      if Freed(s, item).buckets != [] {
        FirstKeyAfterRemove(s.buckets, s.stamp, s.stamp[item], item);
      }
    }
  }

  lemma StartKeeps(s: State, item: Item, duration: Duration, now: int)
    requires Sound(s, now)
    ensures Sound(Start(s, item, duration, now), now)
    ensures Awake(s) ==> Awake(Start(s, item, duration, now))
    ensures forall k, x :: Held(Start(s, item, duration, now).buckets, k, x) <==>
                             if x == item then k == now + duration else Held(s.buckets, k, x)
    ensures Start(s, item, duration, now).stamp == s.stamp[item := now + duration]
  {
    hide *;
    var free, key := Freed(s, item), now + duration;
    FreedKeeps(s, item, now);
    SoundBuckets(free, now);
    NotHeldAfterRemove(s, item, now);
    InsertKeepsOk(free.buckets, free.stamp, key, item);
    InsertHolds(free.buckets, key, item);
    PlacedSound(free, item, duration, now);
    StartUnfolds(s, item, duration, now);
  }

  /**
   * Starting an item that is due before all others replaces the check, and starting one while nothing is decaying adds
   * one: a new check for exactly its timestamp, but at least 50 ms later. Any other start leaves the checks alone.
   */
  lemma StartSetsCheck(s: State, item: Item, duration: Duration, now: int)
    requires Sound(s, now)
    ensures var (after, others) := (Start(s, item, duration, now), Freed(s, item).buckets);
            if others == [] || now + duration < others[0].key then
              && after.eventId !in s.pending
              && after.pending.Keys ==
                 s.pending.Keys - (if others == [] then {} else {s.eventId}) + {after.eventId}
              && after.pending[after.eventId].created == now
              && after.pending[after.eventId].due == Max(now + duration, now + MIN_TASK_INTERVAL)
            else after.pending == s.pending && after.eventId == s.eventId
  {
  }

  lemma SoundBuckets(s: State, now: int)
    requires Sound(s, now)
    ensures BucketsOk(s.buckets, s.stamp)
  {
  }

  lemma StartUnfolds(s: State, item: Item, duration: Duration, now: int)
    ensures var free, key := Freed(s, item), now + duration;
            var woken := Woken(free, key, now, Clamp(duration));
            && Start(s, item, duration, now) ==
               woken.(buckets := Insert(woken.buckets, key, item), stamp := woken.stamp[item := key])
            && woken.buckets == free.buckets && woken.stamp == s.stamp
  {
  }

  lemma PlacedSound(free: State, item: Item, duration: Duration, now: int)
    requires Sound(free, now)
    requires BucketsOk(Insert(free.buckets, now + duration, item), free.stamp[item := now + duration])
    ensures var woken := Woken(free, now + duration, now, Clamp(duration));
            var s := woken.(buckets := Insert(woken.buckets, now + duration, item),
                            stamp := woken.stamp[item := now + duration]);
            Sound(s, now) && (Awake(free) ==> Awake(s))
  {
    InsertKeys(free.buckets, now + duration, item, 0, now + HALF);
  }

  lemma StopKeeps(s: State, item: Item, now: int)
    requires Sound(s, now)
    ensures Sound(Stop(s, item), now)
    ensures Awake(s) ==> Awake(Stop(s, item))
    ensures forall k, x :: Held(Stop(s, item).buckets, k, x) <==> x != item && Held(s.buckets, k, x)
    ensures Stop(s, item).stamp == s.stamp - {item} && Stop(s, item).pending == s.pending
  {
    FreedKeeps(s, item, now);
    NotHeldAfterRemove(s, item, now);
    if item in s.stamp {
      Unstamp(Freed(s, item).buckets, s.stamp, item);
    }
  }

  lemma {:induction false} Unstamp(b: seq<Bucket>, stamp: map<Item, int>, item: Item)
    requires BucketsOk(b, stamp) && forall k :: !Held(b, k, item)
    ensures BucketsOk(b, stamp - {item})
  {
    if b == [] {
    } else {
      BucketsUncons(b, stamp);
      assert !Held(b, b[0].key, item);
      assert BucketOk(b[0], stamp - {item});
      assert forall k :: Held(b[1..], k, item) ==> Held(b, k, item);
      Unstamp(b[1..], stamp, item);
      BucketsCons(b[0], b[1..], stamp - {item});
      assert [b[0]] + b[1..] == b;
    }
  }

  lemma {:induction false} ApplyAllKeeps(s: State, ops: seq<Op>, now: int, later: int)
    requires Sound(s, now) && TimesWithin(ops, now, later)
    ensures Sound(ApplyAll(s, ops), later)
    decreases |ops|
  {
    if ops == [] {
      SoundLater(s, now, later);
    } else {
      match ops[0]
      case StartOp(item, duration, at) =>
        SoundLater(s, now, at);
        StartKeeps(s, item, duration, at);
        ApplyAllKeeps(Apply(s, ops[0]), ops[1..], at, later);
      case StopOp(item) =>
        StopKeeps(s, item, now);
        ApplyAllKeeps(Apply(s, ops[0]), ops[1..], now, later);
    }
  }

  // ---------------------------------------------------------------- the check

  /** Narrowing the delay to 32 bits is exact unless the check is overdue by more than 2^31 ms. */
  lemma DelayIsExact(s: State, now: int)
    requires Sound(s, now) && s.buckets != []
    ensures AsInt32(s.buckets[0].key - now) == s.buckets[0].key - now <==> now - s.buckets[0].key <= HALF
  {
  }

  /**
   * The next check is set in time unless the narrowed delay of an overdue one has come out positive, which is so when
   * it is late by more than 2^31 ms (and does not come close to a multiple of 2^32).
   */
  lemma NextCheckInTime(s: State, now: int)
    requires Sound(s, now) && s.buckets != []
    ensures var late := now - s.buckets[0].key;
            Awake(ScheduledNext(s, now)) <==> (late <= 0 || late % WORD <= HALF || late % WORD >= WORD - 50)
    ensures now - s.buckets[0].key <= HALF ==> Awake(ScheduledNext(s, now))
  {
  }

  /** The next check takes the place of the current one, and is set for its key unless that is less than 50 ms away. */
  lemma NextCheckReplaces(s: State, now: int)
    requires Sound(s, now) && s.buckets != []
    ensures var after := ScheduledNext(s, now);
            && after.eventId !in s.pending
            && after.pending.Keys == s.pending.Keys - {s.eventId} + {after.eventId}
            && after.pending[after.eventId].created == now
            && (now - s.buckets[0].key <= HALF ==>
                  after.pending[after.eventId].due == Max(s.buckets[0].key, now + MIN_TASK_INTERVAL))
  {
    DelayIsExact(s, now);
  }

  /** Clearing empties the buckets and takes the current check, and no other, off the scheduler. */
  lemma ClearCancels(s: State, now: int)
    requires Sound(s, now)
    ensures Clear(s).buckets == [] && Clear(s).stamp == s.stamp && Clear(s).pending.Keys == s.pending.Keys - {s.eventId}
  {
  }

  /** Emptying the due buckets leaves the others alone. */
  lemma {:induction false} DrainLeavesRest(b: seq<Bucket>, stamp: map<Item, int>, now: int)
    requires BucketsOk(b, stamp)
    ensures var rest := b[DueCount(b, now)..];
            && BucketsOk(rest, stamp) && Above(rest, now)
            && forall k, x :: Held(rest, k, x) <==> Held(b, k, x) && k > now
    decreases |b|
  {
    var n := DueCount(b, now);
    if b == [] || b[0].key > now {
      assert b[n..] == b;
      if b != [] {
        BucketsUncons(b, stamp);
        assert forall c | c in b :: c == b[0] || c in b[1..];
      }
      forall k, x | Held(b, k, x)
        ensures k > now
      {
        HeldIsBounded(b, k, x, now);
      }
    } else {
      BucketsUncons(b, stamp);
      DrainLeavesRest(b[1..], stamp, now);
      assert b[n..] == b[1..][n - 1..];
      HeldParts(b);
    }
  }

  /** The batch has exactly the items that are due, each of them once. */
  ghost predicate IsBatch(batch: seq<Item>, b: seq<Bucket>, stamp: map<Item, int>, now: int) {
    && (forall x | x in batch :: x in stamp && stamp[x] <= now && Held(b, stamp[x], x))
    && (forall k, x | Held(b, k, x) && k <= now :: x in batch)
    && (forall i, j | 0 <= i < j < |batch| :: batch[i] != batch[j])
  }

  lemma {:induction false} DrainTakesDue(b: seq<Bucket>, stamp: map<Item, int>, now: int)
    requires BucketsOk(b, stamp)
    ensures IsBatch(Batch(b[..DueCount(b, now)]), b, stamp, now)
    decreases |b|
  {
    hide *;
    var n := DueCount(b, now);
    DueUnfolds(b, now);
    if b == [] || b[0].key > now {
      NothingDue(b, stamp, now);
    } else {
      BucketsUncons(b, stamp);
      DrainTakesDue(b[1..], stamp, now);
      FirstBatch(b, stamp, now, Batch(b[1..][..n - 1]));
    }
  }

  lemma DueUnfolds(b: seq<Bucket>, now: int)
    ensures var n := DueCount(b, now);
            if b == [] || b[0].key > now then n == 0 && b[..n] == []
            else
              && n > 0 && n - 1 == DueCount(b[1..], now) <= |b[1..]|
              && Batch(b[..n]) == b[0].items + Batch(b[1..][..n - 1])
  {
    var n := DueCount(b, now);
    if n > 0 {
      assert b[..n][0] == b[0] && b[..n][1..] == b[1..][..n - 1];
    }
  }

  lemma NothingDue(b: seq<Bucket>, stamp: map<Item, int>, now: int)
    requires BucketsOk(b, stamp) && (b == [] || b[0].key > now)
    ensures IsBatch(Batch([]), b, stamp, now)
  {
    if b != [] {
      BucketsUncons(b, stamp);
      assert forall c | c in b :: c == b[0] || c in b[1..];
    }
    forall k, x | Held(b, k, x)
      ensures k > now
    {
      HeldIsBounded(b, k, x, now);
    }
  }

  lemma FirstBatch(b: seq<Bucket>, stamp: map<Item, int>, now: int, rest: seq<Item>)
    requires b != [] && BucketsOk(b, stamp) && b[0].key <= now && IsBatch(rest, b[1..], stamp, now)
    ensures IsBatch(b[0].items + rest, b, stamp, now) && BucketsOk(b[1..], stamp)
  {
    var all := b[0].items + rest;
    BucketsUncons(b, stamp);
    HeldParts(b);
    forall x | x in rest
      ensures x !in b[0].items
    {
      HeldIsBounded(b[1..], stamp[x], x, b[0].key);
    }
    forall i, j | 0 <= i < j < |all|
      ensures all[i] != all[j]
    {
      var m := |b[0].items|;
      if i < m <= j {
        assert all[j] == rest[j - m] && rest[j - m] in rest && all[i] in b[0].items;
      } else if m <= i {
        assert all[i] == rest[i - m] && all[j] == rest[j - m];
      }
    }
  }

  /** Items are only ever started for a positive duration by the game. */
  predicate Positive(ops: seq<Op>) {
    forall op | op in ops :: op.StartOp? ==> op.duration > 0
  }

  lemma {:induction false} DecayedLater(s: State, ops: seq<Op>, now: int, later: int, low: int)
    requires Sound(s, now) && Above(s.buckets, low) && low <= now && TimesWithin(ops, now, later) && Positive(ops)
    ensures Above(ApplyAll(s, ops).buckets, low)
    decreases |ops|
  {
    if ops == [] {
    } else {
      assert ops[0] in ops && forall op | op in ops[1..] :: op in ops;
      var at := if ops[0].StartOp? then ops[0].now else now;
      SoundLater(s, now, at);
      AppliedAbove(s, ops[0], at, low);
      DecayedLater(Apply(s, ops[0]), ops[1..], at, later, low);
    }
  }

  lemma AppliedAbove(s: State, op: Op, now: int, low: int)
    requires Sound(s, now) && Above(s.buckets, low) && low <= now
    requires op.StartOp? ==> op.now == now && op.duration > 0
    ensures Sound(Apply(s, op), now) && Above(Apply(s, op).buckets, low)
  {
    if op.item in s.stamp {
      RemoveKeys(s.buckets, s.stamp[op.item], op.item, low, 0);
    }
    match op
    case StartOp(item, duration, _) =>
      StartKeeps(s, item, duration, now);
      InsertKeys(Freed(s, item).buckets, now + duration, item, low, 0);
    case StopOp(item) =>
      StopKeeps(s, item, now);
  }

  /** After a check that ran for less than 2^31 ms nothing that was due is left and the next check is set in time. */
  lemma CheckKeeps(s: State, now: int, ops: seq<Op>, later: int)
    requires Sound(s, now) && TimesWithin(ops, now, later)
    ensures Sound(Check(s, now, ops, later), later)
    ensures Positive(ops) ==> Above(Check(s, now, ops, later).buckets, now)
    ensures Positive(ops) && later - now <= HALF ==> Awake(Check(s, now, ops, later))
  {
    hide *;
    var drained := Drained(s, now);
    var decayed := ApplyAll(drained, ops);
    CheckUnfolds(s, now, ops, later);
    DrainedSound(s, now);
    ApplyAllKeeps(drained, ops, now, later);
    WithinOrder(ops, now, later);
    if Positive(ops) {
      DecayedLater(drained, ops, now, later, now);
      FirstAbove(decayed.buckets, now);
    }
    if decayed.buckets != [] {
      NextCheckInTime(decayed, later);
      ScheduledSound(decayed, later);
    }
  }

  lemma DrainedSound(s: State, now: int)
    requires Sound(s, now)
    ensures Sound(Drained(s, now), now) && Above(Drained(s, now).buckets, now)
  {
    DrainLeavesRest(s.buckets, s.stamp, now);
  }

  lemma CheckUnfolds(s: State, now: int, ops: seq<Op>, later: int)
    ensures var decayed := ApplyAll(Drained(s, now), ops);
            if decayed.buckets == [] then Check(s, now, ops, later) == decayed && Awake(decayed)
            else Check(s, now, ops, later) == ScheduledNext(decayed, later)
  {
  }

  lemma FirstAbove(b: seq<Bucket>, low: int)
    requires Above(b, low)
    ensures b != [] ==> low < b[0].key
  {
  }

  lemma ScheduledSound(s: State, now: int)
    requires Sound(s, now) && s.buckets != []
    ensures Sound(ScheduledNext(s, now), now) && ScheduledNext(s, now).buckets == s.buckets
  {
  }

  lemma {:induction false} WithinOrder(ops: seq<Op>, from: int, to: int)
    requires TimesWithin(ops, from, to)
    ensures from <= to
  {
  }

  // ---------------------------------------------------------------- runs

  datatype Action =
    | DoStart(item: Item, duration: Duration, now: int)
    | DoStop(item: Item, now: int)
    | DoClear(now: int)
    | DoFire(id: EventId, now: int, ops: seq<Op>, later: int)

  function After(s: State, a: Action): State {
    match a
    case DoStart(item, duration, now) => Start(s, item, duration, now)
    case DoStop(item, _) => Stop(s, item)
    case DoClear(_) => Clear(s)
    case DoFire(id, now, ops, later) => Fired(s, id, now, ops, later)
  }

  function Ends(a: Action): int {
    if a.DoFire? then a.later else a.now
  }

  /** Any pending check may fire, a replaced one that is still pending too; a batch takes less than 2^31 ms. */
  ghost predicate Possible(s: State, a: Action) {
    a.DoFire? ==>
      a.id in s.pending && TimesWithin(a.ops, a.now, a.later) && Positive(a.ops) && a.later - a.now <= HALF
  }

  ghost predicate Run(s: State, actions: seq<Action>, since: int)
    decreases |actions|
  {
    actions == [] ||
    (since <= actions[0].now && Possible(s, actions[0]) && Run(After(s, actions[0]), actions[1..], Ends(actions[0])))
  }

  function AfterAll(s: State, actions: seq<Action>): State
    decreases |actions|
  {
    if actions == [] then s else AfterAll(After(s, actions[0]), actions[1..])
  }

  function EndOf(actions: seq<Action>, since: int): int
    decreases |actions|
  {
    if actions == [] then since else EndOf(actions[1..], Ends(actions[0]))
  }

  lemma ActionKeeps(s: State, a: Action, since: int)
    requires Sound(s, since) && Awake(s) && since <= a.now && Possible(s, a)
    ensures Sound(After(s, a), Ends(a)) && Awake(After(s, a))
  {
    SoundLater(s, since, a.now);
    match a
    case DoStart(item, duration, now) => StartKeeps(s, item, duration, now);
    case DoStop(item, now) => StopKeeps(s, item, now);
    case DoClear(_) =>
    case DoFire(id, now, ops, later) => CheckKeeps(s.(pending := s.pending - {id}), now, ops, later);
  }

  /** In every run each item is in at most one bucket, and while anything is decaying a check is pending in time. */
  lemma {:induction false} RunKeeps(s: State, actions: seq<Action>, since: int)
    requires Sound(s, since) && Awake(s) && Run(s, actions, since)
    ensures Sound(AfterAll(s, actions), EndOf(actions, since)) && Awake(AfterAll(s, actions))
    decreases |actions|
  {
    if actions == [] {
    } else {
      ActionKeeps(s, actions[0], since);
      RunKeeps(After(s, actions[0]), actions[1..], Ends(actions[0]));
    }
  }

  lemma ReachableStates(actions: seq<Action>, since: int)
    requires Run(Initial, actions, since)
    ensures var s := AfterAll(Initial, actions);
            && Sound(s, EndOf(actions, since)) && Awake(s)
            && forall k, x | Held(s.buckets, k, x) :: x in s.stamp && k == s.stamp[x]
  {
    RunKeeps(Initial, actions, since);
    var s := AfterAll(Initial, actions);
    forall k, x | Held(s.buckets, k, x)
      ensures x in s.stamp && k == s.stamp[x]
    {
      HeldIsStamped(s.buckets, s.stamp, k, x);
    }
  }

  /** Nothing is stranded: when every check that is due has fired, an item is overdue by less than 50 ms. */
  lemma NothingStranded(s: State, now: int, key: int, item: Item)
    requires Sound(s, now) && Awake(s) && Held(s.buckets, key, item)
    requires forall id | id in s.pending :: s.pending[id].due > now
    ensures key > now - MIN_TASK_INTERVAL || s.pending[s.eventId].created > now - MIN_TASK_INTERVAL
  {
    BucketsUncons(s.buckets, s.stamp);
    HeldIsBounded(s.buckets, key, item, s.buckets[0].key - 1);
  }
}
