/** src/decay.cpp: the decay scheduler, with the item attributes and the pending events it works on. */
module DecayScheduler {
  import opened DecayModel
  import opened WordArithmetic

  class Decay {
    var decayMap: seq<Bucket>  // std::map, in the order of its keys
    var eventId: EventId
    var stamp: map<Item, int>
    var pending: map<EventId, Event>
    var nextEvent: EventId

    function View(): State
      reads this
    {
      State(decayMap, stamp, eventId, pending, nextEvent)
    }

    constructor ()
      ensures View() == Initial
    {
      decayMap, stamp, eventId, pending, nextEvent := [], map[], 0, map[], 1;
    }

    /** g_scheduler.addEvent */
    method AddEvent(created: int, delay: int)
      modifies this
      ensures View() == Scheduled(old(View()), created, delay)
    {
      eventId := nextEvent;
      pending := pending[nextEvent := Event(created, created + delay)];
      nextEvent := nextEvent + 1;
    }

    /** g_scheduler.stopEvent */
    method StopEvent()
      modifies `pending
      ensures View() == Cancelled(old(View()))
    {
      pending := pending - {eventId};
    }

    method ScheduleNextCheck(nextTimestamp: int, now: int)
      requires decayMap != [] && nextTimestamp == decayMap[0].key
      modifies this
      ensures View() == ScheduledNext(old(View()), now)
    {
      var delay := Clamp(AsInt32(nextTimestamp - now));
      if eventId != 0 {
        StopEvent();
      }
      AddEvent(now, delay);
    }

    method StartDecay(item: Item, duration: Duration, now: int)
      modifies this
      ensures View() == Start(old(View()), item, duration, now)
    {
      if item in stamp {
        StopDecay(item, stamp[item]);
      }
      var timestamp := now + duration;
      var needsReschedule := decayMap == [] || timestamp < decayMap[0].key;
      if needsReschedule {
        if decayMap != [] {
          StopEvent();
        }
        AddEvent(now, Clamp(duration));
      }
      stamp := stamp[item := timestamp];
      decayMap := Insert(decayMap, timestamp, item);
    }

    method StopDecay(item: Item, timestamp: int)
      modifies `decayMap
      ensures decayMap == Removed(old(decayMap), timestamp, item)
    {
      hide *;
      var it := FindBucket(decayMap, timestamp);
      RemovedAt(decayMap, it, timestamp, item);
      if it == |decayMap| {
        return;
      }
      var decayItems := decayMap[it].items;
      var at := FindItem(decayItems, item);
      if at < |decayItems| {
        if |decayItems| == 1 {
          decayMap := decayMap[..it] + decayMap[it + 1..];
        } else {
          var last := decayItems[|decayItems| - 1];
          decayItems := decayItems[|decayItems| - 1 := decayItems[at]][at := last];
          decayItems := decayItems[..|decayItems| - 1];
          SwapRemovedIs(decayMap[it].items, item, decayItems);
          decayMap := decayMap[it := Bucket(timestamp, decayItems)];
        }
      }
    }

    /** Game::stopDecay */
    method StopItem(item: Item)
      modifies this
      ensures View() == Stop(old(View()), item)
    {
      if item in stamp {
        StopDecay(item, stamp[item]);
        stamp := stamp - {item};
      }
    }

    method Clear()
      modifies this
      ensures View() == DecayModel.Clear(old(View()))
    {
      if eventId != 0 {
        StopEvent();
        eventId := 0;
      }
      decayMap := [];
    }

    /** checkDecay; ops is what the decay of the batch does before time later. */
    method CheckDecay(now: int, ops: seq<Op>, later: int) returns (expiredItems: seq<Item>)
      modifies this
      ensures View() == Check(old(View()), now, ops, later)
      ensures expiredItems == Batch(old(decayMap)[..DueCount(old(decayMap), now)])
    {
      expiredItems := Drain(now);
      ProcessBatch(ops);
      if decayMap != [] {
        ScheduleNextCheck(decayMap[0].key, later);
      }
    }

    method Drain(now: int) returns (expiredItems: seq<Item>)
      modifies `decayMap
      ensures decayMap == old(decayMap)[DueCount(old(decayMap), now)..]
      ensures expiredItems == Batch(old(decayMap)[..DueCount(old(decayMap), now)])
    {
      ghost var b, n := decayMap, DueCount(decayMap, now);
      ghost var i := 0;
      expiredItems := [];
      assert b[0..n] == b[..n] && b[0..] == b;
      while decayMap != [] && decayMap[0].key <= now
        invariant i <= n && decayMap == b[i..]
        invariant Batch(b[..n]) == expiredItems + Batch(b[i..n])
        decreases |decayMap|
      {
        DueCountIs(b, now, i);
        assert b[i..n][0] == b[i] && b[i..n][1..] == b[i + 1..n];
        expiredItems := expiredItems + decayMap[0].items;
        decayMap := decayMap[1..];
        i := i + 1;
      }
      assert i == n;
      assert b[n..n] == [];
    }

    method ProcessBatch(ops: seq<Op>)
      modifies this
      ensures View() == ApplyAll(old(View()), ops)
    {
      assert ops[0..] == ops;
      for i := 0 to |ops|
        invariant ApplyAll(old(View()), ops) == ApplyAll(View(), ops[i..])
      {
        assert ops[i..][0] == ops[i] && ops[i..][1..] == ops[i + 1..];
        match ops[i] {
          case StartOp(item, duration, at) => StartDecay(item, duration, at);
          case StopOp(item) => StopItem(item);
        }
      }
      assert ops[|ops|..] == [];
    }
  }

  /** decayMap.find */
  method FindBucket(b: seq<Bucket>, key: int) returns (it: nat)
    ensures it <= |b| && (forall i | 0 <= i < it :: b[i].key != key) && (it < |b| ==> b[it].key == key)
  {
    it := 0;
    while it < |b| && b[it].key != key
      invariant it <= |b| && forall i | 0 <= i < it :: b[i].key != key
    {
      it := it + 1;
    }
  }

  lemma {:induction false} RemovedAt(b: seq<Bucket>, it: nat, key: int, item: Item)
    requires it <= |b| && (forall i | 0 <= i < it :: b[i].key != key) && (it < |b| ==> b[it].key == key)
    ensures Removed(b, key, item) ==
            if it == |b| || item !in b[it].items then b
            else if |b[it].items| == 1 then b[..it] + b[it + 1..]
            else b[it := Bucket(key, SwapRemoved(b[it].items, item))]
    decreases |b|
  {
    if b == [] {
    } else if it == 0 {
      assert b[..0] + b[1..] == b[1..];
      if item in b[0].items {
        var bucket := Bucket(key, SwapRemoved(b[0].items, item));
        assert b[0 := bucket] == [bucket] + b[1..];
      }
    } else {
      RemovedAt(b[1..], it - 1, key, item);
      RemovedBehind(b, it, if it < |b| then Bucket(key, SwapIfThere(b[it].items, item)) else b[0]);
    }
  }

  function SwapIfThere(items: seq<Item>, item: Item): seq<Item> {
    if item in items then SwapRemoved(items, item) else items
  }

  lemma RemovedBehind(b: seq<Bucket>, it: nat, bucket: Bucket)
    requires 0 < it <= |b|
    ensures [b[0]] + b[1..] == b
    ensures it < |b| ==>
              && b[1..][it - 1] == b[it]
              && [b[0]] + (b[1..][..it - 1] + b[1..][it..]) == b[..it] + b[it + 1..]
              && [b[0]] + b[1..][it - 1 := bucket] == b[it := bucket]
  {
  }

  lemma SwapRemovedIs(items: seq<Item>, item: Item, r: seq<Item>)
    requires item in items && |items| > 1
    requires var n, at := |items| - 1, IndexOf(items, item); r == items[n := items[at]][at := items[n]][..n]
    ensures r == SwapRemoved(items, item)
  {
  }

  lemma DueCountIs(b: seq<Bucket>, now: int, i: nat)
    requires i <= DueCount(b, now) && i < |b| && b[i].key <= now
    ensures i < DueCount(b, now)
  {
  }

  method FindItem(items: seq<Item>, item: Item) returns (at: nat)
    ensures if item in items then at == IndexOf(items, item) else at == |items|
  {
    at := 0;
    assert items[0..] == items;
    while at < |items| && items[at] != item
      invariant at <= |items| && item !in items[..at]
      invariant item in items ==> item in items[at..] && IndexOf(items, item) == at + IndexOf(items[at..], item)
    {
      assert items[at..][0] == items[at] && items[at..][1..] == items[at + 1..];
      at := at + 1;
    }
    if at < |items| {
      assert items[at..][0] == item;
    }
  }
}
