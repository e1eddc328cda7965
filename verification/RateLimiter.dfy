/**
 * src/connection_rate_limiter.cpp: connection attempts per address, temporary blocks, and an ordered index by which
 * entries are forgotten. Times are in milliseconds and do not run backwards.
 */
module RateLimiter {
  import opened Options
  import opened WordArithmetic

  const CLEANUP_INTERVAL: nat := 60000
  const ENTRY_LIFETIME: nat := 300000
  const ATTEMPT_WINDOW: nat := 5000
  const CLEANUP_BATCH_SIZE: nat := 256

  type Ip = nat
  type Handle = nat  // an iterator into the index

  datatype Record = Record(lastAttempt: nat, blockUntil: nat, count: nat, totalBlocks: nat)

  datatype Entry = Entry(record: Record, expiry: Option<Handle>)

  datatype Node = Node(key: nat, ip: Ip, handle: Handle)

  datatype Result = Result(allowed: bool, blockStarted: bool, blockDuration: nat, totalBlocks: nat)

  const Pass := Result(true, false, 0, 0)

  function BlockDuration(totalBlocks: nat): (d: nat)
    ensures 3000 <= d <= ENTRY_LIFETIME
  {
    if totalBlocks >= 10 then 300000
    else if totalBlocks >= 5 then 60000
    else if totalBlocks >= 3 then 15000
    else 3000
  }

  /** The outcome of an attempt by an address with the given record, if there is one. */
  function Next(known: Option<Record>, now: nat, allowed: nat, minimum: nat): (Record, Result) {
    if known.None? then (Record(now, 0, 1, 0), Pass) else
      var r := known.value;
      if r.blockUntil > now then (r, Result(false, false, 0, r.totalBlocks))
      else if now - r.lastAttempt > ATTEMPT_WINDOW then
        var forgiven := now - r.lastAttempt > CLEANUP_INTERVAL && r.totalBlocks > 0;
        (Record(now, 0, 1, if forgiven then r.totalBlocks - 1 else r.totalBlocks), Pass)
      else if Wrap(r.count + 1) <= allowed then (Record(now, 0, Wrap(r.count + 1), r.totalBlocks), Pass)
      else if now - r.lastAttempt > minimum then (Record(now, 0, 0, r.totalBlocks), Pass)
      else
        var total := Wrap(r.totalBlocks + 1);
        var d := BlockDuration(total);
        (Record(now, now + d, 0, total), Result(false, true, d, total))
  }

  function ExpiresAt(r: Record): nat {
    Max(r.blockUntil, r.lastAttempt + ENTRY_LIFETIME + 1)
  }

  predicate Due(r: Record, now: nat) {
    ExpiresAt(r) <= now
  }

  // ---------------------------------------------------------------- the expiry index

  predicate Ordered(s: seq<Node>) {
    && (forall i, j | 0 <= i < j < |s| :: s[i].key <= s[j].key)
    && (forall i, j | 0 <= i < j < |s| :: s[i].handle != s[j].handle)
  }

  /** erase at an iterator */
  function Erased(s: seq<Node>, h: Handle): seq<Node> {
    if s == [] then []
    else if s[0].handle == h then s[1..]
    else [s[0]] + Erased(s[1..], h)
  }

  /** emplace: behind the nodes with the same key */
  function Placed(s: seq<Node>, n: Node): seq<Node> {
    if s == [] || n.key < s[0].key then [n] + s else [s[0]] + Placed(s[1..], n)
  }

  lemma {:induction false} ErasedNodes(s: seq<Node>, h: Handle)
    requires Ordered(s)
    ensures Ordered(Erased(s, h))
    ensures forall n :: n in Erased(s, h) <==> n in s && n.handle != h
  {
    if s == [] {
    } else {
      ErasedNodes(s[1..], h);
      forall n
        ensures n in Erased(s, h) <==> n in s && n.handle != h
      {
        assert s == [s[0]] + s[1..];
        if s[0].handle == h && n in s[1..] {
          assert n.handle != h;
        }
      }
      if s[0].handle != h {
        OrderedCons(s[0], Erased(s[1..], h));
      }
    }
  }

  lemma OrderedCons(n: Node, s: seq<Node>)
    requires Ordered(s) && forall m | m in s :: n.key <= m.key && n.handle != m.handle
    ensures Ordered([n] + s)
  {
    var t := [n] + s;
    forall i, j | 0 <= i < j < |t|
      ensures t[i].key <= t[j].key && t[i].handle != t[j].handle
    {
      assert t[j] == s[j - 1] && s[j - 1] in s;
      assert i > 0 ==> t[i] == s[i - 1];
    }
  }

  lemma {:induction false} PlacedNodes(s: seq<Node>, n: Node)
    requires Ordered(s) && forall m | m in s :: m.handle != n.handle
    ensures Ordered(Placed(s, n))
    ensures forall m :: m in Placed(s, n) <==> m in s || m == n
  {
    if s == [] {
    } else if n.key < s[0].key {
      OrderedCons(n, s);
    } else {
      assert forall m | m in s[1..] :: m in s;
      PlacedNodes(s[1..], n);
      forall m
        ensures m in Placed(s, n) <==> m in s || m == n
      {
        assert s == [s[0]] + s[1..];
      }
      OrderedCons(s[0], Placed(s[1..], n));
    }
  }

  // ---------------------------------------------------------------- the limiter

  predicate NodeOk(n: Node, entries: map<Ip, Entry>) {
    n.ip in entries && entries[n.ip].expiry == Some(n.handle) && n.key == ExpiresAt(entries[n.ip].record)
  }

  ghost predicate HasNode(ip: Ip, index: seq<Node>) {
    exists n :: n in index && n.ip == ip
  }

  /** Entries and index nodes match one to one. */
  ghost predicate Matched(entries: map<Ip, Entry>, index: seq<Node>) {
    && Ordered(index)
    && (forall n | n in index :: NodeOk(n, entries))
    && (forall ip | ip in entries :: HasNode(ip, index))
  }

  function Records(entries: map<Ip, Entry>): map<Ip, Record> {
    map ip | ip in entries :: entries[ip].record
  }

  /** No block outlasts the lifetime of an entry. */
  predicate Sane(r: Record) {
    r.blockUntil <= r.lastAttempt + ENTRY_LIFETIME
  }

  ghost predicate Sound(entries: map<Ip, Entry>, index: seq<Node>, nextHandle: Handle) {
    && Matched(entries, index)
    && (forall n | n in index :: n.handle < nextHandle)
    && (forall ip | ip in entries :: Sane(entries[ip].record))
  }

  /** Nothing that was recorded lies after now. */
  ghost predicate Past(entries: map<Ip, Entry>, now: nat) {
    forall ip | ip in entries :: entries[ip].record.lastAttempt <= now
  }

  /** The index once the node of an entry, if it has one, is erased. */
  function Unlinked(entries: map<Ip, Entry>, index: seq<Node>, ip: Ip): seq<Node> {
    if ip in entries && entries[ip].expiry.Some? then Erased(index, entries[ip].expiry.value) else index
  }

  class ConnectionRateLimiter {
    var entries: map<Ip, Entry>
    var expiryIndex: seq<Node>
    var lastCleanup: nat
    var nextHandle: Handle

    ghost predicate Valid()
      reads this
    {
      Sound(entries, expiryIndex, nextHandle)
    }

    ghost predicate NotBefore(now: nat)
      reads this
    {
      lastCleanup <= now && Past(entries, now)
    }

    constructor ()
      ensures Valid() && entries == map[] && NotBefore(0)
    {
      entries, expiryIndex, lastCleanup, nextHandle := map[], [], 0, 0;
    }

    /** The entry of ip has been given a new record; its node moves to the new expiry time. */
    method RefreshExpiry(ip: Ip, record: Record)
      requires Valid() && Sane(record)
      modifies this
      ensures Valid() && lastCleanup == old(lastCleanup)
      ensures entries.Keys == old(entries.Keys) + {ip}
      ensures Records(entries) == Records(old(entries))[ip := record]
    {
      hide *;
      IsValid();
      RefreshKeepsSound(entries, expiryIndex, ip, record, nextHandle);
      ExpiryOf(record);
      if ip in entries && entries[ip].expiry.Some? {
        expiryIndex := Erased(expiryIndex, entries[ip].expiry.value);
      }
      var expiresAt := Max(record.blockUntil, record.lastAttempt + ENTRY_LIFETIME + 1);
      expiryIndex := Placed(expiryIndex, Node(expiresAt, ip, nextHandle));
      entries := entries[ip := Entry(record, Some(nextHandle))];
      nextHandle := nextHandle + 1;
      IsValid();
    }

    lemma IsValid()
      ensures Valid() == Sound(entries, expiryIndex, nextHandle)
    {
    }

    /** At most once a minute a batch of due entries is dropped. */
    method Cleanup(now: nat) returns (ghost dropped: set<Ip>)
      requires Valid() && NotBefore(now)
      modifies this
      ensures Valid() && NotBefore(now)
      ensures dropped <= old(entries.Keys) && entries == old(entries) - dropped
      ensures forall ip | ip in dropped :: Due(old(entries)[ip].record, now)
      ensures if old(lastCleanup != 0 && now - lastCleanup < CLEANUP_INTERVAL) then
                dropped == {} && lastCleanup == old(lastCleanup)
              else
                && lastCleanup == now
                && (|dropped| == CLEANUP_BATCH_SIZE || forall n | n in expiryIndex :: n.key > now)
    {
      dropped := {};
      if lastCleanup != 0 && now - lastCleanup < CLEANUP_INTERVAL {
        return;
      }
      lastCleanup := now;
      dropped := DropBatch(now);
    }

    method DropBatch(now: nat) returns (ghost dropped: set<Ip>)
      requires Valid()
      modifies `entries, `expiryIndex
      ensures Valid()
      ensures dropped <= old(entries.Keys) && entries == old(entries) - dropped
      ensures forall ip | ip in dropped :: Due(old(entries)[ip].record, now)
      ensures |dropped| == CLEANUP_BATCH_SIZE || forall n | n in expiryIndex :: n.key > now
    {
      hide *;
      dropped := {};
      var processed := 0;
      while processed < CLEANUP_BATCH_SIZE && expiryIndex != []
        invariant processed <= CLEANUP_BATCH_SIZE && processed == |dropped|
        invariant Valid()
        invariant dropped <= old(entries.Keys) && entries == old(entries) - dropped
        invariant forall ip | ip in dropped :: Due(old(entries)[ip].record, now)
      {
        var first := expiryIndex[0];
        IsValid();
        if first.key > now {
          FirstIsEarliest(entries, expiryIndex, nextHandle);
          return;
        }
        DroppingKeepsSound(entries, expiryIndex, nextHandle, now);
        if first.ip in entries && entries[first.ip].expiry == Some(first.handle) {
          entries := entries - {first.ip};
        }
        dropped := dropped + {first.ip};
        expiryIndex := expiryIndex[1..];
        processed := processed + 1;
        IsValid();
      }
    }

    method Check(ip: Ip, now: nat, allowed: nat, minimum: nat) returns (result: Result, ghost dropped: set<Ip>)
      requires Valid() && NotBefore(now)
      modifies this
      ensures Valid() && NotBefore(now)
      ensures dropped <= old(entries.Keys) && forall d | d in dropped :: Due(old(entries)[d].record, now)
      ensures (Records(entries), result) == Step(Records(old(entries)), Call(ip, now, allowed, minimum, dropped))
      ensures if old(lastCleanup != 0 && now - lastCleanup < CLEANUP_INTERVAL) then
                dropped == {} && lastCleanup == old(lastCleanup)
              else
                && lastCleanup == now
                && (|dropped| == CLEANUP_BATCH_SIZE ||
                    forall other | other in entries && other != ip :: !Due(entries[other].record, now))
    {
      dropped := Cleanup(now);
      ghost var kept := entries;
      if forall n | n in expiryIndex :: n.key > now {
        NothingDue(entries, expiryIndex, now);
      }
      RecordsAfterDropping(old(entries), dropped);
      result := Attempt(ip, now, allowed, minimum);
      OthersKept(kept, entries, ip, Next(Lookup(Records(kept), ip), now, allowed, minimum).0);
    }

    /** check once the cleanup is done. */
    method Attempt(ip: Ip, now: nat, allowed: nat, minimum: nat) returns (result: Result)
      requires Valid() && NotBefore(now)
      modifies this
      ensures Valid() && NotBefore(now) && lastCleanup == old(lastCleanup)
      ensures var next := Next(Lookup(Records(old(entries)), ip), now, allowed, minimum);
              result == next.1 && Records(entries) == Records(old(entries))[ip := next.0]
    {
      hide *;
      IsValid();
      IsNotBefore(now);
      LookupEntry(entries, ip, now, allowed, minimum);
      if ip !in entries {
        NewRecord(now, allowed, minimum);
        RefreshExpiry(ip, Record(now, 0, 1, 0));
        PastFromRecords(old(entries), entries, ip, now);
        IsNotBefore(now);
        return Pass;
      }
      var record := entries[ip].record;
      if record.blockUntil > now {
        StillBlocked(entries, ip, now, allowed, minimum);
        return Result(false, false, 0, record.totalBlocks);
      }
      record, result := Judge(record, now, allowed, minimum);
      RefreshExpiry(ip, record);
      PastFromRecords(old(entries), entries, ip, now);
      IsNotBefore(now);
    }

    lemma IsNotBefore(now: nat)
      ensures NotBefore(now) == (lastCleanup <= now && Past(entries, now))
    {
    }
  }

  /** What an attempt does to the record of an address that is not blocked. */
  method Judge(before: Record, now: nat, allowed: nat, minimum: nat) returns (record: Record, result: Result)
    requires before.lastAttempt <= now && before.blockUntil <= now
    ensures (record, result) == Next(Some(before), now, allowed, minimum)
    ensures record.lastAttempt == now && Sane(record)
  {
    var timeDifference := now - before.lastAttempt;
    record := before.(lastAttempt := now, blockUntil := 0);
    result := Pass;
    if timeDifference <= ATTEMPT_WINDOW {
      record := record.(count := Wrap(record.count + 1));
      if record.count > allowed {
        record := record.(count := 0);
        if timeDifference <= minimum {
          record := record.(totalBlocks := Wrap(record.totalBlocks + 1));
          var blockDuration := BlockDuration(record.totalBlocks);
          record := record.(blockUntil := now + blockDuration);
          result := Result(false, true, blockDuration, record.totalBlocks);
        }
      }
    } else {
      record := record.(count := 1);
      if timeDifference > CLEANUP_INTERVAL && record.totalBlocks > 0 {
        record := record.(totalBlocks := record.totalBlocks - 1);
      }
    }
  }

  lemma NothingDue(entries: map<Ip, Entry>, index: seq<Node>, now: nat)
    requires Matched(entries, index) && forall n | n in index :: n.key > now
    ensures forall ip | ip in entries :: !Due(entries[ip].record, now)
  {
    forall ip | ip in entries
      ensures !Due(entries[ip].record, now)
    {
      assert HasNode(ip, index);
      var n :| n in index && n.ip == ip;
      assert NodeOk(n, entries);
    }
  }

  lemma OthersKept(before: map<Ip, Entry>, after: map<Ip, Entry>, ip: Ip, record: Record)
    requires Records(after) == Records(before)[ip := record]
    ensures forall other | other in after && other != ip ::
              other in before && after[other].record == before[other].record
  {
    forall other | other in after && other != ip
      ensures other in before && after[other].record == before[other].record
    {
      assert after[other].record == Records(after)[other];
      assert other in Records(before) && before[other].record == Records(before)[other];
    }
  }

  lemma LookupEntry(entries: map<Ip, Entry>, ip: Ip, now: nat, allowed: nat, minimum: nat)
    ensures Lookup(Records(entries), ip) == if ip in entries then Some(entries[ip].record) else None
    ensures ip in entries && Past(entries, now) ==> entries[ip].record.lastAttempt <= now
  {
  }

  lemma NewRecord(now: nat, allowed: nat, minimum: nat)
    ensures Next(None, now, allowed, minimum) == (Record(now, 0, 1, 0), Pass) && Sane(Record(now, 0, 1, 0))
  {
  }

  lemma StillBlocked(entries: map<Ip, Entry>, ip: Ip, now: nat, allowed: nat, minimum: nat)
    requires ip in entries && entries[ip].record.blockUntil > now
    ensures var r := entries[ip].record;
            && Next(Some(r), now, allowed, minimum) == (r, Result(false, false, 0, r.totalBlocks))
            && Records(entries) == Records(entries)[ip := r]
  {
  }

  lemma ExpiryOf(r: Record)
    ensures ExpiresAt(r) == Max(r.blockUntil, r.lastAttempt + ENTRY_LIFETIME + 1)
  {
  }

  lemma RecordsAfterDropping(entries: map<Ip, Entry>, dropped: set<Ip>)
    ensures Records(entries - dropped) == Records(entries) - dropped
  {
  }

  lemma PastFromRecords(before: map<Ip, Entry>, after: map<Ip, Entry>, ip: Ip, now: nat)
    requires Past(before, now) && after.Keys == before.Keys + {ip}
    requires exists r: Record :: r.lastAttempt <= now && Records(after) == Records(before)[ip := r]
    ensures Past(after, now)
  {
    var r: Record :| r.lastAttempt <= now && Records(after) == Records(before)[ip := r];
    forall other | other in after
      ensures after[other].record.lastAttempt <= now
    {
      assert after[other].record == Records(after)[other];
      assert other != ip ==> before[other].record == Records(before)[other];
    }
  }

  lemma RefreshKeepsSound(entries: map<Ip, Entry>, index: seq<Node>, ip: Ip, record: Record, handle: Handle)
    requires Sound(entries, index, handle) && Sane(record)
    ensures var entries' := entries[ip := Entry(record, Some(handle))];
            && Sound(entries', Placed(Unlinked(entries, index, ip), Node(ExpiresAt(record), ip, handle)), handle + 1)
            && Records(entries') == Records(entries)[ip := record]
    ensures Unlinked(entries, index, ip) ==
            if ip in entries && entries[ip].expiry.Some? then Erased(index, entries[ip].expiry.value) else index
  {
    var left, node := Unlinked(entries, index, ip), Node(ExpiresAt(record), ip, handle);
    hide *;
    SoundParts(entries, index, handle);
    UnlinkedNodes(entries, index, ip);
    PlacedNodes(left, node);
    MatchedAfterPlacing(entries, left, ip, record, node);
    UpdatedRecords(entries, ip, Entry(record, Some(handle)));
    SoundParts(entries[ip := Entry(record, Some(handle))], Placed(left, node), handle + 1);
  }

  lemma SoundParts(entries: map<Ip, Entry>, index: seq<Node>, handle: Handle)
    ensures Sound(entries, index, handle) <==>
              && Matched(entries, index)
              && (forall n | n in index :: n.handle < handle)
              && (forall ip | ip in entries :: Sane(entries[ip].record))
  {
  }

  lemma UpdatedRecords(entries: map<Ip, Entry>, ip: Ip, entry: Entry)
    ensures Records(entries[ip := entry]) == Records(entries)[ip := entry.record]
  {
  }

  lemma UnlinkedNodes(entries: map<Ip, Entry>, index: seq<Node>, ip: Ip)
    requires Matched(entries, index)
    ensures var left := Unlinked(entries, index, ip);
            && Ordered(left)
            && (forall n :: n in left <==> n in index && n.ip != ip)
            && (forall n | n in left :: NodeOk(n, entries))
            && (forall other | other in entries && other != ip :: HasNode(other, left))
            && left == if ip in entries && entries[ip].expiry.Some?
                       then Erased(index, entries[ip].expiry.value) else index
  {
    var left := Unlinked(entries, index, ip);
    if ip in entries && entries[ip].expiry.Some? {
      ErasedNodes(index, entries[ip].expiry.value);
    }
    NoOtherNode(entries, index, left, ip);
    forall other | other in entries && other != ip
      ensures HasNode(other, left)
    {
      assert HasNode(other, index);
      var n :| n in index && n.ip == other;
      assert n in left;
    }
  }

  lemma FirstIsEarliest(entries: map<Ip, Entry>, index: seq<Node>, nextHandle: Handle)
    requires Sound(entries, index, nextHandle) && index != []
    ensures forall n | n in index :: index[0].key <= n.key
  {
  }

  lemma DroppingKeepsSound(entries: map<Ip, Entry>, index: seq<Node>, nextHandle: Handle, now: nat)
    requires Sound(entries, index, nextHandle) && index != [] && index[0].key <= now
    ensures var first := index[0];
            && first.ip in entries && entries[first.ip].expiry == Some(first.handle)
            && Due(entries[first.ip].record, now)
            && Sound(entries - {first.ip}, index[1..], nextHandle)
  {
    assert index[0] in index && NodeOk(index[0], entries);
    MatchedAfterDropping(entries, index);
    assert forall n | n in index[1..] :: n in index;
  }

  /** Once its node is erased no node of an address is left, and the other nodes are unchanged. */
  lemma NoOtherNode(entries: map<Ip, Entry>, index: seq<Node>, left: seq<Node>, ip: Ip)
    requires Matched(entries, index)
    requires if ip in entries && entries[ip].expiry.Some?
             then forall n :: n in left <==> n in index && n.handle != entries[ip].expiry.value
             else left == index
    ensures forall n :: n in left <==> n in index && n.ip != ip
  {
    if ip in entries {
      assert HasNode(ip, index);
      var m :| m in index && m.ip == ip;
      assert NodeOk(m, entries);
      forall n | n in index && n != m
        ensures n.handle != m.handle
      {
        HandlesDiffer(index, n, m);
      }
    }
    assert forall n | n in index :: NodeOk(n, entries);
  }

  lemma HandlesDiffer(index: seq<Node>, n: Node, m: Node)
    requires Ordered(index) && n in index && m in index && n != m
    ensures n.handle != m.handle
  {
    var i :| 0 <= i < |index| && index[i] == n;
    var j :| 0 <= j < |index| && index[j] == m;
    assert i < j || j < i;
  }

  lemma MatchedAfterPlacing(entries: map<Ip, Entry>, index: seq<Node>, ip: Ip, record: Record, node: Node)
    requires Ordered(index) && Ordered(Placed(index, node))
    requires forall n | n in index :: n.ip != ip && NodeOk(n, entries)
    requires forall other | other in entries && other != ip :: HasNode(other, index)
    requires forall n :: n in Placed(index, node) <==> n in index || n == node
    requires node.ip == ip && node.key == ExpiresAt(record)
    ensures Matched(entries[ip := Entry(record, Some(node.handle))], Placed(index, node))
  {
    var entries', index' := entries[ip := Entry(record, Some(node.handle))], Placed(index, node);
    forall n | n in index'
      ensures NodeOk(n, entries')
    {
      if n != node {
        assert NodeOk(n, entries);
      }
    }
    forall other | other in entries'
      ensures HasNode(other, index')
    {
      if other == ip {
        assert node in index';
      } else {
        assert HasNode(other, index);
        var n :| n in index && n.ip == other;
        assert n in index';
      }
    }
  }

  lemma MatchedAfterDropping(entries: map<Ip, Entry>, index: seq<Node>)
    requires Matched(entries, index) && index != []
    ensures Matched(entries - {index[0].ip}, index[1..])
  {
    RestIsOrdered(index);
    NodesAfterDropping(entries, index);
    forall ip | ip in entries - {index[0].ip}
      ensures HasNode(ip, index[1..])
    {
      EntryAfterDropping(entries, index, ip);
    }
  }

  lemma RestIsOrdered(index: seq<Node>)
    requires Ordered(index) && index != []
    ensures Ordered(index[1..]) && index == [index[0]] + index[1..]
    ensures forall n | n in index[1..] :: n in index && n.handle != index[0].handle
  {
    forall n | n in index[1..]
      ensures n in index && n.handle != index[0].handle
    {
      var i :| 0 <= i < |index[1..]| && index[1..][i] == n;
      assert n == index[i + 1];
    }
  }

  lemma NodesAfterDropping(entries: map<Ip, Entry>, index: seq<Node>)
    requires Matched(entries, index) && index != []
    ensures forall n | n in index[1..] :: NodeOk(n, entries - {index[0].ip})
  {
    RestIsOrdered(index);
    assert index[0] in index && NodeOk(index[0], entries);
    forall n | n in index[1..]
      ensures NodeOk(n, entries - {index[0].ip})
    {
      assert NodeOk(n, entries);
    }
  }

  lemma EntryAfterDropping(entries: map<Ip, Entry>, index: seq<Node>, ip: Ip)
    requires Matched(entries, index) && index != [] && ip in entries && ip != index[0].ip
    ensures HasNode(ip, index[1..])
  {
    assert HasNode(ip, index);
    var n :| n in index && n.ip == ip;
    RestIsOrdered(index);
    assert n in index[1..];
  }

  /** The index has exactly one node for each entry, keyed 300001 ms after the last attempt. */
  lemma IndexMatchesEntries(entries: map<Ip, Entry>, index: seq<Node>)
    requires Matched(entries, index) && forall ip | ip in entries :: Sane(entries[ip].record)
    ensures |index| == |entries|
    ensures forall n | n in index :: n.ip in entries && n.key == entries[n.ip].record.lastAttempt + ENTRY_LIFETIME + 1
    ensures forall i, j | 0 <= i < j < |index| :: index[i].ip != index[j].ip
  {
    forall n | n in index
      ensures n.ip in entries && n.key == entries[n.ip].record.lastAttempt + ENTRY_LIFETIME + 1
    {
      assert NodeOk(n, entries);
    }
    forall i, j | 0 <= i < j < |index|
      ensures index[i].ip != index[j].ip
    {
      assert index[i] in index && index[j] in index;
      assert NodeOk(index[i], entries) && NodeOk(index[j], entries);
    }
    CountMatches(entries, index);
  }

  lemma {:induction false} CountMatches(entries: map<Ip, Entry>, index: seq<Node>)
    requires Matched(entries, index)
    ensures |index| == |entries|
    decreases |index|
  {
    if index == [] {
      assert forall ip :: ip in entries ==> HasNode(ip, index);
      assert entries == map[];
    } else {
      assert index[0] in index && NodeOk(index[0], entries);
      MatchedAfterDropping(entries, index);
      CountMatches(entries - {index[0].ip}, index[1..]);
      assert entries.Keys == (entries - {index[0].ip}).Keys + {index[0].ip};
      assert |entries.Keys| == |entries|;
    }
  }

  // ---------------------------------------------------------------- runs

  /** One call of check, with the entries its cleanup dropped. */
  datatype Call = Call(ip: Ip, now: nat, allowed: nat, minimum: nat, dropped: set<Ip>)

  type State = map<Ip, Record>

  function Lookup(s: State, ip: Ip): Option<Record> {
    if ip in s then Some(s[ip]) else None
  }

  function Step(s: State, c: Call): (State, Result) {
    var kept := s - c.dropped;
    var (record, result) := Next(Lookup(kept, c.ip), c.now, c.allowed, c.minimum);
    (kept[c.ip := record], result)
  }

  ghost predicate Legal(s: State, c: Call) {
    && (forall ip | ip in s :: s[ip].lastAttempt <= c.now)
    && (forall ip | ip in c.dropped :: ip in s && Due(s[ip], c.now))
  }

  /** A run from time since on. */
  ghost predicate LegalRun(s: State, calls: seq<Call>, since: nat)
    decreases |calls|
  {
    calls == [] ||
    (since <= calls[0].now && Legal(s, calls[0]) && LegalRun(Step(s, calls[0]).0, calls[1..], calls[0].now))
  }

  function Results(s: State, calls: seq<Call>): (results: seq<Result>)
    ensures |results| == |calls|
    decreases |calls|
  {
    if calls == [] then [] else [Step(s, calls[0]).1] + Results(Step(s, calls[0]).0, calls[1..])
  }

  /** Whether an expired entry was dropped before its address calls again makes no difference to that call. */
  lemma DroppingIsInvisible(r: Record, now: nat, allowed: nat, minimum: nat)
    requires Due(r, now)
    ensures Next(Some(r), now, allowed, minimum).1 == Next(None, now, allowed, minimum).1 == Pass
  {
  }

  /** A block is only ever started for a record that then stays in place until the block is over. */
  lemma BlockStarts(s: State, c: Call)
    requires Legal(s, c) && Step(s, c).1.blockStarted
    ensures var (t, result) := Step(s, c);
            && c.ip in t && !result.allowed && 3000 <= result.blockDuration <= ENTRY_LIFETIME
            && t[c.ip].lastAttempt == c.now && t[c.ip].blockUntil == c.now + result.blockDuration
  {
  }

  /** While a block lasts every call of its address is refused, whatever the other addresses do. */
  lemma {:induction false} BlockHolds(s: State, calls: seq<Call>, since: nat, ip: Ip)
    requires LegalRun(s, calls, since)
    requires ip in s && s[ip].blockUntil <= s[ip].lastAttempt + ENTRY_LIFETIME
    ensures forall i | 0 <= i < |calls| && calls[i].ip == ip && calls[i].now < s[ip].blockUntil ::
              !Results(s, calls)[i].allowed && !Results(s, calls)[i].blockStarted
    decreases |calls|
  {
    if calls == [] {
    } else if calls[0].now < s[ip].blockUntil {
      var t := Step(s, calls[0]).0;
      assert ip !in calls[0].dropped;
      assert t[ip] == s[ip];
      BlockHolds(t, calls[1..], calls[0].now, ip);
      forall i | 0 < i < |calls| && calls[i].ip == ip && calls[i].now < s[ip].blockUntil
        ensures !Results(s, calls)[i].allowed && !Results(s, calls)[i].blockStarted
      {
        assert calls[1..][i - 1] == calls[i];
      }
    } else {
      TimesDoNotFall(s, calls, since);
    }
  }

  lemma {:induction false} TimesDoNotFall(s: State, calls: seq<Call>, since: nat)
    requires LegalRun(s, calls, since)
    ensures forall i | 0 <= i < |calls| :: since <= calls[i].now
    ensures forall i | 0 <= i < |calls| :: calls[0].now <= calls[i].now
    decreases |calls|
  {
    if calls == [] {
    } else {
      TimesDoNotFall(Step(s, calls[0]).0, calls[1..], calls[0].now);
      forall i | 0 < i < |calls|
        ensures calls[0].now <= calls[i].now
      {
        assert calls[1..][i - 1] == calls[i];
      }
    }
  }

  /** A block of d ms started at time t: every call of the address before t + d is refused. */
  lemma BlockedUntilTheEnd(s: State, c: Call, calls: seq<Call>)
    requires Legal(s, c) && Step(s, c).1.blockStarted
    requires LegalRun(Step(s, c).0, calls, c.now)
    ensures forall i | 0 <= i < |calls| && calls[i].ip == c.ip && calls[i].now < c.now + Step(s, c).1.blockDuration ::
              !Results(Step(s, c).0, calls)[i].allowed
  {
    BlockStarts(s, c);
    BlockHolds(Step(s, c).0, calls, c.now, c.ip);
  }

  /** Every call of ip in the run is admitted and comes within gap ms of the attempt before it. */
  ghost predicate RapidlyAdmitted(s: State, calls: seq<Call>, ip: Ip, last: nat, gap: nat)
    decreases |calls|
  {
    calls == [] ||
    if calls[0].ip != ip then RapidlyAdmitted(Step(s, calls[0]).0, calls[1..], ip, last, gap)
    else
      && calls[0].now <= last + gap && Step(s, calls[0]).1.allowed
      && RapidlyAdmitted(Step(s, calls[0]).0, calls[1..], ip, calls[0].now, gap)
  }

  function Attempts(calls: seq<Call>, ip: Ip): nat {
    if calls == [] then 0 else (if calls[0].ip == ip then 1 else 0) + Attempts(calls[1..], ip)
  }

  predicate FixedParameters(calls: seq<Call>, allowed: nat, minimum: nat) {
    forall c | c in calls :: c.allowed == allowed && c.minimum == minimum
  }

  function RapidGap(minimum: nat): nat {
    if minimum < ATTEMPT_WINDOW then minimum else ATTEMPT_WINDOW
  }

  lemma {:induction false} TooLateForMore(s: State, calls: seq<Call>, ip: Ip, last: nat, gap: nat, since: nat)
    requires LegalRun(s, calls, since) && RapidlyAdmitted(s, calls, ip, last, gap) && since > last + gap
    ensures Attempts(calls, ip) == 0
    decreases |calls|
  {
    if calls == [] {
    } else {
      TooLateForMore(Step(s, calls[0]).0, calls[1..], ip, last, gap, calls[0].now);
    }
  }

  lemma {:induction false} RapidCallsAreCounted(s: State, calls: seq<Call>, ip: Ip, since: nat, allowed: nat,
                                                minimum: nat)
    requires LegalRun(s, calls, since) && FixedParameters(calls, allowed, minimum)
    requires allowed < WORD - 1 && ip in s && s[ip].blockUntil == 0
    requires s[ip].count <= allowed || s[ip].count == 1
    requires RapidlyAdmitted(s, calls, ip, s[ip].lastAttempt, RapidGap(minimum))
    ensures Attempts(calls, ip) > 0 ==> s[ip].count + Attempts(calls, ip) <= allowed
    decreases |calls|
  {
    if calls == [] {
    } else {
      var c := calls[0];
      var t := Step(s, c).0;
      assert c in calls;
      assert forall d | d in calls[1..] :: d in calls;
      if c.ip != ip && ip in c.dropped {
        TooLateForMore(t, calls[1..], ip, s[ip].lastAttempt, RapidGap(minimum), c.now);
      } else {
        assert ip !in c.dropped;
        assert t[ip] == if c.ip == ip then Record(c.now, 0, s[ip].count + 1, s[ip].totalBlocks) else s[ip];
        RapidCallsAreCounted(t, calls[1..], ip, c.now, allowed, minimum);
      }
    }
  }

  /** After an admitted attempt at most allowed further ones are admitted in a row, each hard on the one before. */
  lemma AdmittedInARow(s: State, c: Call, calls: seq<Call>)
    requires Legal(s, c) && Step(s, c).1.allowed && c.allowed < WORD - 1
    requires LegalRun(Step(s, c).0, calls, c.now) && FixedParameters(calls, c.allowed, c.minimum)
    requires RapidlyAdmitted(Step(s, c).0, calls, c.ip, c.now, RapidGap(c.minimum))
    ensures Attempts(calls, c.ip) <= c.allowed
  {
    RapidCallsAreCounted(Step(s, c).0, calls, c.ip, c.now, c.allowed, c.minimum);
  }

  /** A limit of 2^32-1 is no limit: the 32-bit attempt count can never exceed it. */
  lemma BlocksNeedALimit(r: Option<Record>, now: nat, allowed: nat, minimum: nat)
    requires Next(r, now, allowed, minimum).1.blockStarted
    ensures allowed < WORD - 1 && now - r.value.lastAttempt <= RapidGap(minimum)
  {
  }

  /** n calls alike. */
  function Burst(c: Call, n: nat): (calls: seq<Call>)
    ensures |calls| == n && forall d | d in calls :: d == c
  {
    if n == 0 then [] else [c] + Burst(c, n - 1)
  }

  /** Without a limit that the 32-bit count can exceed, any number of calls is admitted at one time. */
  lemma {:induction false} BurstPasses(s: State, c: Call, n: nat)
    requires c.allowed >= WORD - 1 && c.dropped == {}
    requires (forall ip | ip in s :: s[ip].lastAttempt <= c.now)
    requires c.ip in s && s[c.ip].lastAttempt == c.now && s[c.ip].blockUntil == 0
    ensures LegalRun(s, Burst(c, n), c.now)
    ensures RapidlyAdmitted(s, Burst(c, n), c.ip, c.now, RapidGap(c.minimum))
    ensures Attempts(Burst(c, n), c.ip) == n
    decreases n
  {
    if n == 0 {
    } else {
      var calls := Burst(c, n);
      assert calls[0] == c && calls[1..] == Burst(c, n - 1);
      BurstPasses(Step(s, c).0, c, n - 1);
    }
  }

  /** An admitted attempt, and a run after it in which the address is only admitted, each time hard on the last. */
  ghost predicate RapidRun(s: State, c: Call, calls: seq<Call>) {
    && Legal(s, c) && Step(s, c).1.allowed
    && LegalRun(Step(s, c).0, calls, c.now) && FixedParameters(calls, c.allowed, c.minimum)
    && RapidlyAdmitted(Step(s, c).0, calls, c.ip, c.now, RapidGap(c.minimum))
  }

  /** The limit bounds the further attempts of every rapid run exactly when it is below 2^32-1. */
  lemma RapidRunsAreBounded(allowed: nat, minimum: nat)
    ensures (forall s, c: Call, calls | c.allowed == allowed && c.minimum == minimum && RapidRun(s, c, calls) ::
               Attempts(calls, c.ip) <= allowed)
            <==> allowed < WORD - 1
  {
    if allowed < WORD - 1 {
      forall s, c: Call, calls | c.allowed == allowed && c.minimum == minimum && RapidRun(s, c, calls)
        ensures Attempts(calls, c.ip) <= allowed
      {
        AdmittedInARow(s, c, calls);
      }
    } else {
      var s: State, c := map[], Call(0, 0, allowed, minimum, {});
      BurstPasses(Step(s, c).0, c, allowed + 1);
      assert RapidRun(s, c, Burst(c, allowed + 1));
    }
  }

  /** Every attempt of ip comes more than a minute after the one that is remembered, and after any block. */
  ghost predicate QuietRun(s: State, calls: seq<Call>, ip: Ip)
    decreases |calls|
  {
    calls == [] ||
    (&& (calls[0].ip == ip && ip in s ==>
           calls[0].now > s[ip].lastAttempt + CLEANUP_INTERVAL && calls[0].now >= s[ip].blockUntil)
     && QuietRun(Step(s, calls[0]).0, calls[1..], ip))
  }

  function AfterCalls(s: State, calls: seq<Call>): State
    decreases |calls|
  {
    if calls == [] then s else AfterCalls(Step(s, calls[0]).0, calls[1..])
  }

  predicate Forgotten(calls: seq<Call>, ip: Ip) {
    exists c :: c in calls && ip in c.dropped
  }

  function Blocks(s: State, ip: Ip): nat {
    if ip in s then s[ip].totalBlocks else 0
  }

  /**
   * In every run each quiet attempt of an address makes up for one of its earlier blocks, until none is left; a cleanup
   * that drops its entry makes up for all of them.
   */
  lemma {:induction false} QuietAttemptsForgive(s: State, calls: seq<Call>, ip: Ip)
    requires QuietRun(s, calls, ip)
    ensures Blocks(AfterCalls(s, calls), ip) ==
            if Forgotten(calls, ip) || Blocks(s, ip) <= Attempts(calls, ip) then 0
            else Blocks(s, ip) - Attempts(calls, ip)
    decreases |calls|
  {
    if calls == [] {
    } else {
      assert calls == [calls[0]] + calls[1..];
      QuietStep(s, calls[0], ip);
      QuietAttemptsForgive(Step(s, calls[0]).0, calls[1..], ip);
    }
  }

  lemma QuietStep(s: State, c: Call, ip: Ip)
    requires c.ip == ip && ip in s ==> c.now > s[ip].lastAttempt + CLEANUP_INTERVAL && c.now >= s[ip].blockUntil
    ensures var forgiven := if c.ip == ip then 1 else 0;
            Blocks(Step(s, c).0, ip) ==
            if ip in c.dropped || Blocks(s, ip) <= forgiven then 0 else Blocks(s, ip) - forgiven
  {
  }

  // ---------------------------------------------------------------- how many attempts pass

  /** Each call of ip comes within gap ms of the attempt of ip before it. */
  predicate Rapid(calls: seq<Call>, ip: Ip, last: nat, gap: nat)
    decreases |calls|
  {
    calls == [] ||
    if calls[0].ip != ip then Rapid(calls[1..], ip, last, gap)
    else calls[0].now <= last + gap && Rapid(calls[1..], ip, calls[0].now, gap)
  }

  lemma {:induction false} NoneAfterThat(s: State, calls: seq<Call>, ip: Ip, last: nat, gap: nat, since: nat)
    requires LegalRun(s, calls, since) && Rapid(calls, ip, last, gap) && since > last + gap
    ensures forall i | 0 <= i < |calls| :: calls[i].ip != ip
    decreases |calls|
  {
    if calls == [] {
    } else {
      NoneAfterThat(Step(s, calls[0]).0, calls[1..], ip, last, gap, calls[0].now);
      assert calls == [calls[0]] + calls[1..];
    }
  }

  /** Of the rapid attempts that follow, the first n pass and the next one starts a block. */
  ghost predicate PassesExactly(s: State, calls: seq<Call>, ip: Ip, n: nat) {
    forall i | 0 <= i < |calls| && calls[i].ip == ip ::
      && (Attempts(calls[..i], ip) < n ==> Results(s, calls)[i].allowed)
      && (Attempts(calls[..i], ip) == n ==> Results(s, calls)[i].blockStarted && !Results(s, calls)[i].allowed)
  }

  lemma PassesCons(s: State, calls: seq<Call>, ip: Ip, n: nat, m: nat)
    requires calls != [] && PassesExactly(Step(s, calls[0]).0, calls[1..], ip, m)
    requires calls[0].ip != ip ==> m == n
    requires calls[0].ip == ip ==> n == m + 1 && Step(s, calls[0]).1.allowed
    ensures PassesExactly(s, calls, ip, n)
  {
    forall i | 0 <= i < |calls| && calls[i].ip == ip
      ensures Attempts(calls[..i], ip) < n ==> Results(s, calls)[i].allowed
      ensures Attempts(calls[..i], ip) == n ==> Results(s, calls)[i].blockStarted && !Results(s, calls)[i].allowed
    {
      if i > 0 {
        assert calls[1..][i - 1] == calls[i] && calls[..i][1..] == calls[1..][..i - 1];
        assert Attempts(calls[..i], ip) == Attempts(calls[1..][..i - 1], ip) + if calls[0].ip == ip then 1 else 0;
        assert Results(s, calls)[i] == Results(Step(s, calls[0]).0, calls[1..])[i - 1];
      }
    }
  }

  lemma {:induction false} CountedAttemptsPass(s: State, calls: seq<Call>, ip: Ip, since: nat, allowed: nat,
                                               minimum: nat)
    requires ip in s && s[ip].lastAttempt <= since && s[ip].blockUntil <= since && s[ip].count <= allowed < WORD - 1
    requires LegalRun(s, calls, since) && FixedParameters(calls, allowed, minimum)
    requires Rapid(calls, ip, s[ip].lastAttempt, RapidGap(minimum))
    ensures PassesExactly(s, calls, ip, allowed - s[ip].count)
    decreases |calls|
  {
    if calls == [] {
    } else {
      var c, t := calls[0], Step(s, calls[0]).0;
      assert c in calls && forall d | d in calls[1..] :: d in calls;
      if ip in c.dropped {
        NoneAfterThat(s, calls, ip, s[ip].lastAttempt, RapidGap(minimum), c.now);
      } else if c.ip == ip && s[ip].count == allowed {
        BlockAtTheLimit(s, calls, ip);
      } else {
        CountedAttemptsPass(t, calls[1..], ip, c.now, allowed, minimum);
        PassesCons(s, calls, ip, allowed - s[ip].count, allowed - t[ip].count);
      }
    }
  }

  lemma BlockAtTheLimit(s: State, calls: seq<Call>, ip: Ip)
    requires calls != [] && calls[0].ip == ip && ip in s && ip !in calls[0].dropped
    requires s[ip].lastAttempt <= calls[0].now && s[ip].blockUntil <= calls[0].now
    requires s[ip].count == calls[0].allowed < WORD - 1
    requires calls[0].now <= s[ip].lastAttempt + RapidGap(calls[0].minimum)
    ensures PassesExactly(s, calls, ip, 0)
  {
    forall i | 0 < i < |calls|
      ensures Attempts(calls[..i], ip) > 0
    {
      assert calls[..i][0] == calls[0];
    }
  }

  /** An attempt that starts the counting anew: of an unknown address, or after a pause and outside of a block. */
  predicate Fresh(s: State, c: Call) {
    c.ip in s && c.ip !in c.dropped ==> s[c.ip].blockUntil <= c.now && c.now - s[c.ip].lastAttempt > ATTEMPT_WINDOW
  }

  /**
   * The limit is exact: from a fresh attempt on the first allowed attempts of a rapid series pass, the fresh one always
   * among them, and the next one starts a block.
   */
  lemma LimitIsExact(s: State, c: Call, calls: seq<Call>)
    requires Legal(s, c) && Fresh(s, c) && c.allowed < WORD - 1
    requires LegalRun(Step(s, c).0, calls, c.now) && FixedParameters(calls, c.allowed, c.minimum)
    requires Rapid(calls, c.ip, c.now, RapidGap(c.minimum))
    ensures Step(s, c).1.allowed
    ensures PassesExactly(Step(s, c).0, calls, c.ip, if c.allowed == 0 then 0 else c.allowed - 1)
  {
    if c.allowed > 0 {
      CountedAttemptsPass(Step(s, c).0, calls, c.ip, c.now, c.allowed, c.minimum);
    } else {
      NothingPasses(Step(s, c).0, calls, c.ip, c.now, c.minimum);
    }
  }

  /**
   * Once the limit has been reached, and the block it may have started is over, the next allowed attempts of a rapid
   * series pass, and the one after them starts a block.
   */
  lemma LimitIsExactAgain(s: State, c: Call, calls: seq<Call>, since: nat)
    requires Legal(s, c) && c.ip in s && c.ip !in c.dropped && s[c.ip].blockUntil <= c.now
    requires s[c.ip].count == c.allowed < WORD - 1 && c.now - s[c.ip].lastAttempt <= ATTEMPT_WINDOW
    requires c.now <= since && c.now + Step(s, c).1.blockDuration <= since
    requires LegalRun(Step(s, c).0, calls, since) && FixedParameters(calls, c.allowed, c.minimum)
    requires Rapid(calls, c.ip, c.now, RapidGap(c.minimum))
    ensures Step(s, c).1.blockStarted <==> c.now - s[c.ip].lastAttempt <= c.minimum
    ensures PassesExactly(Step(s, c).0, calls, c.ip, c.allowed)
  {
    CountedAttemptsPass(Step(s, c).0, calls, c.ip, since, c.allowed, c.minimum);
  }

  lemma {:induction false} NothingPasses(s: State, calls: seq<Call>, ip: Ip, since: nat, minimum: nat)
    requires ip in s && s[ip].lastAttempt <= since && s[ip].blockUntil <= since && s[ip].count == 1
    requires LegalRun(s, calls, since) && FixedParameters(calls, 0, minimum)
    requires Rapid(calls, ip, s[ip].lastAttempt, RapidGap(minimum))
    ensures PassesExactly(s, calls, ip, 0)
    decreases |calls|
  {
    if calls == [] {
    } else {
      var c, t := calls[0], Step(s, calls[0]).0;
      assert c in calls && forall d | d in calls[1..] :: d in calls;
      if ip in c.dropped {
        NoneAfterThat(s, calls, ip, s[ip].lastAttempt, RapidGap(minimum), c.now);
      } else if c.ip == ip {
        forall i | 0 < i < |calls|
          ensures Attempts(calls[..i], ip) > 0
        {
          assert calls[..i][0] == calls[0];
        }
      } else {
        NothingPasses(t, calls[1..], ip, c.now, minimum);
        PassesCons(s, calls, ip, 0, 0);
      }
    }
  }

  /** Outside of a block an attempt that is not hard on the one before always passes. */
  lemma PausesPass(s: State, c: Call)
    requires Legal(s, c) && c.ip in s && s[c.ip].blockUntil <= c.now
    requires c.now - s[c.ip].lastAttempt > RapidGap(c.minimum)
    ensures Step(s, c).1.allowed
  {
  }

  // ---------------------------------------------------------------- blocks are counted

  /** The call is an attempt of ip that starts a block. */
  predicate Starts(s: State, c: Call, ip: Ip) {
    c.ip == ip && Step(s, c).1.blockStarted
  }

  /** The call is a quiet attempt of ip, outside of a block, and there is a block to forgive. */
  predicate Forgives(s: State, c: Call, ip: Ip) {
    && c.ip == ip && ip in s && ip !in c.dropped && s[ip].totalBlocks > 0
    && s[ip].blockUntil <= c.now && c.now > s[ip].lastAttempt + CLEANUP_INTERVAL
  }

  /** The blocks of ip started since its entry was dropped for the last time. */
  function StartedSince(s: State, calls: seq<Call>, ip: Ip): nat
    decreases |calls|
  {
    if calls == [] then 0
    else
      StartedSince(Step(s, calls[0]).0, calls[1..], ip) +
      if !Forgotten(calls[1..], ip) && Starts(s, calls[0], ip) then 1 else 0
  }

  function ForgivenSince(s: State, calls: seq<Call>, ip: Ip): nat
    decreases |calls|
  {
    if calls == [] then 0
    else
      ForgivenSince(Step(s, calls[0]).0, calls[1..], ip) +
      if !Forgotten(calls[1..], ip) && Forgives(s, calls[0], ip) then 1 else 0
  }

  /**
   * In every run the blocks recorded of an address are those there were, if its entry has not been dropped, and those
   * started since, less those forgiven, in 32 bits.
   */
  lemma {:induction false} BlocksAreCounted(s: State, calls: seq<Call>, ip: Ip)
    requires Blocks(s, ip) < WORD
    ensures Blocks(AfterCalls(s, calls), ip) ==
            Wrap((if Forgotten(calls, ip) then 0 else Blocks(s, ip))
                 + StartedSince(s, calls, ip) - ForgivenSince(s, calls, ip))
    decreases |calls|
  {
    hide *;
    SinceUnfolds(s, calls, ip);
    if calls != [] {
      var t := Step(s, calls[0]).0;
      BlocksStep(s, calls[0], ip);
      BlocksAreCounted(t, calls[1..], ip);
      WrapCongruent(Blocks(t, ip), BlocksAfter(s, calls[0], ip),
                    StartedSince(t, calls[1..], ip) - ForgivenSince(t, calls[1..], ip));
    }
  }

  /** The blocks after a call, before they are brought into 32 bits. */
  function BlocksAfter(s: State, c: Call, ip: Ip): int {
    (if ip in c.dropped then 0 else Blocks(s, ip))
    + (if Starts(s, c, ip) then 1 else 0) - (if Forgives(s, c, ip) then 1 else 0)
  }

  lemma SinceUnfolds(s: State, calls: seq<Call>, ip: Ip)
    requires Blocks(s, ip) < WORD
    ensures calls == [] ==>
              && !Forgotten(calls, ip) && AfterCalls(s, calls) == s && Wrap(Blocks(s, ip)) == Blocks(s, ip)
              && StartedSince(s, calls, ip) == ForgivenSince(s, calls, ip) == 0
    ensures calls != [] ==>
              var t, rest := Step(s, calls[0]).0, calls[1..];
              && AfterCalls(s, calls) == AfterCalls(t, rest)
              && (Forgotten(calls, ip) <==> ip in calls[0].dropped || Forgotten(rest, ip))
              && (if Forgotten(calls, ip) then 0 else Blocks(s, ip))
                 + StartedSince(s, calls, ip) - ForgivenSince(s, calls, ip) ==
                 (if Forgotten(rest, ip) then 0 else BlocksAfter(s, calls[0], ip))
                 + StartedSince(t, rest, ip) - ForgivenSince(t, rest, ip)
  {
    if calls != [] {
      assert calls == [calls[0]] + calls[1..];
    }
  }

  lemma BlocksStep(s: State, c: Call, ip: Ip)
    requires Blocks(s, ip) < WORD
    ensures Blocks(Step(s, c).0, ip) < WORD
    ensures Wrap(Blocks(Step(s, c).0, ip)) == Wrap(BlocksAfter(s, c, ip))
  {
  }

  /** A block that starts is refused, reports its number, and lasts the longer the more there have been. */
  lemma BlocksGrowLonger(s: State, c: Call)
    requires Step(s, c).1.blockStarted
    ensures var (after, result) := Step(s, c);
            var before := if c.ip in c.dropped then 0 else Blocks(s, c.ip);
            && !result.allowed && result.totalBlocks == Blocks(after, c.ip) == Wrap(before + 1)
            && after[c.ip].blockUntil == c.now + result.blockDuration
            && result.blockDuration in {3000, 15000, 60000, 300000}
            && (result.blockDuration >= 15000 <==> result.totalBlocks >= 3)
            && (result.blockDuration >= 60000 <==> result.totalBlocks >= 5)
            && (result.blockDuration >= 300000 <==> result.totalBlocks >= 10)
  {
  }

  lemma DurationsDoNotFall(s: State, c: Call, t: State, d: Call)
    requires Step(s, c).1.blockStarted && Step(t, d).1.blockStarted
    requires Step(s, c).1.totalBlocks <= Step(t, d).1.totalBlocks
    ensures Step(s, c).1.blockDuration <= Step(t, d).1.blockDuration
  {
    BlocksGrowLonger(s, c);
    BlocksGrowLonger(t, d);
  }
}
