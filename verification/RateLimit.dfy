/**
 Rate limiting of handshake initiations (src/wg_cookie.c:24-32, src/wg_cookie.c:339-486): a
 hashed table of token buckets with garbage collection, against a table that never forgets.
 */
module RateLimit {
  import opened Machine

  // Time since boot in units of 2^-32 seconds
  type sbintime = x: int | 0 <= x < 0x8000_0000_0000_0000

  const SBT_1S: int := 0x1_0000_0000
  const COST: int := SBT_1S / 20          // INITIATION_COST
  const TOKEN_MAX: int := COST * 5
  const TIMEOUT: int := SBT_1S            // ELEMENT_TIMEOUT
  const SIZE: int := 8192                 // RATELIMIT_SIZE
  const SIZE_MAX: int := SIZE * 8

  // struct ratelimit_key: the network stack and the part of the address that counts
  datatype Key = Key(vnet: nat, ip: seq<byte>)

  datatype Entry = Entry(key: Key, last: sbintime, tokens: nat)

  // One bucket

  // What is in the bucket at time now, before the request is paid for
  function Level(e: Entry, now: sbintime): int {
    if e.tokens + (now - e.last) > TOKEN_MAX then TOKEN_MAX else e.tokens + (now - e.last)
  }

  // A key that was never seen starts with a full bucket.
  function LevelOf(table: map<Key, Entry>, key: Key, now: sbintime): int {
    if key in table then Level(table[key], now) else TOKEN_MAX
  }

  predicate Allowed(table: map<Key, Entry>, key: Key, now: sbintime) {
    LevelOf(table, key, now) >= COST
  }

  ghost predicate Past(table: map<Key, Entry>, now: sbintime) {
    forall k :: k in table ==> table[k].last <= now && table[k].tokens <= TOKEN_MAX && table[k].key == k
  }

  // The table that never forgets
  function After(table: map<Key, Entry>, key: Key, now: sbintime): map<Key, Entry>
    requires Past(table, now)
  {
    var level := LevelOf(table, key, now);
    table[key := Entry(key, now, if level >= COST then level - COST else level)]
  }

  // What was forgotten had time to fill up again.
  ghost predicate Remembers(full: map<Key, Entry>, entries: map<Key, Entry>, clock: sbintime) {
    && Past(full, clock)
    && (forall k :: k in entries ==> k in full && full[k] == entries[k])
    && (forall k :: k in full && k !in entries ==> full[k].last + TIMEOUT < clock)
  }

  // A request, answered
  lemma RemembersAfter(full: map<Key, Entry>, entries: map<Key, Entry>, clock: sbintime, key: Key, now: sbintime)
    requires Remembers(full, entries, clock) && clock <= now && Past(full, now)
    ensures Remembers(After(full, key, now), entries[key := After(full, key, now)[key]], now)
  {}

  // Time passes
  lemma RemembersLater(full: map<Key, Entry>, entries: map<Key, Entry>, clock: sbintime, now: sbintime)
    requires Remembers(full, entries, clock) && clock <= now
    ensures Remembers(full, entries, now)
  {}

  // The hash table

  ghost predicate NoKeyTwice(bucket: seq<Entry>) {
    forall i, j :: 0 <= i < j < |bucket| ==> bucket[i].key != bucket[j].key
  }

  class Table {
    const hash: Key -> nat           // siphash13 with the secret of this table
    const buckets: array<seq<Entry>>
    var num: nat                     // rl_table_num
    var gcPending: bool              // rl_gc

    ghost var entries: map<Key, Entry>
    ghost var full: map<Key, Entry>  // the table that never forgets
    ghost var clock: sbintime             // the latest time seen

    function Bucket(key: Key): (b: nat)
      ensures b < SIZE
    {
      assert Pow2(13) == 8192;
      AndMask(hash(key), 13);
      And(hash(key), 8191)
    }

    ghost predicate Lists(b: nat)
      requires b < buckets.Length
      reads this`entries, buckets
    {
      && (forall e :: e in buckets[b] <==> Bucket(e.key) == b && e.key in entries && entries[e.key] == e)
      && NoKeyTwice(buckets[b])
    }

    ghost predicate TableOk()
      reads this`entries, this`num, buckets
    {
      && buckets.Length == SIZE && num == |entries|
      && (forall k :: k in entries ==> entries[k].key == k)
      && (forall b :: 0 <= b < SIZE ==> Lists(b))
    }

    ghost predicate Valid()
      reads this, buckets
    {
      TableOk() && Remembers(full, entries, clock) && (num > 0 ==> gcPending)
    }

    constructor (hash: Key -> nat)
      ensures Valid() && fresh(buckets)
      ensures entries == map[] && full == map[] && clock == 0
    {
      this.hash := hash;
      buckets := new seq<Entry>[SIZE](_ => []);
      num, gcPending := 0, false;
      entries, full, clock := map[], map[], 0;
    }

    // ratelimit_gc_schedule
    method GcSchedule()
      modifies this`gcPending
      ensures gcPending <==> old(gcPending) || num > 0
    {
      if num > 0 && !gcPending {
        gcPending := true;
      }
    }

    // LIST_FOREACH until the key is found
    method Locate(key: Key) returns (i: nat)
      requires TableOk()
      ensures buckets.Length == SIZE && i <= |buckets[Bucket(key)]|
      ensures i < |buckets[Bucket(key)]| <==> key in entries
      ensures i < |buckets[Bucket(key)]| ==> buckets[Bucket(key)][i] == entries[key]
    {
      hide Bucket;
      var bucket := buckets[Bucket(key)];
      assert Lists(Bucket(key));
      assert key in entries ==> entries[key] in bucket;
      i := 0;
      while i < |bucket| && bucket[i].key != key
        invariant i <= |bucket| && forall j :: 0 <= j < i ==> bucket[j].key != key
      {
        i := i + 1;
      }
      assert i < |bucket| ==> bucket[i] in bucket;
    }

    // Every other bucket still lists what it should.
    lemma OtherBucket(was: map<Key, Entry>, key: Key, c: nat)
      requires buckets.Length == SIZE && c < SIZE && c != Bucket(key) && NoKeyTwice(buckets[c])
      requires forall e :: e in buckets[c] <==> Bucket(e.key) == c && e.key in was && was[e.key] == e
      requires forall k :: k != key ==> (k in was <==> k in entries) && (k in was ==> was[k] == entries[k])
      ensures Lists(c)
    {
      hide Bucket;
    }

    // A new node at the head of its list
    method Insert(e: Entry)
      requires TableOk() && e.key !in entries
      modifies this`num, this`entries, buckets
      ensures TableOk()
      ensures entries == old(entries)[e.key := e] && num == old(num) + 1
    {
      hide Bucket;
      var b := Bucket(e.key);
      assert Lists(b);
      num := num + 1;
      buckets[b] := [e] + buckets[b];
      entries := entries[e.key := e];
      forall c | 0 <= c < SIZE
        ensures Lists(c)
      {
        if c != b {
          assert old(Lists(c));
          OtherBucket(old(entries), e.key, c);
        }
      }
    }

    // New time and tokens in a node
    method Update(i: nat, e: Entry)
      requires TableOk() && i < |buckets[Bucket(e.key)]| && buckets[Bucket(e.key)][i].key == e.key
      modifies this`entries, buckets
      ensures TableOk()
      ensures entries == old(entries)[e.key := e]
    {
      hide Bucket;
      var b := Bucket(e.key);
      assert Lists(b);
      assert buckets[b][i] in buckets[b];
      ghost var was := buckets[b];
      buckets[b] := buckets[b][i := e];
      entries := entries[e.key := e];
      assert |entries| == |old(entries)|;
      assert Lists(b) by {
        Replaced(was, i, e);
      }
      forall c | 0 <= c < SIZE
        ensures Lists(c)
      {
        if c != b {
          assert old(Lists(c));
          OtherBucket(old(entries), e.key, c);
        }
      }
    }

    // Unlink and free a node
    method Remove(b: nat, i: nat)
      requires TableOk() && b < SIZE && i < |buckets[b]|
      modifies this`num, this`entries, buckets
      ensures TableOk()
      ensures entries == old(entries) - {old(buckets[b][i].key)} && num == old(num) - 1
      ensures buckets[..] == old(buckets[..])[b := old(buckets[b])[..i] + old(buckets[b])[i + 1..]]
    {
      hide Bucket;
      assert Lists(b);
      ghost var was, key := buckets[b], buckets[b][i].key;
      assert was[i] in was;
      assert was == was[..i] + [was[i]] + was[i + 1..];
      ghost var rest := entries - {key};
      assert entries == rest[key := entries[key]];
      num := num - 1;
      buckets[b] := buckets[b][..i] + buckets[b][i + 1..];
      entries := rest;
      forall c | 0 <= c < SIZE
        ensures Lists(c)
      {
        if c != b {
          assert old(Lists(c));
          OtherBucket(old(entries), key, c);
        }
      }
    }

    // ratelimit_allow for a key. Time does not run backwards.
    method Allow(key: Key, now: sbintime) returns (ok: bool)
      requires Valid() && clock <= now
      modifies this, buckets
      ensures Valid() && clock == now
      ensures key !in old(entries) && old(num) >= SIZE_MAX ==> !ok && entries == old(entries) && full == old(full)
      ensures key in old(entries) || old(num) < SIZE_MAX ==>
                && (ok <==> Allowed(old(full), key, now)) && full == After(old(full), key, now)
                && entries == old(entries)[key := full[key]]
    {
      hide TableOk, Remembers, After, Past, LevelOf;
      Refilled(full, entries, key, clock, now);
      RemembersAfter(full, entries, clock, key, now);
      RemembersLater(full, entries, clock, now);
      clock := now;
      var i := Locate(key);
      var bucket := buckets[Bucket(key)];
      if i < |bucket| {
        var e: Entry;
        ok, e := Pay(bucket[i], now);
        full := After(full, key, now);
        Update(i, e);
      } else if num >= SIZE_MAX {
        return false;
      } else {
        full := After(full, key, now);
        Insert(Entry(key, now, TOKEN_MAX - COST));
        GcSchedule();
        ok := true;
      }
    }

    // The inner loop of ratelimit_gc
    method SweepBucket(b: nat, expiry: int, force: bool)
      requires TableOk() && b < SIZE
      modifies this`num, this`entries, buckets
      ensures TableOk()
      ensures forall c :: 0 <= c < SIZE && c != b ==> buckets[c] == old(buckets[c])
      ensures forall e :: e in buckets[b] ==> !Goes(e, expiry, force)
      ensures forall k :: k in entries ==> k in old(entries) && entries[k] == old(entries)[k]
      ensures forall k :: k in old(entries) && !Goes(old(entries)[k], expiry, force) ==> k in entries
    {
      hide Bucket, Lists, NoKeyTwice;
      var i := 0;
      while i < |buckets[b]|
        invariant TableOk() && i <= |buckets[b]|
        invariant forall c :: 0 <= c < SIZE && c != b ==> buckets[c] == old(buckets[c])
        invariant forall j :: 0 <= j < i ==> !Goes(buckets[b][j], expiry, force)
        invariant forall k :: k in entries ==> k in old(entries) && entries[k] == old(entries)[k]
        invariant forall k :: k in old(entries) && !Goes(old(entries)[k], expiry, force) ==> k in entries
        decreases |buckets[b]| - i
      {
        if Goes(buckets[b][i], expiry, force) {
          Listed(b, i);
          Remove(b, i);
        } else {
          i := i + 1;
        }
      }
    }

    lemma Listed(b: nat, i: nat)
      requires TableOk() && b < SIZE && i < |buckets[b]|
      ensures buckets[b][i].key in entries && entries[buckets[b][i].key] == buckets[b][i]
    {
      assert Lists(b);
      assert buckets[b][i] in buckets[b];
    }

    // ratelimit_gc: exactly the entries that have not been used for ELEMENT_TIMEOUT go, or all
    method Gc(now: sbintime, force: bool)
      requires TableOk()
      modifies this`num, this`entries, this`gcPending, buckets
      ensures TableOk()
      ensures forall k :: k in entries <==> k in old(entries) && !Goes(old(entries)[k], now - TIMEOUT, force)
      ensures forall k :: k in entries ==> entries[k] == old(entries)[k]
      ensures num > 0 ==> gcPending
      ensures num == 0 ==> gcPending == old(gcPending)
    {
      hide Bucket, Lists, NoKeyTwice;
      if num == 0 {
        NoEntries();
        return;
      }
      var expiry := now - TIMEOUT;
      for i := 0 to SIZE
        invariant TableOk() && gcPending == old(gcPending)
        invariant forall c, e :: 0 <= c < i && e in buckets[c] ==> !Goes(e, expiry, force)
        invariant forall k :: k in entries ==> k in old(entries) && entries[k] == old(entries)[k]
        invariant forall k :: k in old(entries) && !Goes(old(entries)[k], expiry, force) ==> k in entries
      {
        SweepBucket(i, expiry, force);
      }
      forall k | k in entries
        ensures !Goes(entries[k], expiry, force)
      {
        InBucket(k);
      }
      GcSchedule();
    }

    lemma SizeOfEntries()
      requires TableOk()
      ensures num == |entries|
    {}

    lemma NoEntries()
      requires TableOk() && num == 0
      ensures entries == map[]
    {}

    lemma InBucket(k: Key)
      requires TableOk() && k in entries
      ensures entries[k] in buckets[Bucket(k)]
    {
      hide Bucket;
      assert Lists(Bucket(k));
    }

    // ratelimit_gc_callout; the callout is no longer pending when it runs
    method GcCallout(now: sbintime)
      requires Valid() && clock <= now
      modifies this, buckets
      ensures Valid() && clock == now && full == old(full)
      ensures entries == Collected(old(entries), now)
    {
      hide TableOk;
      gcPending := false;
      clock := now;
      Gc(now, false);
    }

    // One event
    method Handle(e: Event) returns (ok: bool)
      requires Valid() && clock <= e.now && Past(full, e.now)
      modifies this, buckets
      ensures Valid() && clock == e.now
      ensures Tables(entries, full) == Step(Tables(old(entries), old(full)), e)
      ensures ok <==> Passes(Tables(old(entries), old(full)), e)
    {
      hide TableOk, Remembers, After, Allowed, Collected;
      ok := false;
      SizeOfEntries();
      if e.Request? {
        ok := Allow(e.key, e.now);
      } else {
        GcCallout(e.now);
      }
    }

    // ratelimit_deinit
    method Deinit(now: sbintime)
      requires Valid()
      modifies this, buckets
      ensures TableOk() && entries == map[] && num == 0 && !gcPending
    {
      hide Bucket, Lists, NoKeyTwice;
      gcPending := false;
      Gc(now, true);
      assert entries == map[];
    }
  }

  // What garbage collection removes
  predicate Goes(e: Entry, expiry: int, force: bool) {
    e.last < expiry || force
  }

  // The token arithmetic of ratelimit_allow
  method Pay(r: Entry, now: sbintime) returns (ok: bool, e: Entry)
    requires r.last <= now && r.tokens <= TOKEN_MAX
    ensures ok <==> Level(r, now) >= COST
    ensures e == Entry(r.key, now, if ok then Level(r, now) - COST else Level(r, now))
  {
    var diff := now - r.last;
    var tokens: u64 := r.tokens + diff;
    if tokens > TOKEN_MAX {
      tokens := TOKEN_MAX;
    }
    ok := tokens >= COST;
    e := Entry(r.key, now, if ok then tokens - COST else tokens);
  }

  // A forgotten key would have a full bucket by now, since a bucket fills up in less than
  // ELEMENT_TIMEOUT.
  lemma Refilled(full: map<Key, Entry>, entries: map<Key, Entry>, key: Key, clock: sbintime, now: sbintime)
    requires Remembers(full, entries, clock) && clock <= now
    ensures Past(full, now)
    ensures var after := After(full, key, now)[key];
            && (key !in entries ==> Allowed(full, key, now) && after == Entry(key, now, TOKEN_MAX - COST))
            && (key in entries ==>
                  var r := entries[key];
                  && r.key == key && r.last <= now && r.tokens <= TOKEN_MAX
                  && (Allowed(full, key, now) <==> Level(r, now) >= COST)
                  && after == Entry(key, now, if Level(r, now) >= COST then Level(r, now) - COST else Level(r, now)))
  {}

  lemma Replaced(was: seq<Entry>, i: nat, e: Entry)
    requires i < |was| && was[i].key == e.key && NoKeyTwice(was)
    ensures NoKeyTwice(was[i := e])
    ensures forall x :: x in was[i := e] <==> x == e || (x in was && x.key != e.key)
  {
    forall x | x in was && x.key != e.key
      ensures x in was[i := e]
    {
      var j :| 0 <= j < |was| && was[j] == x;
      assert was[i := e][j] == x;
    }
    assert was[i := e][i] == e;
  }

  // Whole runs

  datatype Event = Request(key: Key, now: sbintime) | Collect(now: sbintime)

  // What the table holds, and what it would hold had it never forgotten a request that it had
  // room for
  datatype Tables = Tables(entries: map<Key, Entry>, full: map<Key, Entry>)

  // A request is looked at only if its key is in the table or there is room for it.
  predicate HasRoom(t: Tables, key: Key) {
    key in t.entries || |t.entries| < SIZE_MAX
  }

  predicate Passes(t: Tables, e: Event) {
    e.Request? && HasRoom(t, e.key) && Allowed(t.full, e.key, e.now)
  }

  // What a garbage collection leaves
  function Collected(entries: map<Key, Entry>, now: sbintime): map<Key, Entry> {
    map k | k in entries && entries[k].last >= now - TIMEOUT :: entries[k]
  }

  function Step(t: Tables, e: Event): Tables
    requires Past(t.full, e.now)
  {
    match e
    case Request(key, now) =>
      if HasRoom(t, key) then
        var full := After(t.full, key, now);
        Tables(t.entries[key := full[key]], full)
      else t
    case Collect(now) => t.(entries := Collected(t.entries, now))
  }

  ghost predicate Ordered(events: seq<Event>) {
    forall i, j :: 0 <= i < j < |events| ==> events[i].now <= events[j].now
  }

  function LastTime(events: seq<Event>): sbintime {
    if events == [] then 0 else events[|events| - 1].now
  }

  ghost function TablesAfter(events: seq<Event>): (t: Tables)
    requires Ordered(events)
    ensures Past(t.full, LastTime(events))
  {
    if events == [] then Tables(map[], map[])
    else
      var front, e := events[..|events| - 1], events[|events| - 1];
      var t := TablesAfter(front);
      LaterPast(t.full, LastTime(front), e.now);
      Step(t, e)
  }

  lemma LaterPast(table: map<Key, Entry>, t: sbintime, now: sbintime)
    requires Past(table, t) && t <= now
    ensures Past(table, now)
  {}

  lemma TablesStep(events: seq<Event>, i: nat)
    requires Ordered(events) && i < |events|
    ensures LastTime(events[..i]) <= events[i].now && LastTime(events[..i + 1]) == events[i].now
    ensures Past(TablesAfter(events[..i]).full, events[i].now)
    ensures TablesAfter(events[..i + 1]) == Step(TablesAfter(events[..i]), events[i])
  {
    assert events[..i + 1][..i] == events[..i];
    LaterPast(TablesAfter(events[..i]).full, LastTime(events[..i]), events[i].now);
  }

  // The verdict on event i of a run
  ghost predicate PassesAt(events: seq<Event>, i: nat)
    requires Ordered(events) && i < |events|
  {
    Passes(TablesAfter(events[..i]), events[i])
  }

  // The code decides every event of every run, with requests and garbage collections in any
  // order, by the room in the table and the tokens in the table that never forgets; and the
  // requests it allows keep to the rate.
  method Serve(hash: Key -> nat, events: seq<Event>) returns (verdicts: seq<bool>)
    requires Ordered(events)
    ensures |verdicts| == |events|
    ensures forall i :: 0 <= i < |events| ==> (verdicts[i] <==> PassesAt(events, i))
    ensures forall k :: 0 <= k < |events| && events[k].Request? ==>
              (verdicts[k] <==> HasRoom(TablesAfter(events[..k]), events[k].key) && WithinRate(events, verdicts, events[k].key, k))
    ensures forall key, i, j :: 0 <= i < j <= |events| ==>
              Count(events, verdicts, key, i, j) * COST <= TOKEN_MAX + events[j - 1].now - events[i].now
  {
    hide WithinRate, HasRoom, Table.Valid, Passes, TablesAfter, Step, Past, Count;
    var table := new Table(hash);
    verdicts := [];
    assert events[..0] == [];
    NothingYet();
    for i := 0 to |events|
      invariant fresh(table) && fresh(table.buckets) && table.Valid()
      invariant table.clock == LastTime(events[..i]) && Tables(table.entries, table.full) == TablesAfter(events[..i])
      invariant |verdicts| == i && forall j :: 0 <= j < i ==> (verdicts[j] <==> PassesAt(events, j))
    {
      TablesStep(events, i);
      var ok := table.Handle(events[i]);
      verdicts := verdicts + [ok];
    }
    forall k | 0 <= k < |events| && events[k].Request?
      ensures verdicts[k] <==> HasRoom(TablesAfter(events[..k]), events[k].key) && WithinRate(events, verdicts, events[k].key, k)
    {
      AllowedExactly(events, verdicts, k);
    }
    forall key, i, j | 0 <= i < j <= |events|
      ensures Count(events, verdicts, key, i, j) * COST <= TOKEN_MAX + events[j - 1].now - events[i].now
    {
      RateBound(events, verdicts, key, i, j);
    }
  }

  lemma NothingYet()
    ensures TablesAfter([]) == Tables(map[], map[])
  {}

  // The table that never forgets anything, whatever the capacity
  ghost function Unbounded(events: seq<Event>): (table: map<Key, Entry>)
    requires Ordered(events)
    ensures Past(table, LastTime(events))
  {
    if events == [] then map[]
    else
      var front, e := events[..|events| - 1], events[|events| - 1];
      var table := Unbounded(front);
      LaterPast(table, LastTime(front), e.now);
      if e.Request? then After(table, e.key, e.now) else table
  }

  // A key whose own requests all found room is decided exactly as by a table without any limit
  // and without garbage collection, whatever happened to other keys.
  lemma {:induction false} NeverForgets(events: seq<Event>, key: Key)
    requires Ordered(events)
    requires forall i :: 0 <= i < |events| && events[i] == Request(key, events[i].now) ==>
               HasRoom(TablesAfter(events[..i]), key)
    ensures var full, unbounded := TablesAfter(events).full, Unbounded(events);
            && (key in full <==> key in unbounded)
            && (key in full ==> full[key] == unbounded[key])
            && forall now :: Allowed(full, key, now) <==> Allowed(unbounded, key, now)
  {
    if events != [] {
      var k := |events| - 1;
      var front := events[..k];
      assert forall i :: 0 <= i < k ==> front[..i] == events[..i];
      NeverForgets(front, key);
      assert events[..k + 1] == events;
      TablesStep(events, k);
      hide HasRoom;
    }
  }

  // Tokens spent by a key on the events from i up to j
  ghost function Spent(events: seq<Event>, key: Key, i: nat, j: nat): nat
    requires Ordered(events) && i <= j <= |events|
    decreases j
  {
    if i == j then 0
    else Spent(events, key, i, j - 1) + if events[j - 1] == Request(key, events[j - 1].now) && PassesAt(events, j - 1) then COST else 0
  }

  lemma NeverOverfull(table: map<Key, Entry>, key: Key, now: sbintime)
    ensures LevelOf(table, key, now) <= TOKEN_MAX
  {}

  // One event pays for what it is allowed, and then only time adds tokens.
  lemma LevelStep(t: Tables, e: Event, key: Key, now: sbintime)
    requires Past(t.full, e.now) && e.now <= now
    ensures LevelOf(Step(t, e).full, key, now) + (if e == Request(key, e.now) && Passes(t, e) then COST else 0)
            <= LevelOf(t.full, key, e.now) + now - e.now
  {
    hide HasRoom, Collected;
  }

  // What was spent and what is left came from a full bucket and the time since.
  lemma {:induction false} Conservation(events: seq<Event>, key: Key, i: nat, j: nat, now: sbintime)
    requires Ordered(events) && i < |events| && i <= j <= |events| && events[i].now <= now
    requires LastTime(events[..j]) <= now
    ensures Spent(events, key, i, j) + LevelOf(TablesAfter(events[..j]).full, key, now) <= TOKEN_MAX + now - events[i].now
    decreases j
  {
    hide Passes, LevelOf, Step, Past, TablesAfter;
    if i == j {
      NeverOverfull(TablesAfter(events[..j]).full, key, now);
    } else {
      var e, before := events[j - 1], TablesAfter(events[..j - 1]);
      TablesStep(events, j - 1);
      Conservation(events, key, i, j - 1, e.now);
      LevelStep(before, e, key, now);
    }
  }

  // The number of requests of a key, from event i up to event j, with the verdict true
  ghost function Count(events: seq<Event>, verdicts: seq<bool>, key: Key, i: nat, j: nat): nat
    requires i <= j <= |events| == |verdicts|
    decreases j
  {
    if i == j then 0
    else Count(events, verdicts, key, i, j - 1) + if events[j - 1] == Request(key, events[j - 1].now) && verdicts[j - 1] then 1 else 0
  }

  lemma NextMultiple(c: int, m: int)
    ensures (c + 1) * m == c * m + m
  {}

  lemma {:induction false} SpentPerRequest(events: seq<Event>, verdicts: seq<bool>, key: Key, i: nat, j: nat)
    requires Ordered(events) && i <= j <= |events| == |verdicts|
    requires forall x :: 0 <= x < |events| ==> (verdicts[x] <==> PassesAt(events, x))
    ensures Spent(events, key, i, j) == Count(events, verdicts, key, i, j) * COST
    decreases j
  {
    hide PassesAt;
    if i < j {
      SpentPerRequest(events, verdicts, key, i, j - 1);
      NextMultiple(Count(events, verdicts, key, i, j - 1), COST);
    }
  }

  // Whatever happened before and in between, the requests of one key that are allowed from one
  // event to another cost at most a full bucket and the time between the two.
  lemma RateBound(events: seq<Event>, verdicts: seq<bool>, key: Key, i: nat, j: nat)
    requires Ordered(events) && i < j <= |events| == |verdicts|
    requires forall x :: 0 <= x < |events| ==> (verdicts[x] <==> PassesAt(events, x))
    ensures Count(events, verdicts, key, i, j) * COST <= TOKEN_MAX + events[j - 1].now - events[i].now
  {
    hide PassesAt, TablesAfter;
    SpentPerRequest(events, verdicts, key, i, j);
    Conservation(events, key, i, j, events[j - 1].now);
    LevelNotNegative(TablesAfter(events[..j]).full, key, events[j - 1].now);
  }

  lemma LevelNotNegative(table: map<Key, Entry>, key: Key, now: sbintime)
    requires Past(table, now)
    ensures LevelOf(table, key, now) >= 0
  {}

  // A bucket is full, or short by exactly what was spent since some event less the time since.
  lemma {:induction false} LevelAttained(events: seq<Event>, key: Key, j: nat, now: sbintime)
    requires Ordered(events) && j <= |events| && LastTime(events[..j]) <= now
    ensures var level := LevelOf(TablesAfter(events[..j]).full, key, now);
            level == TOKEN_MAX ||
            exists i :: 0 <= i < j && level == TOKEN_MAX + now - events[i].now - Spent(events, key, i, j)
    decreases j
  {
    hide TablesAfter;
    if j == 0 {
      assert events[..0] == [];
      NothingYet();
    } else {
      var e, before := events[j - 1], TablesAfter(events[..j - 1]);
      TablesStep(events, j - 1);
      var spent := if e == Request(key, e.now) && PassesAt(events, j - 1) then COST else 0;
      assert forall i :: 0 <= i < j ==> Spent(events, key, i, j) == Spent(events, key, i, j - 1) + spent;
      if e == Request(key, e.now) && HasRoom(before, key) {
        LevelAttained(events, key, j - 1, e.now);
        LevelPaid(before, e, now);
        var was := LevelOf(before.full, key, e.now);
        assert was == TOKEN_MAX ==> was - spent + now - e.now == TOKEN_MAX + now - e.now - Spent(events, key, j - 1, j);
      } else {
        LevelAttained(events, key, j - 1, now);
        LevelKept(before, e, key, now);
      }
      hide LevelOf, Step, HasRoom, PassesAt, Passes, Spent, Past;
    }
  }

  // A request that is looked at, and any other event
  lemma LevelPaid(t: Tables, e: Event, now: sbintime)
    requires Past(t.full, e.now) && e.now <= now && e.Request? && HasRoom(t, e.key)
    ensures var level := LevelOf(t.full, e.key, e.now) - (if Passes(t, e) then COST else 0) + now - e.now;
            LevelOf(Step(t, e).full, e.key, now) == if level > TOKEN_MAX then TOKEN_MAX else level
  {
    hide HasRoom;
  }

  lemma LevelKept(t: Tables, e: Event, key: Key, now: sbintime)
    requires Past(t.full, e.now) && (e == Request(key, e.now) ==> !HasRoom(t, key))
    ensures LevelOf(Step(t, e).full, key, now) == LevelOf(t.full, key, now)
    ensures e == Request(key, e.now) ==> !Passes(t, e)
  {
    hide HasRoom, Collected;
  }

  // Whether a request may pass without the requests of its key from any event on exceeding five at
  // once and one in each twentieth of a second (2^32 / 20, rounded down) since
  ghost predicate WithinRate(events: seq<Event>, verdicts: seq<bool>, key: Key, k: nat)
    requires k < |events| == |verdicts|
  {
    forall i :: 0 <= i <= k ==>
      (Count(events, verdicts, key, i, k) + 1) * 214748364 <= 5 * 214748364 + events[k].now - events[i].now
  }

  lemma AllowedWithin(events: seq<Event>, verdicts: seq<bool>, k: nat)
    requires Ordered(events) && k < |events| == |verdicts| && events[k].Request?
    requires forall x :: 0 <= x < |events| ==> (verdicts[x] <==> PassesAt(events, x))
    requires LevelOf(TablesAfter(events[..k]).full, events[k].key, events[k].now) >= COST
    ensures WithinRate(events, verdicts, events[k].key, k)
  {
    hide TablesAfter, PassesAt, LevelOf, Spent, Count, Past;
    var key, now := events[k].key, events[k].now;
    TablesStep(events, k);
    forall i | 0 <= i <= k
      ensures (Count(events, verdicts, key, i, k) + 1) * 214748364 <= 5 * 214748364 + now - events[i].now
    {
      SpentPerRequest(events, verdicts, key, i, k);
      Conservation(events, key, i, k, now);
    }
  }

  lemma WithinAllowed(events: seq<Event>, verdicts: seq<bool>, k: nat)
    requires Ordered(events) && k < |events| == |verdicts| && events[k].Request?
    requires forall x :: 0 <= x < |events| ==> (verdicts[x] <==> PassesAt(events, x))
    requires WithinRate(events, verdicts, events[k].key, k)
    ensures LevelOf(TablesAfter(events[..k]).full, events[k].key, events[k].now) >= COST
  {
    hide TablesAfter, PassesAt, LevelOf, Spent, Count, Past;
    var key, now := events[k].key, events[k].now;
    TablesStep(events, k);
    var level := LevelOf(TablesAfter(events[..k]).full, key, now);
    LevelAttained(events, key, k, now);
    if level != TOKEN_MAX {
      var i :| 0 <= i < k && level == TOKEN_MAX + now - events[i].now - Spent(events, key, i, k);
      SpentPerRequest(events, verdicts, key, i, k);
      assert (Count(events, verdicts, key, i, k) + 1) * 214748364 <= 5 * 214748364 + now - events[i].now;
    }
  }

  // A request that there is room for is refused exactly if it would exceed the rate.
  lemma AllowedExactly(events: seq<Event>, verdicts: seq<bool>, k: nat)
    requires Ordered(events) && k < |events| == |verdicts| && events[k].Request?
    requires forall x :: 0 <= x < |events| ==> (verdicts[x] <==> PassesAt(events, x))
    ensures verdicts[k] <==> HasRoom(TablesAfter(events[..k]), events[k].key) && WithinRate(events, verdicts, events[k].key, k)
  {
    hide TablesAfter, HasRoom, LevelOf, WithinRate;
    if LevelOf(TablesAfter(events[..k]).full, events[k].key, events[k].now) >= COST {
      AllowedWithin(events, verdicts, k);
    }
    if WithinRate(events, verdicts, events[k].key, k) {
      WithinAllowed(events, verdicts, k);
    }
  }

  // Requests of a key that come a twentieth of a second or more after the one before are never
  // refused for lack of tokens.
  lemma SteadyPasses(events: seq<Event>, verdicts: seq<bool>, key: Key, p: nat, k: nat)
    requires Ordered(events) && p < k < |events| == |verdicts| && events[k] == Request(key, events[k].now)
    requires forall x :: 0 <= x < |events| ==> (verdicts[x] <==> PassesAt(events, x))
    requires forall x :: p < x < k ==> events[x] != Request(key, events[x].now)
    requires events[k].now - events[p].now >= 214748364
    ensures verdicts[k] <==> HasRoom(TablesAfter(events[..k]), key)
  {
    hide PassesAt, TablesAfter, HasRoom, Count;
    AllowedExactly(events, verdicts, k);
    forall i | 0 <= i <= k
      ensures (Count(events, verdicts, key, i, k) + 1) * 214748364 <= 5 * 214748364 + events[k].now - events[i].now
    {
      if i <= p {
        RateBound(events, verdicts, key, i, p + 1);
        NoneBetween(events, verdicts, key, i, p + 1, k);
      } else {
        NoneBetween(events, verdicts, key, i, i, k);
        assert Count(events, verdicts, key, i, i) == 0 by {
          CountNone(events, verdicts, key, i);
        }
      }
    }
  }

  lemma CountNone(events: seq<Event>, verdicts: seq<bool>, key: Key, i: nat)
    requires i <= |events| == |verdicts|
    ensures Count(events, verdicts, key, i, i) == 0
  {}

  lemma {:induction false} NoneBetween(events: seq<Event>, verdicts: seq<bool>, key: Key, i: nat, p: nat, k: nat)
    requires i <= p <= k <= |events| == |verdicts|
    requires forall x :: p <= x < k ==> events[x] != Request(key, events[x].now)
    ensures Count(events, verdicts, key, i, k) == Count(events, verdicts, key, i, p)
    decreases k
  {
    if p < k {
      NoneBetween(events, verdicts, key, i, p, k - 1);
    }
  }

  // Event i is a request of this key that there was room for, and no collection since was more than
  // a second later.
  ghost predicate StillThere(events: seq<Event>, key: Key, i: nat)
    requires Ordered(events) && i < |events|
  {
    && events[i] == Request(key, events[i].now) && HasRoom(TablesAfter(events[..i]), key)
    && forall j :: i < j < |events| && events[j].Collect? ==> events[j].now <= events[i].now + SBT_1S
  }

  lemma StillThereFront(events: seq<Event>, key: Key, i: nat)
    requires Ordered(events) && i < |events| - 1
    ensures var front, e := events[..|events| - 1], events[|events| - 1];
            StillThere(events, key, i) <==> StillThere(front, key, i) && (e.Collect? ==> e.now <= events[i].now + SBT_1S)
  {
    var front := events[..|events| - 1];
    assert front[..i] == events[..i];
    hide TablesAfter, HasRoom;
    if StillThere(events, key, i) {
      assert forall j :: i < j < |front| ==> front[j] == events[j];
    }
  }

  lemma {:induction false} ThereIsIn(events: seq<Event>, key: Key, i: nat)
    requires Ordered(events) && i < |events| && StillThere(events, key, i)
    ensures var entries := TablesAfter(events).entries;
            key in entries && events[i].now <= entries[key].last
    decreases |events|
  {
    hide TablesAfter, HasRoom, StillThere, Step, Past;
    var n := |events| - 1;
    var t, e := TablesAfter(events[..n]), events[n];
    TablesStep(events, n);
    assert events[..n + 1] == events;
    if i < n {
      StillThereFront(events, key, i);
      ThereIsIn(events[..n], key, i);
      StaysIn(t, e, key, events[i].now);
    } else {
      assert e == Request(key, e.now) && HasRoom(t, key) by {
        JustThere(events, key);
      }
      EntersIn(t, e);
    }
  }

  lemma JustThere(events: seq<Event>, key: Key)
    requires Ordered(events) && events != [] && StillThere(events, key, |events| - 1)
    ensures var e := events[|events| - 1];
            e == Request(key, e.now) && HasRoom(TablesAfter(events[..|events| - 1]), key)
  {
    hide TablesAfter, HasRoom;
  }

  lemma EntersIn(t: Tables, e: Event)
    requires Past(t.full, e.now) && e.Request? && HasRoom(t, e.key)
    ensures e.key in Step(t, e).entries && Step(t, e).entries[e.key].last == e.now
  {
    hide HasRoom;
  }

  lemma StaysIn(t: Tables, e: Event, key: Key, since: sbintime)
    requires Past(t.full, e.now) && key in t.entries && since <= t.entries[key].last && since <= e.now
    requires e.Collect? ==> e.now <= since + SBT_1S
    ensures key in Step(t, e).entries && since <= Step(t, e).entries[key].last
  {
    hide HasRoom;
  }

  lemma {:induction false} InIsThere(events: seq<Event>, key: Key) returns (i: nat)
    requires Ordered(events) && key in TablesAfter(events).entries
    ensures i < |events| && StillThere(events, key, i) && events[i].now == TablesAfter(events).entries[key].last
    decreases |events|
  {
    var n := |events| - 1;
    var front := events[..n];
    TablesStep(events, n);
    assert events[..n + 1] == events;
    if events[n] == Request(key, events[n].now) && HasRoom(TablesAfter(front), key) {
      i := n;
    } else {
      i := InIsThere(front, key);
      StillThereFront(events, key, i);
    }
    hide TablesAfter, HasRoom;
  }

  // Which keys the table holds: those with a request that there was room for, at most a second
  // before every collection since.
  lemma InTable(events: seq<Event>, key: Key)
    requires Ordered(events)
    ensures key in TablesAfter(events).entries <==> exists i :: 0 <= i < |events| && StillThere(events, key, i)
  {
    hide TablesAfter, StillThere;
    if key in TablesAfter(events).entries {
      var i := InIsThere(events, key);
    }
    forall i | 0 <= i < |events| && StillThere(events, key, i)
      ensures key in TablesAfter(events).entries
    {
      ThereIsIn(events, key, i);
    }
  }
}
