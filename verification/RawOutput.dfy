/** The bounded, expiring store of raw command outputs (common/rawoutput.go). */
module RawOutput {
  import opened Wrappers

  /** Times are counted from the start of the process. */
  datatype Record = Record(id: string, source: string, content: string, truncated: bool, originalBytes: int,
                           createdAt: nat, expiresAt: int)

  /** The bytes held by records k, k + 1, ... */
  function Bytes(rs: seq<Record>, k: nat): nat
    requires k <= |rs|
    decreases |rs| - k
  {
    if k == |rs| then 0 else |rs[k].content| + Bytes(rs, k + 1)
  }

  lemma {:induction false} BytesAppend(rs: seq<Record>, r: Record, k: nat)
    requires k <= |rs|
    ensures Bytes(rs + [r], k) == Bytes(rs, k) + |r.content|
    decreases |rs| - k
  {
    if k == |rs| {
      assert Bytes(rs + [r], k + 1) == 0;
    } else {
      BytesAppend(rs, r, k + 1);
    }
  }

  lemma {:induction false} BytesShrink(rs: seq<Record>, j: nat, k: nat)
    requires j <= k <= |rs|
    ensures Bytes(rs, j) >= Bytes(rs, k)
    decreases k - j
  {
    if j < k {
      BytesShrink(rs, j + 1, k);
    }
  }

  /** The records from the b-th put on are unexpired and within both caps. */
  ghost predicate Qualifies(log: seq<Record>, b: nat, now: nat, maxEntries: int, maxBytes: int)
    requires b <= |log|
  {
    && (forall k :: b <= k < |log| ==> now < log[k].expiresAt)
    && |log| - b <= maxEntries && Bytes(log, b) <= maxBytes
  }

  /** `b` starts the longest suffix of the puts that qualifies. */
  ghost predicate Longest(log: seq<Record>, b: nat, now: nat, maxEntries: int, maxBytes: int)
    requires b <= |log|
  {
    && Qualifies(log, b, now, maxEntries, maxBytes)
    && forall j :: 0 <= j < b ==> !Qualifies(log, j, now, maxEntries, maxBytes)
  }

  /** Later puts expire later. */
  ghost predicate ByAge(log: seq<Record>, clock: nat, ttl: int) {
    && (forall k :: 0 <= k < |log| ==> log[k].createdAt <= clock && log[k].expiresAt == log[k].createdAt + ttl)
    && (forall j, k :: 0 <= j < k < |log| ==> log[j].createdAt <= log[k].createdAt)
  }

  /** Dropping an expired run from the front leaves the longest suffix for the later time. */
  lemma AfterExpiry(log: seq<Record>, b0: nat, b1: nat, clock: nat, now: nat, ttl: int, maxEntries: int, maxBytes: int)
    requires b0 <= b1 <= |log| && clock <= now && ByAge(log, clock, ttl)
    requires Longest(log, b0, clock, maxEntries, maxBytes)
    requires forall k :: b0 <= k < b1 ==> log[k].expiresAt <= now
    requires b1 < |log| ==> now < log[b1].expiresAt
    ensures Longest(log, b1, now, maxEntries, maxBytes)
  {
    BytesShrink(log, b0, b1);
    forall j | 0 <= j < b1 ensures !Qualifies(log, j, now, maxEntries, maxBytes) {
      if j < b0 {
        assert !Qualifies(log, j, clock, maxEntries, maxBytes);
      } else {
        assert log[j].expiresAt <= now;
      }
    }
  }

  /** Making room from the front and appending leaves the longest suffix of the longer log. */
  lemma AfterPut(log: seq<Record>, b0: nat, b1: nat, r: Record, now: nat, maxEntries: int, maxBytes: int)
    requires b0 <= b1 <= |log| && Longest(log, b0, now, maxEntries, maxBytes)
    requires forall j :: b0 <= j < b1 ==> |log| - j >= maxEntries || Bytes(log, j) + |r.content| > maxBytes
    requires |log| - b1 < maxEntries && Bytes(log, b1) + |r.content| <= maxBytes && now < r.expiresAt
    ensures Longest(log + [r], b1, now, maxEntries, maxBytes)
  {
    var more := log + [r];
    BytesAppend(log, r, b1);
    forall k | b1 <= k < |more| ensures now < more[k].expiresAt {
      assert k < |log| ==> more[k] == log[k];
    }
    forall j | 0 <= j < b1 ensures !Qualifies(more, j, now, maxEntries, maxBytes) {
      BytesAppend(log, r, j);
      if j < b0 && Qualifies(more, j, now, maxEntries, maxBytes) {
        forall k | j <= k < |log| ensures now < log[k].expiresAt {
          assert more[k] == log[k];
        }
        assert Qualifies(log, j, now, maxEntries, maxBytes);
        assert false;
      }
    }
  }

  /** The ids of the records held after the first d were dropped. */
  ghost predicate Ids(log: seq<Record>, d: nat, order: seq<string>) {
    d + |order| == |log| && forall k :: 0 <= k < |order| ==> log[d + k].id == order[k]
  }

  lemma StillHeld(log: seq<Record>, order0: seq<string>, d0: nat, order1: seq<string>, d1: nat, k: nat)
    requires Ids(log, d0, order0) && Ids(log, d1, order1) && d0 <= d1 && k < |order0|
    requires forall i, j :: 0 <= i < j < |order0| ==> order0[i] != order0[j]
    ensures order0[k] in order1 <==> d0 + k >= d1
  {
    forall m | 0 <= m < |order1| ensures order1[m] == order0[d1 + m - d0] {
      assert log[d1 + m].id == order1[m];
      assert log[d0 + (d1 + m - d0)].id == order0[d1 + m - d0];
    }
    if d0 + k >= d1 {
      assert order1[d0 + k - d1] == order0[k];
    }
  }

  /** Each id of the order names its record, no id occurs twice, and the map has no other. */
  ghost predicate Bijective(entries: map<string, Record>, order: seq<string>, log: seq<Record>, dropped: nat) {
    && Ids(log, dropped, order)
    && (forall k :: 0 <= k < |order| ==> order[k] in entries && entries[order[k]] == log[dropped + k])
    && (forall j, k :: 0 <= j < k < |order| ==> order[j] != order[k])
    && (forall id :: id in entries ==> id in order)
  }

  lemma BijectiveDrop(entries: map<string, Record>, order: seq<string>, log: seq<Record>, dropped: nat)
    requires Bijective(entries, order, log, dropped) && order != []
    ensures Bijective(entries - {order[0]}, order[1..], log, dropped + 1)
    ensures order[0] in entries && Bytes(log, dropped) == |entries[order[0]].content| + Bytes(log, dropped + 1)
    ensures (entries - {order[0]}).Keys <= entries.Keys
  {
    var rest := order[1..];
    assert log[dropped + 0] == entries[order[0]];
    forall k | 0 <= k < |rest| ensures rest[k] == order[k + 1] && log[dropped + 1 + k].id == rest[k] {
      assert log[dropped + (k + 1)].id == order[k + 1];
    }
    forall id | id in entries && id != order[0] ensures id in rest {
      var k :| 0 <= k < |order| && order[k] == id;
      assert rest[k - 1] == id;
    }
  }

  lemma BijectiveAppend(entries: map<string, Record>, order: seq<string>, log: seq<Record>, dropped: nat, r: Record)
    requires Bijective(entries, order, log, dropped) && r.id !in entries
    ensures Bijective(entries[r.id := r], order + [r.id], log + [r], dropped)
  {
    var more, order' := log + [r], order + [r.id];
    forall k | 0 <= k < |order'| ensures more[dropped + k].id == order'[k] {
      assert k < |order| ==> more[dropped + k] == log[dropped + k];
    }
    forall id | id in entries ensures id in order' {
      assert id in order;
    }
    assert order'[|order|] == r.id;
  }

  lemma AgeLater(log: seq<Record>, clock: nat, now: nat, ttl: int, b: nat)
    requires ByAge(log, clock, ttl) && clock <= now
    ensures ByAge(log, now, ttl)
    ensures b < |log| && now < log[b].expiresAt ==> forall k :: b <= k < |log| ==> now < log[k].expiresAt
  {
  }

  class RawOutputStore {
    var entries: map<string, Record>
    var order: seq<string>
    var totalBytes: int
    const maxEntries: int
    const maxBytes: int
    const ttl: int
    /** Every record ever put, and how many of them have been dropped. */
    ghost var log: seq<Record>
    ghost var dropped: nat
    /** The latest time passed in, and whether no earlier time was passed in after a later one. */
    ghost var clock: nat
    ghost var monotonic: bool

    /** Order and map are in bijection, the bytes are exact, and what is held is the tail of what was put. */
    ghost predicate Coherent()
      reads this`entries, this`order, this`totalBytes, this`log, this`dropped
    {
      Bijective(entries, order, log, dropped) && totalBytes == Bytes(log, dropped)
    }

    ghost predicate Valid()
      reads this
    {
      && Coherent()
      && |order| <= (if maxEntries > 0 then maxEntries else 0) && totalBytes <= (if maxBytes > 0 then maxBytes else 0)
      && (monotonic ==> ByAge(log, clock, ttl))
      && (monotonic && ttl > 0 && maxEntries > 0 && maxBytes > 0 ==> Longest(log, dropped, clock, maxEntries, maxBytes))
    }

    constructor (maxEntries: int, maxBytes: int, ttl: int)
      ensures Valid() && log == [] && monotonic
      ensures this.maxEntries == maxEntries && this.maxBytes == maxBytes && this.ttl == ttl
    {
      entries, order, totalBytes := map[], [], 0;
      this.maxEntries, this.maxBytes, this.ttl := maxEntries, maxBytes, ttl;
      log, dropped, clock, monotonic := [], 0, 0, true;
    }

    ghost predicate Exacting()
      reads this
    {
      monotonic && ttl > 0 && maxEntries > 0 && maxBytes > 0
    }

    /** removeLocked, which is only ever called on the oldest record. */
    method RemoveFirst()
      requires Coherent() && order != []
      modifies this`entries, this`order, this`totalBytes, this`dropped
      ensures Coherent() && dropped == old(dropped) + 1
      ensures entries.Keys <= old(entries).Keys && totalBytes <= old(totalBytes)
    {
      BijectiveDrop(entries, order, log, dropped);
      var id := order[0];
      totalBytes := totalBytes - |entries[id].content|;
      entries := entries - {id};
      order := order[1..];
      dropped := dropped + 1;
    }

    method RemoveExpired(now: nat)
      requires Coherent()
      modifies this`entries, this`order, this`totalBytes, this`dropped
      ensures Coherent() && old(dropped) <= dropped
      ensures entries.Keys <= old(entries).Keys && totalBytes <= old(totalBytes)
      ensures forall k :: old(dropped) <= k < dropped ==> log[k].expiresAt <= now
      ensures dropped < |log| ==> now < log[dropped].expiresAt
    {
      while |order| > 0
        invariant Coherent() && old(dropped) <= dropped
        invariant entries.Keys <= old(entries).Keys && totalBytes <= old(totalBytes)
        invariant forall k :: old(dropped) <= k < dropped ==> log[k].expiresAt <= now
        decreases |order|
      {
        if now < entries[order[0]].expiresAt {
          break;
        }
        RemoveFirst();
      }
    }

    /** The time of this call is taken into account. */
    method Tick(now: nat)
      requires Valid()
      modifies this`entries, this`order, this`totalBytes, this`dropped, this`clock, this`monotonic
      ensures Valid() && monotonic == (old(monotonic) && old(clock) <= now) && clock == now
      ensures old(dropped) <= dropped && entries.Keys <= old(entries).Keys
      ensures dropped < |log| ==> now < log[dropped].expiresAt
      ensures forall k :: old(dropped) <= k < dropped ==> log[k].expiresAt <= now
    {
      RemoveExpired(now);
      if monotonic && clock <= now {
        AgeLater(log, clock, now, ttl, dropped);
      }
      if monotonic && clock <= now && ttl > 0 && maxEntries > 0 && maxBytes > 0 {
        AfterExpiry(log, old(dropped), dropped, clock, now, ttl, maxEntries, maxBytes);
      }
      monotonic := monotonic && clock <= now;
      clock := now;
    }

    /** A put of a nonempty content that fits never fails, and the store then holds the longest suffix of all puts, the
        new one included, that is unexpired and within the caps. `id` is the random identifier, absent when none could
        be drawn. */
    method Put(source: string, content: string, truncated: bool, originalBytes: int, now: nat, id: Option<string>)
      returns (r: Option<string>)
      requires Valid() && (id.Some? ==> id.value !in entries)
      modifies this
      ensures Valid()
      ensures r == (if content == "" || maxEntries <= 0 || maxBytes < |content| then None else id)
      ensures r.None? ==> log == old(log) && order == old(order) && entries == old(entries)
      ensures r.Some? ==> log == old(log) + [Record(r.value, source, content, truncated, originalBytes, now, now + ttl)]
                          && order != [] && order[|order| - 1] == r.value && clock == now
                          && monotonic == (old(monotonic) && old(clock) <= now)
    {
      if content == "" || maxEntries <= 0 || maxBytes <= 0 || |content| > maxBytes {
        return None;
      }
      if id.None? {
        return None;
      }
      Tick(now);
      ghost var start := dropped;
      MakeRoom(|content|);
      var record := Record(id.value, source, content, truncated, originalBytes, now, now + ttl);
      if Exacting() {
        AfterPut(log, start, dropped, record, now, maxEntries, maxBytes);
      }
      Append(record);
      return id;
    }

    /** The oldest records give way until one of `size` bytes fits. The source also returns when nothing is left to
        remove, which cannot happen: a content within the byte cap fits an empty store. */
    method MakeRoom(size: nat)
      requires Valid() && 0 < maxEntries && size <= maxBytes
      modifies this`entries, this`order, this`totalBytes, this`dropped
      ensures Coherent() && old(dropped) <= dropped && entries.Keys <= old(entries).Keys
      ensures |order| < maxEntries && totalBytes + size <= maxBytes
      ensures forall j :: old(dropped) <= j < dropped ==> |log| - j >= maxEntries || Bytes(log, j) + size > maxBytes
    {
      while |order| >= maxEntries || totalBytes + size > maxBytes
        invariant Coherent() && old(dropped) <= dropped && entries.Keys <= old(entries).Keys
        invariant forall j :: old(dropped) <= j < dropped ==> |log| - j >= maxEntries || Bytes(log, j) + size > maxBytes
        decreases |order|
      {
        RemoveFirst();
      }
    }

    method Append(record: Record)
      requires Coherent() && |order| < maxEntries && totalBytes + |record.content| <= maxBytes && record.id !in entries
      requires clock == record.createdAt && record.expiresAt == record.createdAt + ttl
      requires monotonic ==> ByAge(log, clock, ttl)
      requires Exacting() ==> Longest(log + [record], dropped, clock, maxEntries, maxBytes)
      modifies this`entries, this`order, this`totalBytes, this`log
      ensures Valid() && log == old(log) + [record] && order == old(order) + [record.id]
    {
      BytesAppend(log, record, dropped);
      BijectiveAppend(entries, order, log, dropped, record);
      entries := entries[record.id := record];
      order := order + [record.id];
      totalBytes := totalBytes + |record.content|;
      log := log + [record];
    }

    /** A lookup finds exactly the records still held; with a clock that never goes back, never an expired one. */
    method Get(id: string, now: nat) returns (r: Option<Record>)
      requires Valid()
      modifies this`entries, this`order, this`totalBytes, this`dropped, this`clock, this`monotonic
      ensures Valid() && monotonic == (old(monotonic) && old(clock) <= now) && clock == now
      ensures r.Some? <==> id in order
      ensures r.Some? ==> r.value.id == id && r.value in log[dropped..]
      ensures r.Some? && monotonic ==> now < r.value.expiresAt
      ensures monotonic ==> forall k :: 0 <= k < |old(order)| && old(order)[k] == id ==>
                (r.Some? <==> now < log[old(dropped) + k].expiresAt)
    {
      Tick(now);
      forall k | 0 <= k < |old(order)| ensures old(order)[k] in order <==> old(dropped) + k >= dropped {
        StillHeld(log, old(order), old(dropped), order, dropped, k);
      }
      if monotonic {
        AgeLater(log, now, now, ttl, dropped);
      }
      if id in entries {
        r := Some(entries[id]);
        ghost var k :| 0 <= k < |order| && order[k] == id;
        assert log[dropped..][k] == r.value;
      } else {
        r := None;
      }
    }
  }
}
