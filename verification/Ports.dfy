/**
  * The port and Id allocator `dist` (cmd/ikago-server/main.go): a round-robin scan over a pool of
  * last-use times, driven by a `uint16` pointer that wraps.
  */
module Ports {
  import opened Words
  import opened Packets

  // 30 seconds, in nanoseconds.
  const KEEP_ALIVE: int := 30_000_000_000

  const FIRST_PORT: int := 49152
  const PORT_POOL: int := 16384
  const ID_POOL: int := 65536

  // An entry of a pool: the zero time, or the time of the last use.
  datatype Stamp = Never | At(time: int)

  predicate Idle(last: Stamp, now: int) {
    last.Never? || now - last.time > KEEP_ALIVE
  }

  /** Every slot was used within KEEP_ALIVE. */
  ghost predicate AllBusy(stamps: seq<Stamp>, now: int) {
    forall i | 0 <= i < |stamps| :: stamps[i].At? && now - stamps[i].time <= KEEP_ALIVE
  }

  function PoolSize(p: Proto): nat {
    if p == ICMPv4 then ID_POOL else PORT_POOL
  }

  function PoolBase(p: Proto): nat {
    if p == ICMPv4 then 0 else FIRST_PORT
  }

  /** The loop of `dist` with `left` iterations to go: the slot found, if any, and the new pointer. */
  function Scan(stamps: seq<Stamp>, next: U16, now: int, left: nat): (Option<nat>, U16)
    requires |stamps| > 0
    decreases left
  {
    if left == 0 then (None, next)
    else
      var s := next % |stamps|;
      var after := Wrap16(next + 1);
      if Idle(stamps[s], now) then (Some(s), after) else Scan(stamps, after, now, left - 1)
  }

  /** The slot that lies `d` steps after the pointer in cyclic order. */
  function Slot(next: U16, d: nat, size: nat): (slot: nat)
    requires size > 0
    ensures slot < size
  {
    (next + d) % size
  }

  /** The wrap of the pointer is invisible, since both pool sizes divide 2^16. */
  lemma SlotWraps(next: U16, d: nat, size: nat)
    requires size == PORT_POOL || size == ID_POOL
    ensures Slot(Wrap16(next + 1), d, size) == Slot(next, d + 1, size)
  {
    if next + 1 == U16_SIZE {
      var q := U16_SIZE / size;
      assert q * size == U16_SIZE;
      ModShift(d, q, size);
      assert Slot(next, d + 1, size) == (q * size + d) % size;
    }
  }

  /** `d` is the distance from the pointer to the first idle slot. */
  ghost predicate FirstIdle(stamps: seq<Stamp>, next: U16, now: int, d: nat)
    requires |stamps| > 0
  {
    && Idle(stamps[Slot(next, d, |stamps|)], now)
    && forall e: nat | e < d :: !Idle(stamps[Slot(next, e, |stamps|)], now)
  }

  lemma {:induction false} ScanFindsFirst(stamps: seq<Stamp>, next: U16, now: int, left: nat) returns (d: nat)
    requires |stamps| == PORT_POOL || |stamps| == ID_POOL
    ensures var (found, after) := Scan(stamps, next, now, left);
            if found.Some? then
              d < left && FirstIdle(stamps, next, now, d)
              && found.value == Slot(next, d, |stamps|) && after == Wrap16(next + d + 1)
            else
              d == left && after == Wrap16(next + left)
              && forall e: nat | e < left :: !Idle(stamps[Slot(next, e, |stamps|)], now)
    decreases left
  {
    if left == 0 || Idle(stamps[next % |stamps|], now) {
      d := 0;
      assert Slot(next, 0, |stamps|) == next % |stamps|;
    } else {
      var after := Wrap16(next + 1);
      var d' := ScanFindsFirst(stamps, after, now, left - 1);
      d := d' + 1;
      WrapAdd16(next + 1, d' + 1);
      WrapAdd16(next + 1, d');
      SlotWraps(next, d', |stamps|);
      assert Slot(next, 0, |stamps|) == next % |stamps|;
      hide Slot, Idle, Wrap16;
      forall e: nat | e < d ensures !Idle(stamps[Slot(next, e, |stamps|)], now) {
        if e > 0 {
          SlotWraps(next, e - 1, |stamps|);
          assert !Idle(stamps[Slot(after, e - 1, |stamps|)], now);
        }
      }
    }
  }

  /** A full lap fails exactly when every slot was used within KEEP_ALIVE; otherwise it returns an
      idle slot in range, the first one in cyclic order from the pointer. */
  lemma ScanComplete(stamps: seq<Stamp>, next: U16, now: int)
    requires |stamps| == PORT_POOL || |stamps| == ID_POOL
    ensures var (found, after) := Scan(stamps, next, now, |stamps|);
            && (found.None? <==> AllBusy(stamps, now))
            && (found.Some? ==>
                  && found.value < |stamps|
                  && Idle(stamps[found.value], now)
                  && exists d: nat :: d < |stamps| && FirstIdle(stamps, next, now, d)
                                      && found.value == Slot(next, d, |stamps|) && after == Wrap16(next + d + 1))
            && (found.None? ==> after == Wrap16(next + |stamps|))
  {
    var d := ScanFindsFirst(stamps, next, now, |stamps|);
    var (found, after) := Scan(stamps, next, now, |stamps|);
    if found.None? {
      forall i | 0 <= i < |stamps| ensures !Idle(stamps[i], now) {
        Reaches(next, i, |stamps|);
        assert !Idle(stamps[Slot(next, (i - next) % |stamps|, |stamps|)], now);
      }
    }
  }

  /** The part of ScanComplete that does not mention the order of the scan. */
  lemma ScanLap(stamps: seq<Stamp>, next: U16, now: int)
    requires |stamps| == PORT_POOL || |stamps| == ID_POOL
    ensures var found := Scan(stamps, next, now, |stamps|).0;
            && (found.None? <==> AllBusy(stamps, now))
            && (found.Some? ==> found.value < |stamps| && Idle(stamps[found.value], now))
  {
    ScanComplete(stamps, next, now);
  }

  /** Every slot lies less than one lap away from the pointer. */
  lemma Reaches(next: U16, i: nat, size: nat)
    requires i < size
    ensures Slot(next, (i - next) % size, size) == i
  {
    var d := (i - next) % size;
    var k := -((i - next) / size);
    assert next + d == k * size + i;
    assert (next + d) % size == i % size by { ModShift(i, k, size); }
    SmallMod(i, size);
  }

  lemma SmallMod(i: nat, size: nat)
    requires i < size
    ensures i % size == i
  {
  }

  /** `dist` on one pool: the loop over a full lap. */
  method ScanPool(pool: array<Stamp>, next: U16, now: int) returns (found: Option<nat>, after: U16)
    requires pool.Length > 0
    ensures (found, after) == Scan(pool[..], next, now, pool.Length)
  {
    after := next;
    for i := 0 to pool.Length
      invariant Scan(pool[..], next, now, pool.Length) == Scan(pool[..], after, now, pool.Length - i)
    {
      var s := after % pool.Length;
      after := Wrap16(after + 1);
      if Idle(pool[s], now) {
        return Some(s), after;
      }
    }
    found := None;
  }
}
