/**
  * Isolation in every run: an error that stamps an Id out of turn costs at most one Id.
  */
module NatStrays {
  import opened Words
  import opened Packets
  import opened Ports
  import opened Nat
  import opened NatRuns
  import opened NatFlows
  import opened NatOrder

  /** The Ids that delivered inbound errors have stamped before as many flows were entered. For TCP
      and UDP there are none. */
  ghost function Strays(upIP: IP, evs: seq<Event>, p: Proto): (strays: set<nat>)
    requires ValidRun(evs)
    ensures p != ICMPv4 ==> strays == {}
  {
    if evs == [] then {}
    else
      var init, e := evs[..|evs| - 1], evs[|evs| - 1];
      Strayed(Strays(upIP, init, p), |Flows(upIP, init, p)|, Run(upIP, init), e, p)
  }

  ghost function Strayed(strays: set<nat>, n: nat, s: State, e: Event, p: Proto): set<nat>
    requires ValidEvent(e)
  {
    if StampsOwnId(s, e, p) && e.whole.transport.value.id >= n
    then strays + {e.whole.transport.value.id as nat} else strays
  }

  /** One more than the last slot given. */
  function Reached(slots: seq<nat>): nat {
    if slots == [] then 0 else slots[|slots| - 1] + 1
  }

  ghost predicate Rising(slots: seq<nat>) {
    forall i, j | 0 <= i < j < |slots| :: slots[i] < slots[j]
  }

  /** Every slot below `n` has a flow or a stray stamp. */
  ghost predicate Covered(slots: seq<nat>, strays: set<nat>, n: nat) {
    forall x: nat | x < n :: x in strays || x in slots
  }

  /** From slot `n` on there are stray stamps only. */
  ghost predicate StraysFrom(stamps: seq<Stamp>, strays: set<nat>, n: nat) {
    forall x: nat | n <= x < |stamps| :: stamps[x] == Never || x in strays
  }

  /** The slots given rise, leave out none but stray ones, and the pointer is behind the last. */
  ghost predicate Spread(pool: Pool, p: Proto, slots: seq<nat>, strays: set<nat>) {
    && |pool.stamps| == PoolSize(p)
    && (p != ICMPv4 ==> strays == {})
    && Rising(slots) && Reached(slots) <= PoolSize(p)
    && Covered(slots, strays, Reached(slots))
    && StraysFrom(pool.stamps, strays, Reached(slots))
    && (Reached(slots) < PoolSize(p) ==> pool.next == Reached(slots))
  }

  lemma {:induction false} CoveredSize(slots: seq<nat>, strays: set<nat>, n: nat)
    requires Covered(slots, strays, n)
    ensures n <= |strays| + |slots|
    decreases n
  {
    if n > 0 {
      var x: nat := n - 1;
      if x in strays {
        CoveredSize(slots, strays - {x}, x);
      } else {
        var i :| 0 <= i < |slots| && slots[i] == x;
        var others := slots[..i] + slots[i + 1..];
        forall y: nat | y < x ensures y in strays || y in others {
          if y !in strays {
            var j :| 0 <= j < |slots| && slots[j] == y;
            assert others[if j < i then j else j - 1] == y;
          }
        }
        CoveredSize(others, strays, x);
      }
    }
  }

  lemma {:induction false} RisingReaches(slots: seq<nat>)
    requires Rising(slots)
    ensures |slots| <= Reached(slots)
  {
    if |slots| > 1 {
      RisingReaches(slots[..|slots| - 1]);
    }
  }

  lemma {:induction false} FindFirst(stamps: seq<Stamp>, n: nat, x: nat, now: int) returns (d: nat)
    requires n <= x < |stamps| && Idle(stamps[x], now)
    ensures FirstFrom(stamps, n, d, now)
    decreases x - n
  {
    d := n;
    if !Idle(stamps[n], now) {
      d := FindFirst(stamps, n + 1, x, now);
    }
  }

  /** While flows and strays together leave room, a new flow is given a slot behind all the others. */
  lemma SpreadRoom(pool: Pool, p: Proto, slots: seq<nat>, strays: set<nat>, now: int) returns (d: nat)
    requires Spread(pool, p, slots, strays) && |slots| + |strays| < PoolSize(p)
    ensures Reached(slots) <= d < PoolSize(p) && SlotOf(p, PoolBase(p) + d) == d
    ensures Take(pool, p, now) == (pool.(next := Wrap16(d + 1)), Some(PoolBase(p) + d))
    ensures Spread(Take(pool, p, now).0, p, WithSlot(slots, p, Take(pool, p, now).1), strays)
  {
    var x := FreeSlot(pool, p, slots, strays, now);
    hide Spread, Take, Idle, SlotOf, Reached, WithSlot;
    d := FindFirst(pool.stamps, Reached(slots), x, now);
    TakesFirst(pool, p, now, d);
    SpreadTaken(pool, p, slots, strays, now, d);
    WithSlotIs(slots, p, Take(pool, p, now).1, d);
  }

  /** Behind the slots given there is one that nobody has stamped. */
  lemma FreeSlot(pool: Pool, p: Proto, slots: seq<nat>, strays: set<nat>, now: int) returns (x: nat)
    requires Spread(pool, p, slots, strays) && |slots| + |strays| < PoolSize(p)
    ensures Reached(slots) <= x < |pool.stamps| == PoolSize(p) && Idle(pool.stamps[x], now)
    ensures pool.next == Reached(slots)
  {
    var n, size := Reached(slots), PoolSize(p);
    if forall x: nat | n <= x < size :: x in strays {
      assert Covered(slots, strays, size);
      hide *;
      CoveredSize(slots, strays, size);
      assert false;
    }
    x :| n <= x < size && x !in strays;
  }

  lemma WithSlotIs(slots: seq<nat>, p: Proto, v: Option<U16>, d: nat)
    requires v.Some? && SlotOf(p, v.value) == d
    ensures WithSlot(slots, p, v) == slots + [d]
  {
  }

  lemma SpreadTaken(pool: Pool, p: Proto, slots: seq<nat>, strays: set<nat>, now: int, d: nat)
    requires Spread(pool, p, slots, strays) && Reached(slots) <= d < PoolSize(p)
    requires forall j | Reached(slots) <= j < d :: !Idle(pool.stamps[j], now)
    ensures Spread(pool.(next := Wrap16(d + 1)), p, slots + [d], strays)
  {
    var n, more := Reached(slots), slots + [d];
    assert Rising(more) by {
      forall i, j | 0 <= i < j < |more| ensures more[i] < more[j] {
        assert i < |slots| - 1 ==> slots[i] < slots[|slots| - 1];
      }
    }
    forall x: nat | x < d + 1 ensures x in strays || x in more {
      if x == d {
        assert more[|slots|] == d;
      } else if x < n && x !in strays {
        var i :| 0 <= i < |slots| && slots[i] == x;
        assert more[i] == x;
      }
    }
  }

  lemma AskSpread(pool: Pool, p: Proto, slots: seq<nat>, strays: set<nat>, now: int)
    requires Spread(pool, p, slots, strays)
    requires |WithSlot(slots, p, Take(pool, p, now).1)| + |strays| <= PoolSize(p)
    ensures var (pool', v) := Take(pool, p, now);
            Spread(pool', p, WithSlot(slots, p, v), strays)
  {
    if |slots| + |strays| < PoolSize(p) {
      hide *;
      var d := SpreadRoom(pool, p, slots, strays, now);
    } else {
      assert Take(pool, p, now).1.None?;
      hide Take, Spread;
      AskNothing(pool, p, slots, strays, now);
    }
  }

  /** An allocation that fails. */
  lemma AskNothing(pool: Pool, p: Proto, slots: seq<nat>, strays: set<nat>, now: int)
    requires Spread(pool, p, slots, strays) && |pool.stamps| > 0 && Take(pool, p, now).1.None?
    requires |slots| + |strays| >= PoolSize(p)
    ensures Spread(Take(pool, p, now).0, p, slots, strays)
  {
    assert |pool.stamps| == PoolSize(p) && (p != ICMPv4 ==> strays == {});
    hide Spread, Take;
    if p == ICMPv4 {
      TakesNone(pool, now);
    } else {
      TakeMoves(pool, p, now);
      SpreadFull(pool, p, slots, strays, Take(pool, p, now).0.next);
    }
  }

  lemma TakeMoves(pool: Pool, p: Proto, now: int)
    requires |pool.stamps| > 0
    ensures Take(pool, p, now).0 == pool.(next := Take(pool, p, now).0.next)
  {
  }

  /** When every slot has a flow the pointer does not matter. */
  lemma SpreadFull(pool: Pool, p: Proto, slots: seq<nat>, strays: set<nat>, next: U16)
    requires Spread(pool, p, slots, strays) && |slots| >= PoolSize(p)
    ensures Spread(pool.(next := next), p, slots, strays)
  {
    RisingReaches(slots);
    hide Rising, Covered, StraysFrom;
  }

  lemma StampSpread(pool: Pool, p: Proto, slots: seq<nat>, strays: set<nat>, slot: nat, now: int)
    requires Spread(pool, p, slots, strays) && slot < |pool.stamps|
    ensures slot in slots || slot < |slots| ==> Spread(Stamped(pool, slot, now), p, slots, strays)
    ensures p == ICMPv4 ==> Spread(Stamped(pool, slot, now), p, slots, strays + {slot})
  {
    RisingReaches(slots);
    if slot in slots {
      var k :| 0 <= k < |slots| && slots[k] == slot;
      assert k < |slots| - 1 ==> slots[k] < slots[|slots| - 1];
    }
  }

  lemma WithStampSpread(pool: Pool, p: Proto, slots: seq<nat>, strays: set<nat>, slot: Option<nat>,
                        n: nat, s: State, e: Event)
    requires ValidEvent(e) && Spread(pool, p, slots, strays) && n <= |slots|
    requires slot.Some? ==> slot.value in slots || StampsOwnId(s, e, p)
    requires StampsOwnId(s, e, p) ==> slot == Some(e.whole.transport.value.id)
    ensures Spread(WithStamp(pool, slot, e.now), p, slots, Strayed(strays, n, s, e, p))
  {
    assert StampsOwnId(s, e, p) ==> p == ICMPv4;
    assert |pool.stamps| == PoolSize(p);
    hide Spread, StampsOwnId;
    if slot.Some? && slot.value < |pool.stamps| {
      StampSpread(pool, p, slots, strays, slot.value, e.now);
    }
  }

  lemma StepSpread(s: State, upIP: IP, e: Event, p: Proto, flows: seq<FlowKey>, strays: set<nat>)
    requires Inv(s, upIP) && ValidEvent(e) && Lists(s.pat, p, flows)
    requires Spread(PoolOf(s, p), p, Slots(s.pat, p, flows), strays)
    requires |WithNew(flows, NewFlow(s, upIP, e, p))| + |strays| <= PoolSize(p)
    ensures var s', flows' := Step(s, upIP, e), WithNew(flows, NewFlow(s, upIP, e, p));
            && Inv(s', upIP) && Lists(s'.pat, p, flows')
            && Spread(PoolOf(s', p), p, Slots(s'.pat, p, flows'), Strayed(strays, |flows|, s, e, p))
  {
    assert PoolsSized(s) && PatOk(s.pat);
    hide Inv, Lists, Slots, NewFlow, Step, Spread, StampedSlot, StampsOwnId, PoolsSized, PatOk;
    StepLists(s, upIP, e, p, flows);
    StepPool(s, upIP, e, p);
    StampOfFlow(s, upIP, e, p, WithNew(flows, NewFlow(s, upIP, e, p)));
    hide Asked;
    var slots := WithSlot(Slots(s.pat, p, flows), p, Asked(s, e, p).1);
    AskedSpread(s, e, p, Slots(s.pat, p, flows), strays);
    WithStampSpread(Asked(s, e, p).0, p, slots, strays, StampedSlot(s, upIP, e, p), |flows|, s, e);
  }

  lemma AskedSpread(s: State, e: Event, p: Proto, slots: seq<nat>, strays: set<nat>)
    requires PoolsSized(s) && ValidEvent(e) && Spread(PoolOf(s, p), p, slots, strays)
    requires |WithSlot(slots, p, Asked(s, e, p).1)| + |strays| <= PoolSize(p)
    ensures Spread(Asked(s, e, p).0, p, WithSlot(slots, p, Asked(s, e, p).1), strays)
  {
    hide Spread, Take, Asks;
    if Asks(s, e, p) {
      AskSpread(PoolOf(s, p), p, slots, strays, e.now);
    }
  }

  lemma {:induction false} RunSpread(upIP: IP, evs: seq<Event>, p: Proto)
    requires ValidRun(evs) && |Flows(upIP, evs, p)| + |Strays(upIP, evs, p)| <= PoolSize(p)
    ensures var s, flows := Run(upIP, evs), Flows(upIP, evs, p);
            && Lists(s.pat, p, flows)
            && Spread(PoolOf(s, p), p, Slots(s.pat, p, flows), Strays(upIP, evs, p))
  {
    if evs != [] {
      var init, e := evs[..|evs| - 1], evs[|evs| - 1];
      var s, flows, strays := Run(upIP, init), Flows(upIP, init, p), Strays(upIP, init, p);
      assert strays <= Strays(upIP, evs, p);
      SubsetSize(strays, Strays(upIP, evs, p));
      RunSpread(upIP, init, p);
      hide Spread, Lists, Slots, Strayed, Step, NewFlow;
      StepSpread(s, upIP, e, p, flows, strays);
    }
  }

  /** Isolation, for every run: more flows than ports share one; and none do as long as the flows
      and the stray Ids together are no more than the pool has. For TCP and UDP, where there are no
      stray Ids, that is exact. */
  lemma IsolationBound(upIP: IP, evs: seq<Event>, p: Proto)
    requires ValidRun(evs)
    ensures var flows, strays, pat := Flows(upIP, evs, p), Strays(upIP, evs, p), Run(upIP, evs).pat;
            && (|flows| > PoolSize(p) ==> !Injective(pat, p))
            && (|flows| + |strays| <= PoolSize(p) ==> Injective(pat, p))
            && (p != ICMPv4 ==> strays == {})
  {
    var pat, flows := Run(upIP, evs).pat, Flows(upIP, evs, p);
    RunLists(upIP, evs, p);
    hide Run, Flows, Lists, Slots, Injective, Reached, Covered, StraysFrom;
    if |flows| > PoolSize(p) && Injective(pat, p) {
      TooManyShare(pat, p, flows);
    }
    if |flows| + |Strays(upIP, evs, p)| <= PoolSize(p) {
      RunSpread(upIP, evs, p);
      DistinctSlots(pat, p, flows);
    }
  }

  /** And while they are fewer, the packet of a new flow is sent, from a port that no other flow has. */
  lemma NewFlowAlone(upIP: IP, evs: seq<Event>, p: Packet, conn: Conn, now: int)
    requires ValidRun(evs) && Parsed(p) && p.transport.Some? && !IsError(p.transport.value)
    requires var pr := ProtoOf(p.transport.value);
             |Flows(upIP, evs, pr)| + |Strays(upIP, evs, pr)| < PoolSize(pr)
    requires KeyOf(p, conn) !in Run(upIP, evs).pat
    ensures var pr, pat := ProtoOf(p.transport.value), Run(upIP, evs).pat;
            var r := Listen(Run(upIP, evs), upIP, p, conn, now, true).1;
            r.Sent? && forall q | q in pat && q.proto == pr :: pat[q] != r.value
  {
    var s, pr := Run(upIP, evs), ProtoOf(p.transport.value);
    RunSpread(upIP, evs, pr);
    hide Run, Flows, Strays, Spread, Lists, Slots, Listen, Take;
    var flows := Flows(upIP, evs, pr);
    var slots := Slots(s.pat, pr, flows);
    var d := SpreadRoom(PoolOf(s, pr), pr, slots, Strays(upIP, evs, pr), now);
    BehindAll(PoolOf(s, pr), pr, slots, Strays(upIP, evs, pr));
    forall q | q in s.pat && q.proto == pr ensures s.pat[q] != PoolBase(pr) + d {
      SlotListed(s.pat, pr, flows, q);
    }
    KeyFits(p, conn);
    ListenStages(s, upIP, p, conn, now, true);
  }

  lemma BehindAll(pool: Pool, p: Proto, slots: seq<nat>, strays: set<nat>)
    requires Spread(pool, p, slots, strays)
    ensures forall x | x in slots :: x < Reached(slots)
  {
  }
}
