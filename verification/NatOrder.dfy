/**
  * The order in which ports and Ids are handed out, and when two flows share one.
  */
module NatOrder {
  import opened Words
  import opened Packets
  import opened Ports
  import opened Nat
  import opened NatRuns
  import opened NatFlows

  /** The stamps that errors leave in the pool of protocol `p`: a delivered inbound error stamps the
      Id of its own header. For TCP and UDP there are none. */
  ghost function Marks(upIP: IP, evs: seq<Event>, p: Proto): (marks: seq<Stamp>)
    requires ValidRun(evs)
    ensures |marks| == PoolSize(p)
    ensures p != ICMPv4 ==> forall i | 0 <= i < |marks| :: marks[i] == Never
  {
    if evs == [] then FreshPool(p).stamps
    else
      var init, e := evs[..|evs| - 1], evs[|evs| - 1];
      Marked(Marks(upIP, init, p), Run(upIP, init), e, p)
  }

  ghost function Marked(marks: seq<Stamp>, s: State, e: Event, p: Proto): seq<Stamp>
    requires ValidEvent(e) && |marks| == PoolSize(p)
  {
    if StampsOwnId(s, e, p) then marks[e.whole.transport.value.id := At(e.now)] else marks
  }

  /** Whenever the run enters flow number k, and there is a slot number k, an error has not stamped
      this slot within KEEP_ALIVE. */
  ghost predicate Punctual(upIP: IP, evs: seq<Event>, p: Proto)
    requires ValidRun(evs)
  {
    forall i | 0 <= i < |evs| :: EntersInOrder(upIP, evs[..i], evs[i], p)
  }

  ghost predicate EntersInOrder(upIP: IP, evs: seq<Event>, e: Event, p: Proto)
    requires ValidRun(evs) && ValidEvent(e)
  {
    var k := |Flows(upIP, evs, p)|;
    NewFlow(Run(upIP, evs), upIP, e, p).Some? && k < PoolSize(p) ==> Idle(Marks(upIP, evs, p)[k], e.now)
  }

  lemma PunctualSnoc(upIP: IP, evs: seq<Event>, p: Proto)
    requires ValidRun(evs) && evs != []
    ensures var init := evs[..|evs| - 1];
            Punctual(upIP, evs, p) <==> Punctual(upIP, init, p) && EntersInOrder(upIP, init, evs[|evs| - 1], p)
  {
    hide EntersInOrder;
    var init := evs[..|evs| - 1];
    assert forall i | 0 <= i < |init| :: init[..i] == evs[..i] && init[i] == evs[i];
  }

  /** The first flows, as many as there are slots, have their slots in order of entry. */
  ghost predicate Numbered(slots: seq<nat>, size: nat) {
    forall k | 0 <= k < |slots| && k < size :: slots[k] == k
  }

  /** The slots that no flow has reached yet have the stamps of errors only, and the pointer is at
      the first of them. */
  ghost predicate Untouched(pool: Pool, marks: seq<Stamp>, n: nat)
    requires |pool.stamps| == |marks|
  {
    && (forall i | n <= i < |marks| :: pool.stamps[i] == marks[i])
    && (n < |marks| ==> pool.next == n)
  }

  ghost predicate InOrder(pool: Pool, p: Proto, slots: seq<nat>, marks: seq<Stamp>) {
    && |pool.stamps| == |marks| == PoolSize(p)
    && (p != ICMPv4 ==> forall i | 0 <= i < |marks| :: marks[i] == Never)
    && Numbered(slots, PoolSize(p))
    && Untouched(pool, marks, |slots|)
  }

  lemma SlotAhead(next: U16, e: nat, size: nat)
    requires next + e < size
    ensures Slot(next, e, size) == next + e
  {
    SmallMod(next + e, size);
  }

  /** The scan gets to the first idle slot from the pointer on, if it gets anywhere. */
  lemma StepsTo(stamps: seq<Stamp>, next: U16, now: int, d: nat, steps: nat)
    requires next <= d < |stamps| && Idle(stamps[d], now)
    requires forall j | next <= j < d :: !Idle(stamps[j], now)
    requires forall e: nat | e < steps :: !Idle(stamps[Slot(next, e, |stamps|)], now)
    requires steps < |stamps| ==> Idle(stamps[Slot(next, steps, |stamps|)], now)
    ensures steps == d - next
  {
    hide Slot, Idle;
    SlotAhead(next, d - next, |stamps|);
    if steps < d - next {
      SlotAhead(next, steps, |stamps|);
    }
  }

  /** The first idle slot from the pointer on is taken. */
  lemma TakesFirst(pool: Pool, p: Proto, now: int, d: nat)
    requires pool.next <= d < |pool.stamps| == PoolSize(p)
    requires Idle(pool.stamps[d], now) && forall j | pool.next <= j < d :: !Idle(pool.stamps[j], now)
    ensures Take(pool, p, now) == (pool.(next := Wrap16(d + 1)), Some(PoolBase(p) + d))
    ensures SlotOf(p, PoolBase(p) + d) == d
  {
    SlotRoundTrip(p, d);
    SlotAhead(pool.next, d - pool.next, |pool.stamps|);
    hide Slot, Idle, Scan, SlotOf;
    var steps := ScanFindsFirst(pool.stamps, pool.next, now, |pool.stamps|);
    StepsTo(pool.stamps, pool.next, now, d, steps);
  }

  /** An allocation that fails is a full lap, which leaves the pointer of the Ids where it is. */
  lemma TakesNone(pool: Pool, now: int)
    requires |pool.stamps| == ID_POOL && Take(pool, ICMPv4, now).1.None?
    ensures Take(pool, ICMPv4, now).0 == pool
  {
    FullLap(pool.next);
    hide Scan, AllBusy, FirstIdle, Wrap16;
    ScanComplete(pool.stamps, pool.next, now);
  }

  lemma FullLap(next: U16)
    ensures Wrap16(next + ID_POOL) == next
  {
  }

  lemma AskInOrder(pool: Pool, p: Proto, slots: seq<nat>, marks: seq<Stamp>, now: int)
    requires InOrder(pool, p, slots, marks)
    requires var v := Take(pool, p, now).1;
             v.Some? && |slots| < PoolSize(p) ==> Idle(marks[|slots|], now)
    ensures var (pool', v) := Take(pool, p, now);
            InOrder(pool', p, WithSlot(slots, p, v), marks)
  {
    TakeInPool(pool, p, now);
    if |slots| < PoolSize(p) {
      if Idle(pool.stamps[|slots|], now) {
        TakesFirst(pool, p, now, |slots|);
        hide Take;
        TakenInOrder(pool, p, slots, marks);
      } else {
        assert p == ICMPv4;
        TakesNone(pool, now);
        hide Take;
      }
    } else {
      hide Take, Idle, AllBusy;
    }
  }

  lemma TakenInOrder(pool: Pool, p: Proto, slots: seq<nat>, marks: seq<Stamp>)
    requires InOrder(pool, p, slots, marks) && |slots| < PoolSize(p)
    ensures InOrder(pool.(next := Wrap16(|slots| + 1)), p, slots + [|slots|], marks)
  {
  }

  lemma StampInOrder(pool: Pool, p: Proto, slots: seq<nat>, marks: seq<Stamp>, slot: nat, now: int)
    requires InOrder(pool, p, slots, marks) && slot < |pool.stamps|
    ensures slot in slots ==> InOrder(Stamped(pool, slot, now), p, slots, marks)
    ensures p == ICMPv4 ==> InOrder(Stamped(pool, slot, now), p, slots, marks[slot := At(now)])
  {
    if slot in slots && |slots| < PoolSize(p) {
      var k :| 0 <= k < |slots| && slots[k] == slot;
      assert slot == k;
    }
  }

  lemma InOrderSizes(pool: Pool, p: Proto, slots: seq<nat>, marks: seq<Stamp>)
    requires InOrder(pool, p, slots, marks)
    ensures |pool.stamps| == |marks| == PoolSize(p)
  {
  }

  /** One event keeps the order, if the flow that it enters, if any, enters in order. */
  lemma StepInOrder(s: State, upIP: IP, e: Event, p: Proto, flows: seq<FlowKey>, marks: seq<Stamp>)
    requires Inv(s, upIP) && ValidEvent(e) && Lists(s.pat, p, flows)
    requires InOrder(PoolOf(s, p), p, Slots(s.pat, p, flows), marks)
    requires NewFlow(s, upIP, e, p).Some? && |flows| < PoolSize(p) ==> Idle(marks[|flows|], e.now)
    ensures var s', flows' := Step(s, upIP, e), WithNew(flows, NewFlow(s, upIP, e, p));
            && Inv(s', upIP) && Lists(s'.pat, p, flows')
            && InOrder(PoolOf(s', p), p, Slots(s'.pat, p, flows'), Marked(marks, s, e, p))
  {
    assert PoolsSized(s) && PatOk(s.pat);
    hide Inv, Lists, Slots, NewFlow, Step, InOrder, Idle, StampedSlot, StampsOwnId, PoolsSized, PatOk;
    StepLists(s, upIP, e, p, flows);
    StepPool(s, upIP, e, p);
    InOrderSizes(PoolOf(s, p), p, Slots(s.pat, p, flows), marks);
    var flows' := WithNew(flows, NewFlow(s, upIP, e, p));
    StampOfFlow(s, upIP, e, p, flows');
    hide Asked;
    AskedInOrder(s, e, p, Slots(s.pat, p, flows), marks);
    WithStampInOrder(Asked(s, e, p).0, p, WithSlot(Slots(s.pat, p, flows), p, Asked(s, e, p).1), marks,
                     StampedSlot(s, upIP, e, p), s, e);
  }

  lemma AskedInOrder(s: State, e: Event, p: Proto, slots: seq<nat>, marks: seq<Stamp>)
    requires PoolsSized(s) && ValidEvent(e) && InOrder(PoolOf(s, p), p, slots, marks)
    requires Asked(s, e, p).1.Some? && |slots| < PoolSize(p) ==> |marks| == PoolSize(p) && Idle(marks[|slots|], e.now)
    ensures InOrder(Asked(s, e, p).0, p, WithSlot(slots, p, Asked(s, e, p).1), marks)
  {
    InOrderSizes(PoolOf(s, p), p, slots, marks);
    hide InOrder, Take, Asks;
    if Asks(s, e, p) {
      AskInOrder(PoolOf(s, p), p, slots, marks, e.now);
    }
  }

  lemma WithStampInOrder(pool: Pool, p: Proto, slots: seq<nat>, marks: seq<Stamp>, slot: Option<nat>,
                         s: State, e: Event)
    requires ValidEvent(e) && InOrder(pool, p, slots, marks) && |marks| == PoolSize(p)
    requires slot.Some? ==> slot.value in slots || StampsOwnId(s, e, p)
    requires StampsOwnId(s, e, p) ==> slot == Some(e.whole.transport.value.id)
    ensures InOrder(WithStamp(pool, slot, e.now), p, slots, Marked(marks, s, e, p))
  {
    assert StampsOwnId(s, e, p) ==> p == ICMPv4;
    assert |pool.stamps| == |marks|;
    hide InOrder, StampsOwnId;
    if slot.Some? && slot.value < |pool.stamps| {
      StampInOrder(pool, p, slots, marks, slot.value, e.now);
    }
  }

  lemma {:induction false} RunInOrder(upIP: IP, evs: seq<Event>, p: Proto)
    requires ValidRun(evs) && Punctual(upIP, evs, p)
    ensures var s, flows := Run(upIP, evs), Flows(upIP, evs, p);
            && Lists(s.pat, p, flows)
            && InOrder(PoolOf(s, p), p, Slots(s.pat, p, flows), Marks(upIP, evs, p))
  {
    if evs != [] {
      var init, e := evs[..|evs| - 1], evs[|evs| - 1];
      PunctualSnoc(upIP, evs, p);
      RunInOrder(upIP, init, p);
      hide Punctual, InOrder, Lists, Slots, Marked, Step, NewFlow;
      StepInOrder(Run(upIP, init), upIP, e, p, Flows(upIP, init, p), Marks(upIP, init, p));
    }
  }

  /** Flow number k has port or Id number k, for every slot of the pool. */
  ghost predicate KthHasKth(pat: map<FlowKey, U16>, p: Proto, flows: seq<FlowKey>) {
    forall k | 0 <= k < |flows| && k < PoolSize(p) :: flows[k] in pat && pat[flows[k]] == PoolBase(p) + k
  }

  lemma KthIffNumbered(pat: map<FlowKey, U16>, p: Proto, flows: seq<FlowKey>)
    requires PatOk(pat) && Lists(pat, p, flows)
    ensures KthHasKth(pat, p, flows) <==> Numbered(Slots(pat, p, flows), PoolSize(p))
  {
    var slots := Slots(pat, p, flows);
    assert forall k | 0 <= k < |flows| :: slots[k] == pat[flows[k]] - PoolBase(p) && flows[k] in pat;
    hide Slots, Lists;
  }

  /** A flow that is entered in order finds its slot idle. */
  lemma GivenIdle(s: State, upIP: IP, e: Event, p: Proto, flows: seq<FlowKey>, marks: seq<Stamp>)
    requires Inv(s, upIP) && ValidEvent(e) && Lists(s.pat, p, flows)
    requires InOrder(PoolOf(s, p), p, Slots(s.pat, p, flows), marks)
    requires Numbered(WithSlot(Slots(s.pat, p, flows), p, Asked(s, e, p).1), PoolSize(p))
    requires Asked(s, e, p).1.Some? && |flows| < PoolSize(p)
    ensures Idle(marks[|flows|], e.now)
  {
    var slots, v := Slots(s.pat, p, flows), Asked(s, e, p).1;
    TakeInPool(PoolOf(s, p), p, e.now);
    assert WithSlot(slots, p, v)[|flows|] == SlotOf(p, v.value);
    hide Take, Idle, AllBusy, Slots, Lists, Inv;
  }

  lemma {:induction false} NumberedPunctual(upIP: IP, evs: seq<Event>, p: Proto)
    requires ValidRun(evs) && Lists(Run(upIP, evs).pat, p, Flows(upIP, evs, p))
    requires Numbered(Slots(Run(upIP, evs).pat, p, Flows(upIP, evs, p)), PoolSize(p))
    ensures Punctual(upIP, evs, p)
  {
    if evs != [] {
      var init, e := evs[..|evs| - 1], evs[|evs| - 1];
      var s, flows := Run(upIP, init), Flows(upIP, init, p);
      RunLists(upIP, init, p);
      StepLists(s, upIP, e, p, flows);
      PunctualSnoc(upIP, evs, p);
      hide Lists, Slots, Step, NewFlow, Asked, Punctual, InOrder, Marks;
      assert Flows(upIP, evs, p) == WithNew(flows, NewFlow(s, upIP, e, p));
      NumberedPrefix(Slots(s.pat, p, flows), p, Asked(s, e, p).1);
      NumberedPunctual(upIP, init, p);
      RunInOrder(upIP, init, p);
      if NewFlow(s, upIP, e, p).Some? && |flows| < PoolSize(p) {
        GivenIdle(s, upIP, e, p, flows, Marks(upIP, init, p));
      }
    }
  }

  lemma NumberedPrefix(slots: seq<nat>, p: Proto, v: Option<U16>)
    requires Numbered(WithSlot(slots, p, v), PoolSize(p))
    ensures Numbered(slots, PoolSize(p))
  {
    assert forall k | 0 <= k < |slots| :: WithSlot(slots, p, v)[k] == slots[k];
  }

  /** Exactly when the ports and Ids are handed out in order of entry: no flow is entered while the
      stamp of an error keeps its slot busy. */
  lemma InOrderIffPunctual(upIP: IP, evs: seq<Event>, p: Proto)
    requires ValidRun(evs)
    ensures Punctual(upIP, evs, p) <==> KthHasKth(Run(upIP, evs).pat, p, Flows(upIP, evs, p))
  {
    RunLists(upIP, evs, p);
    KthIffNumbered(Run(upIP, evs).pat, p, Flows(upIP, evs, p));
    hide Lists, Slots, KthHasKth;
    if Punctual(upIP, evs, p) {
      RunInOrder(upIP, evs, p);
    } else if KthHasKth(Run(upIP, evs).pat, p, Flows(upIP, evs, p)) {
      NumberedPunctual(upIP, evs, p);
    }
  }

  /** For ports it is never otherwise, since errors stamp Ids only. */
  lemma PortsInOrder(upIP: IP, evs: seq<Event>, p: Proto)
    requires ValidRun(evs) && p != ICMPv4
    ensures Punctual(upIP, evs, p)
  {
    forall i | 0 <= i < |evs| ensures EntersInOrder(upIP, evs[..i], evs[i], p) {
      var marks := Marks(upIP, evs[..i], p);
      hide Marks, Flows, NewFlow, Run;
    }
  }

  // ------------------------------------------------------------ the next flow

  /** The first idle stamp from number `k` on. */
  ghost predicate FirstFrom(marks: seq<Stamp>, k: nat, d: nat, now: int) {
    && k <= d < |marks| && Idle(marks[d], now)
    && forall j | k <= j < d :: !Idle(marks[j], now)
  }

  /** What a new flow is given while there is a slot that no flow has: port or Id number k, for flow
      number k, exactly when no error has stamped it within KEEP_ALIVE; and otherwise the next one
      that no error has, if there is one. */
  lemma KthFlowGetsKthPort(upIP: IP, evs: seq<Event>, p: Packet, conn: Conn, now: int)
    requires ValidRun(evs) && Parsed(p) && p.transport.Some? && !IsError(p.transport.value)
    requires var pr := ProtoOf(p.transport.value);
             Punctual(upIP, evs, pr) && |Flows(upIP, evs, pr)| < PoolSize(pr)
    requires KeyOf(p, conn) !in Run(upIP, evs).pat
    ensures var pr := ProtoOf(p.transport.value);
            var k, marks := |Flows(upIP, evs, pr)|, Marks(upIP, evs, pr);
            var r := Listen(Run(upIP, evs), upIP, p, conn, now, true).1;
            && (r.Sent? && r.value == PoolBase(pr) + k <==> Idle(marks[k], now))
            && (forall d | FirstFrom(marks, k, d, now) :: r.Sent? && r.value == PoolBase(pr) + d)
  {
    var pr := ProtoOf(p.transport.value);
    RunInOrder(upIP, evs, pr);
    hide Run, Flows, InOrder, Punctual, Marks;
    NewFlowTakes(Run(upIP, evs), upIP, p, conn, now, Flows(upIP, evs, pr), Marks(upIP, evs, pr));
  }

  lemma NewFlowTakes(s: State, upIP: IP, p: Packet, conn: Conn, now: int, flows: seq<FlowKey>, marks: seq<Stamp>)
    requires Inv(s, upIP) && Parsed(p) && p.transport.Some? && !IsError(p.transport.value)
    requires KeyOf(p, conn) !in s.pat
    requires var pr := ProtoOf(p.transport.value);
             && Lists(s.pat, pr, flows) && |flows| < PoolSize(pr)
             && InOrder(PoolOf(s, pr), pr, Slots(s.pat, pr, flows), marks)
    ensures var pr := ProtoOf(p.transport.value);
            var k, r := |flows|, Listen(s, upIP, p, conn, now, true).1;
            && |marks| == PoolSize(pr)
            && (r.Sent? && r.value == PoolBase(pr) + k <==> Idle(marks[k], now))
            && (forall d | FirstFrom(marks, k, d, now) :: r.Sent? && r.value == PoolBase(pr) + d)
  {
    var pr := ProtoOf(p.transport.value);
    KeyFits(p, conn);
    ListenStages(s, upIP, p, conn, now, true);
    PoolTakes(PoolOf(s, pr), pr, now, Slots(s.pat, pr, flows), marks);
    hide Listen, Take, Slots, InOrder, FirstFrom, Idle, Inv, Lists, KeyOf;
  }

  lemma PoolTakes(pool: Pool, p: Proto, now: int, slots: seq<nat>, marks: seq<Stamp>)
    requires InOrder(pool, p, slots, marks) && |slots| < PoolSize(p)
    ensures var k, v := |slots|, Take(pool, p, now).1;
            && |pool.stamps| == |marks| == PoolSize(p)
            && (v == Some(PoolBase(p) + k) <==> Idle(marks[k], now))
            && (forall d | FirstFrom(marks, k, d, now) :: v == Some(PoolBase(p) + d))
  {
    var k, v := |slots|, Take(pool, p, now).1;
    TakeInPool(pool, p, now);
    SlotRoundTrip(p, k);
    hide Take, Idle, AllBusy;
    forall d | FirstFrom(marks, k, d, now) ensures v == Some(PoolBase(p) + d) {
      TakesFirst(pool, p, now, d);
    }
    if Idle(marks[k], now) {
      assert FirstFrom(marks, k, k, now);
    }
  }

  /** An input for which it is not the k-th: an error is delivered whose own Id is the next one in
      order, and a query flow comes before the stamp is old. */
  lemma InboundErrorSkipsAnId(upIP: IP, evs: seq<Event>, error: Event, p: Packet, conn: Conn, now: int)
    requires ValidRun(evs) && Punctual(upIP, evs, ICMPv4)
    requires ValidEvent(error) && StampsOwnId(Run(upIP, evs), error, ICMPv4)
    requires error.whole.transport.value.id == |Flows(upIP, evs, ICMPv4)| && now - error.now <= KEEP_ALIVE
    requires Parsed(p) && p.transport.Some? && IsQuery(p.transport.value)
    requires KeyOf(p, conn) !in Run(upIP, evs).pat
    ensures ValidRun(evs + [error])
    ensures var k := |Flows(upIP, evs, ICMPv4)|;
            var r := Listen(Run(upIP, evs + [error]), upIP, p, conn, now, true).1;
            && !(r.Sent? && r.value == k)
            && (k + 1 < ID_POOL && Idle(Marks(upIP, evs, ICMPv4)[k + 1], now) ==> r.Sent? && r.value == k + 1)
  {
    hide Run, Flows, Marks, Punctual, Listen, FirstFrom, Idle;
    var all, marks := evs + [error], Marks(upIP, evs, ICMPv4);
    ErrorOnly(upIP, evs, error);
    assert Marks(upIP, all, ICMPv4) == marks[error.whole.transport.value.id := At(error.now)];
    hide StampsOwnId, Marked;
    KthFlowGetsKthPort(upIP, all, p, conn, now);
    BusyMark(marks, error.whole.transport.value.id, error.now, now);
  }

  lemma BusyMark(marks: seq<Stamp>, k: nat, at: int, now: int)
    requires k < |marks| && now - at <= KEEP_ALIVE
    ensures var marks' := marks[k := At(at)];
            && !Idle(marks'[k], now)
            && (k + 1 < |marks| && Idle(marks[k + 1], now) ==> FirstFrom(marks', k, k + 1, now))
  {
  }

  /** An inbound error enters no flow. */
  lemma ErrorOnly(upIP: IP, evs: seq<Event>, error: Event)
    requires ValidRun(evs) && ValidEvent(error) && error.Inbound? && Punctual(upIP, evs, ICMPv4)
    ensures var all := evs + [error];
            && ValidRun(all) && Punctual(upIP, all, ICMPv4)
            && Run(upIP, all).pat == Run(upIP, evs).pat
            && Flows(upIP, all, ICMPv4) == Flows(upIP, evs, ICMPv4)
            && Marks(upIP, all, ICMPv4) == Marked(Marks(upIP, evs, ICMPv4), Run(upIP, evs), error, ICMPv4)
  {
    var all := evs + [error];
    assert all[..|evs|] == evs;
    RunSnoc(upIP, evs, error);
    UpstreamKeepsInv(Run(upIP, evs), upIP, error.whole, error.frags, error.now);
    PunctualSnoc(upIP, all, ICMPv4);
    hide Punctual, Upstream, Marked;
  }

  // ------------------------------------------------------------ sharing

  /** No two flows share a port exactly when no more flows than ports have been entered. */
  lemma IsolationIffEnoughPorts(upIP: IP, evs: seq<Event>, p: Proto)
    requires ValidRun(evs) && Punctual(upIP, evs, p)
    ensures Injective(Run(upIP, evs).pat, p) <==> |Flows(upIP, evs, p)| <= PoolSize(p)
  {
    var pat, flows := Run(upIP, evs).pat, Flows(upIP, evs, p);
    RunInOrder(upIP, evs, p);
    hide Run, Flows, Punctual, Marks, Lists, Slots, Untouched, Injective;
    if |flows| <= PoolSize(p) {
      DistinctSlots(pat, p, flows);
    } else if Injective(pat, p) {
      TooManyShare(pat, p, flows);
    }
  }

  /** How two flows come to share a port: when every port has a flow, the packet of one more is
      refused while all ports are busy, and is otherwise sent from a port that another flow has. */
  lemma FullPoolShares(upIP: IP, evs: seq<Event>, p: Packet, conn: Conn, now: int)
    requires ValidRun(evs) && Parsed(p) && p.transport.Some? && !IsError(p.transport.value)
    requires var pr := ProtoOf(p.transport.value);
             Punctual(upIP, evs, pr) && |Flows(upIP, evs, pr)| >= PoolSize(pr)
    requires KeyOf(p, conn) !in Run(upIP, evs).pat
    ensures var pr := ProtoOf(p.transport.value);
            var s, flows := Run(upIP, evs), Flows(upIP, evs, pr);
            var r := Listen(s, upIP, p, conn, now, true).1;
            && (r.Sent? <==> !AllBusy(PoolOf(s, pr).stamps, now))
            && (r.Sent? ==>
                  var k := r.value - PoolBase(pr);
                  && 0 <= k < |flows| && flows[k] in s.pat && s.pat[flows[k]] == r.value
                  && flows[k] != KeyOf(p, conn))
  {
    var pr := ProtoOf(p.transport.value);
    InOrderIffPunctual(upIP, evs, pr);
    hide Run, Flows, Punctual, KthHasKth;
    SharesAPort(Run(upIP, evs), upIP, p, conn, now, Flows(upIP, evs, pr));
  }

  lemma SharesAPort(s: State, upIP: IP, p: Packet, conn: Conn, now: int, flows: seq<FlowKey>)
    requires Inv(s, upIP) && Parsed(p) && p.transport.Some? && !IsError(p.transport.value)
    requires var pr := ProtoOf(p.transport.value); KthHasKth(s.pat, pr, flows) && |flows| >= PoolSize(pr)
    requires KeyOf(p, conn) !in s.pat
    ensures var pr := ProtoOf(p.transport.value);
            var r := Listen(s, upIP, p, conn, now, true).1;
            && (r.Sent? <==> !AllBusy(PoolOf(s, pr).stamps, now))
            && (r.Sent? ==>
                  var k := r.value - PoolBase(pr);
                  && 0 <= k < |flows| && flows[k] in s.pat && s.pat[flows[k]] == r.value
                  && flows[k] != KeyOf(p, conn))
  {
    var pr := ProtoOf(p.transport.value);
    KeyFits(p, conn);
    ListenStages(s, upIP, p, conn, now, true);
    TakeInPool(PoolOf(s, pr), pr, now);
    hide Take, Listen, AllBusy, Idle, KeyOf;
  }

  /** With enough ports, a delivered reply reaches the one flow that owns the port, even when two
      clients use the same inner endpoint. */
  lemma ReplyReachesOwner(upIP: IP, evs: seq<Event>, reply: Packet, now: int)
    requires ValidRun(evs) && Parsed(reply) && reply.transport.Some? && !IsError(reply.transport.value)
    requires var p := ProtoOf(reply.transport.value);
             Punctual(upIP, evs, p) && |Flows(upIP, evs, p)| <= PoolSize(p)
    requires Upstream(Run(upIP, evs), reply, [reply], now).1.Delivered?
    ensures var p := ProtoOf(reply.transport.value);
            var r := Upstream(Run(upIP, evs), reply, [reply], now).1;
            var k := ValueOf(GuideOf(reply).src) - PoolBase(p);
            && 0 <= k < |Flows(upIP, evs, p)|
            && |r.packets| == 1 && r.packets[0].transport.Some?
            && Flows(upIP, evs, p)[k]
               == FlowKey(Text(DstEndpoint(r.packets[0].ip, r.packets[0].transport.value)), r.conn.remote, p)
  {
    var p := ProtoOf(reply.transport.value);
    RunLists(upIP, evs, p);
    InOrderIffPunctual(upIP, evs, p);
    hide Run, Flows, Punctual, KthHasKth, Lists;
    OwnerGetsReply(Run(upIP, evs), upIP, reply, now, Flows(upIP, evs, p));
  }

  lemma OwnerGetsReply(s: State, upIP: IP, reply: Packet, now: int, flows: seq<FlowKey>)
    requires Inv(s, upIP) && Parsed(reply) && reply.transport.Some? && !IsError(reply.transport.value)
    requires var p := ProtoOf(reply.transport.value);
             Lists(s.pat, p, flows) && KthHasKth(s.pat, p, flows) && |flows| <= PoolSize(p)
    requires Upstream(s, reply, [reply], now).1.Delivered?
    ensures var p := ProtoOf(reply.transport.value);
            var r := Upstream(s, reply, [reply], now).1;
            var k := ValueOf(GuideOf(reply).src) - PoolBase(p);
            && 0 <= k < |flows|
            && |r.packets| == 1 && r.packets[0].transport.Some?
            && flows[k] == FlowKey(Text(DstEndpoint(r.packets[0].ip, r.packets[0].transport.value)), r.conn.remote, p)
  {
    var g := GuideOf(reply);
    UpstreamDelivers(s, upIP, reply, [reply], now);
    hide Upstream;
    var entry := s.table[g];
    assert Coherent(s.pat, upIP, g, entry);
    assert FlowKey(Text(entry.embSrc), entry.src, g.proto) in flows;
  }
}
