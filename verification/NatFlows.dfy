/**
  * The flows of a run: which ones an event enters into `patMap`, what it does to the pool of their
  * protocol, how many there can be, and how long a port is kept.
  */
module NatFlows {
  import opened Words
  import opened Packets
  import opened Ports
  import opened Nat
  import opened NatRuns

  /** The flow of protocol `p` that an event enters into `patMap`, if it enters one. */
  ghost function NewFlow(s: State, upIP: IP, e: Event, p: Proto): Option<FlowKey>
    requires PoolsSized(s) && ValidEvent(e)
  {
    if e.Inbound? || e.packet.transport.None? || QuotesUnsupported(e.packet.transport.value) then None
    else
      var key := KeyOf(e.packet, e.conn);
      if key.proto == p && key !in s.pat && key in Step(s, upIP, e).pat then Some(key) else None
  }

  /** The flows of one protocol in the order in which a run enters them. */
  ghost function Flows(upIP: IP, evs: seq<Event>, p: Proto): seq<FlowKey>
    requires ValidRun(evs)
  {
    if evs == [] then []
    else
      var init, e := evs[..|evs| - 1], evs[|evs| - 1];
      var k := NewFlow(Run(upIP, init), upIP, e, p);
      if k.Some? then Flows(upIP, init, p) + [k.value] else Flows(upIP, init, p)
  }

  ghost predicate Lists(pat: map<FlowKey, U16>, p: Proto, flows: seq<FlowKey>) {
    && (forall i, j | 0 <= i < j < |flows| :: flows[i] != flows[j])
    && (forall q | q in pat && q.proto == p :: q in flows)
    && (forall i | 0 <= i < |flows| :: flows[i] in pat && flows[i].proto == p)
  }

  lemma ListsSnoc(pat: map<FlowKey, U16>, key: FlowKey, v: U16, flows: seq<FlowKey>)
    requires Lists(pat, key.proto, flows) && key !in pat
    ensures Lists(pat[key := v], key.proto, flows + [key])
  {
    forall q | q in pat[key := v] && q.proto == key.proto ensures q in flows + [key] {
      if q != key {
        assert q in flows;
      }
    }
  }

  /** The slots of the flows, in the order in which they were entered. */
  ghost function Slots(pat: map<FlowKey, U16>, p: Proto, flows: seq<FlowKey>): (slots: seq<nat>)
    requires PatOk(pat) && Lists(pat, p, flows)
    ensures |slots| == |flows|
    ensures forall k | 0 <= k < |flows| ::
              slots[k] == SlotOf(p, pat[flows[k]]) == pat[flows[k]] - PoolBase(p) < PoolSize(p)
  {
    assert forall k | 0 <= k < |flows| :: InPool(flows[k].proto, pat[flows[k]]);
    seq(|flows|, k requires 0 <= k < |flows| => SlotOf(p, pat[flows[k]]))
  }

  /** The pool of protocol `p` and `patMap` after a handled outbound packet. */
  lemma ListenPools(s: State, upIP: IP, packet: Packet, conn: Conn, now: int, wrote: bool, p: Proto)
    requires Inv(s, upIP) && Parsed(packet)
    requires packet.transport.Some? && !QuotesUnsupported(packet.transport.value)
    ensures var key := KeyOf(packet, conn);
            var (s', r) := Listen(s, upIP, packet, conn, now, wrote);
            var (pool, v) := Take(PoolOf(s, key.proto), key.proto, now);
            var isNew := key !in s.pat && !IsError(packet.transport.value);
            var pool1 := if isNew && p == key.proto then pool else PoolOf(s, p);
            && s'.pat == (if isNew && v.Some? then s.pat[key := v.value] else s.pat)
            && (if r.Sent? && p == key.proto
                then key in s'.pat && SlotOf(p, s'.pat[key]) < |pool1.stamps|
                     && PoolOf(s', p) == Stamped(pool1, SlotOf(p, s'.pat[key]), now)
                else PoolOf(s', p) == pool1)
  {
    KeyFits(packet, conn);
    ListenStages(s, upIP, packet, conn, now, wrote);
    AssignGrows(s, packet.transport.value, KeyOf(packet, conn), now);
    hide Listen, Take, PacketOut, PatOk, Coherent, KeyOf, Parsed, QuotesUnsupported, IsError, NATProtocol, ProtoOf;
  }

  /** The pool of protocol `p` after a handled inbound packet: a delivered one stamps one slot. */
  lemma UpstreamPools(s: State, upIP: IP, whole: Packet, frags: seq<Packet>, now: int, p: Proto)
    requires Inv(s, upIP) && Arrived(whole, frags)
    ensures var (s', r) := Upstream(s, whole, frags, now);
            var t := whole.transport.value;
            && s'.pat == s.pat
            && (if r.Delivered? && p == ProtoOf(t)
                then KeptAlive(t).Some? && SlotOf(p, KeptAlive(t).value) < |PoolOf(s, p).stamps|
                     && PoolOf(s', p) == Stamped(PoolOf(s, p), SlotOf(p, KeptAlive(t).value), now)
                else PoolOf(s', p) == PoolOf(s, p))
  {
    UpstreamKeepsInv(s, upIP, whole, frags, now);
    if !QuotesUnsupported(whole.transport.value) && GuideOf(whole) in s.table {
      FoundEntryFits(s, upIP, whole);
    }
  }

  // ------------------------------------------------------------ what an event does to one pool

  /** An inbound error that is delivered, seen from the pool of `p`: it stamps the Id of its own header. */
  ghost predicate StampsOwnId(s: State, e: Event, p: Proto)
    requires ValidEvent(e)
  {
    && p == ICMPv4 && e.Inbound? && IsError(e.whole.transport.value)
    && Upstream(s, e.whole, e.frags, e.now).1.Delivered?
  }

  /** The event asks for a port or Id of protocol `p`, for the flow that it would enter. */
  ghost predicate Asks(s: State, e: Event, p: Proto)
    requires ValidEvent(e)
  {
    && e.Outbound? && e.packet.transport.Some?
    && !QuotesUnsupported(e.packet.transport.value) && !IsError(e.packet.transport.value)
    && KeyOf(e.packet, e.conn).proto == p && KeyOf(e.packet, e.conn) !in s.pat
  }

  /** The pool after this request, and the port or Id given, if there is one. */
  ghost function Asked(s: State, e: Event, p: Proto): (Pool, Option<U16>)
    requires PoolsSized(s) && ValidEvent(e)
  {
    if Asks(s, e, p) then Take(PoolOf(s, p), p, e.now) else (PoolOf(s, p), None)
  }

  /** The slot in the pool of protocol `p` that the event stamps after that. */
  ghost function StampedSlot(s: State, upIP: IP, e: Event, p: Proto): Option<nat>
    requires PoolsSized(s) && ValidEvent(e)
  {
    match e
    case Outbound(packet, conn, now, wrote) =>
      var r := Listen(s, upIP, packet, conn, now, wrote).1;
      if r.Sent? && packet.transport.Some? && NATProtocol(packet.transport.value) == p
      then Some(SlotOf(p, r.value)) else None
    case Inbound(whole, frags, now) =>
      var t := whole.transport.value;
      if Upstream(s, whole, frags, now).1.Delivered? && ProtoOf(t) == p && KeptAlive(t).Some?
      then Some(SlotOf(p, KeptAlive(t).value)) else None
  }

  function WithNew(flows: seq<FlowKey>, k: Option<FlowKey>): seq<FlowKey> {
    if k.Some? then flows + [k.value] else flows
  }

  function WithSlot(slots: seq<nat>, p: Proto, v: Option<U16>): seq<nat> {
    if v.Some? then slots + [SlotOf(p, v.value)] else slots
  }

  function WithStamp(pool: Pool, slot: Option<nat>, now: int): Pool {
    if slot.Some? && slot.value < |pool.stamps| then Stamped(pool, slot.value, now) else pool
  }

  /** A flow's slot is in the list. */
  lemma SlotListed(pat: map<FlowKey, U16>, p: Proto, flows: seq<FlowKey>, q: FlowKey)
    requires PatOk(pat) && Lists(pat, p, flows) && q in pat && q.proto == p
    ensures SlotOf(p, pat[q]) in Slots(pat, p, flows)
  {
    assert q in flows;
    var k :| 0 <= k < |flows| && flows[k] == q;
    assert Slots(pat, p, flows)[k] == SlotOf(p, pat[q]);
  }

  /** A new flow, of this protocol or of another, leaves the slots of the others as they were. */
  lemma SlotsGrow(pat: map<FlowKey, U16>, p: Proto, flows: seq<FlowKey>, key: FlowKey, v: U16)
    requires PatOk(pat) && Lists(pat, p, flows) && key !in pat && PatOk(pat[key := v])
    ensures var pat' := pat[key := v];
            if key.proto == p
            then Lists(pat', p, flows + [key])
                 && Slots(pat', p, flows + [key]) == WithSlot(Slots(pat, p, flows), p, Some(v))
            else Lists(pat', p, flows) && Slots(pat', p, flows) == Slots(pat, p, flows)
  {
    if key.proto == p {
      ListsSnoc(pat, key, v, flows);
    } else {
      assert forall q | q in pat[key := v] && q.proto == p :: q in pat;
    }
    hide PatOk, InPool, SlotOf;
  }

  lemma ListenLists(s: State, upIP: IP, e: Event, p: Proto, flows: seq<FlowKey>)
    requires Inv(s, upIP) && ValidEvent(e) && e.Outbound? && Lists(s.pat, p, flows) && PatOk(Step(s, upIP, e).pat)
    requires e.packet.transport.Some? && !QuotesUnsupported(e.packet.transport.value)
    ensures var s', k, v := Step(s, upIP, e), NewFlow(s, upIP, e, p), Asked(s, e, p).1;
            && Lists(s'.pat, p, WithNew(flows, k)) && (v.Some? <==> k.Some?)
            && Slots(s'.pat, p, WithNew(flows, k)) == WithSlot(Slots(s.pat, p, flows), p, v)
  {
    hide Slots, Lists, PatOk;
    ListenPools(s, upIP, e.packet, e.conn, e.now, e.wrote, p);
    hide Listen, Take, Inv, KeyOf;
    var key := KeyOf(e.packet, e.conn);
    var v := Take(PoolOf(s, key.proto), key.proto, e.now).1;
    if key !in s.pat && !IsError(e.packet.transport.value) && v.Some? {
      SlotsGrow(s.pat, p, flows, key, v.value);
    }
  }

  /** What an event does to the list of flows: a slot that is given goes to the flow entered. */
  lemma StepLists(s: State, upIP: IP, e: Event, p: Proto, flows: seq<FlowKey>)
    requires Inv(s, upIP) && ValidEvent(e) && Lists(s.pat, p, flows)
    ensures var s', k, v := Step(s, upIP, e), NewFlow(s, upIP, e, p), Asked(s, e, p).1;
            && Inv(s', upIP) && Lists(s'.pat, p, WithNew(flows, k))
            && (v.Some? <==> k.Some?)
            && Slots(s'.pat, p, WithNew(flows, k)) == WithSlot(Slots(s.pat, p, flows), p, v)
  {
    StepKeepsInv(s, upIP, e);
    hide Slots, Lists, PatOk, Coherent;
    if e.Outbound? && e.packet.transport.Some? && !QuotesUnsupported(e.packet.transport.value) {
      hide Step, NewFlow, Asked;
      ListenLists(s, upIP, e, p, flows);
    } else if e.Inbound? {
      UpstreamPools(s, upIP, e.whole, e.frags, e.now, p);
      hide Upstream;
    }
  }

  /** What an event does to one pool: it may ask for a slot, and then it may stamp one. */
  lemma StepPool(s: State, upIP: IP, e: Event, p: Proto)
    requires Inv(s, upIP) && ValidEvent(e)
    ensures var slot := StampedSlot(s, upIP, e, p);
            && PoolOf(Step(s, upIP, e), p) == WithStamp(Asked(s, e, p).0, slot, e.now)
            && (StampsOwnId(s, e, p) ==> slot == Some(e.whole.transport.value.id))
  {
    if e.Outbound? {
      if e.packet.transport.Some? && !QuotesUnsupported(e.packet.transport.value) {
        ListenEffect(s, upIP, e.packet, e.conn, e.now, e.wrote);
        ListenPools(s, upIP, e.packet, e.conn, e.now, e.wrote, p);
        hide Listen, Take, Inv, KeyOf;
      }
    } else {
      UpstreamPools(s, upIP, e.whole, e.frags, e.now, p);
      hide Upstream, Inv;
    }
  }

  /** The stamped slot is that of a flow, unless an error names it. */
  lemma StampOfFlow(s: State, upIP: IP, e: Event, p: Proto, flows: seq<FlowKey>)
    requires Inv(s, upIP) && ValidEvent(e) && Lists(Step(s, upIP, e).pat, p, flows) && Inv(Step(s, upIP, e), upIP)
    ensures var slot := StampedSlot(s, upIP, e, p);
            slot.Some? ==> slot.value in Slots(Step(s, upIP, e).pat, p, flows) || StampsOwnId(s, e, p)
  {
    hide Slots, Lists, PatOk;
    var s' := Step(s, upIP, e);
    if StampedSlot(s, upIP, e, p).Some? && !StampsOwnId(s, e, p) {
      if e.Outbound? {
        ListenEffect(s, upIP, e.packet, e.conn, e.now, e.wrote);
        hide Listen, Inv;
        SlotListed(s'.pat, p, flows, KeyOf(e.packet, e.conn));
      } else {
        UpstreamPools(s, upIP, e.whole, e.frags, e.now, p);
        DeliveredToFlow(s, upIP, e);
        hide Upstream, Inv;
        var t := e.whole.transport.value;
        var q :| q in s.pat && q.proto == ProtoOf(t) && s.pat[q] == KeptAlive(t).value;
        SlotListed(s'.pat, p, flows, q);
      }
    }
  }

  /** A delivered packet, not an error, keeps alive the port or Id of a flow. */
  lemma DeliveredToFlow(s: State, upIP: IP, e: Event)
    requires Inv(s, upIP) && ValidEvent(e) && e.Inbound? && !IsError(e.whole.transport.value)
    requires Upstream(s, e.whole, e.frags, e.now).1.Delivered?
    ensures var t := e.whole.transport.value;
            && KeptAlive(t).Some?
            && exists q :: q in s.pat && q.proto == ProtoOf(t) && s.pat[q] == KeptAlive(t).value
  {
    UpstreamDelivers(s, upIP, e.whole, e.frags, e.now);
    FoundEntryFits(s, upIP, e.whole);
    var g := GuideOf(e.whole);
    var entry := s.table[g];
    assert Coherent(s.pat, upIP, g, entry);
    assert FlowKey(Text(entry.embSrc), entry.src, g.proto) in s.pat;
  }

  /** In every run the list of flows is complete, without repetition. */
  lemma {:induction false} RunLists(upIP: IP, evs: seq<Event>, p: Proto)
    requires ValidRun(evs)
    ensures Lists(Run(upIP, evs).pat, p, Flows(upIP, evs, p))
  {
    if evs != [] {
      var init, e := evs[..|evs| - 1], evs[|evs| - 1];
      RunLists(upIP, init, p);
      StepLists(Run(upIP, init), upIP, e, p, Flows(upIP, init, p));
      hide Lists, Slots, NewFlow, Step;
    }
  }

  // ------------------------------------------------------------ sharing

  ghost predicate Injective(pat: map<FlowKey, U16>, p: Proto) {
    forall q, r | q in pat && r in pat && q.proto == p && r.proto == p && pat[q] == pat[r] :: q == r
  }

  /** More flows than ports or Ids cannot do without sharing. */
  lemma TooManyShare(pat: map<FlowKey, U16>, p: Proto, flows: seq<FlowKey>)
    requires PatOk(pat) && Lists(pat, p, flows) && Injective(pat, p)
    ensures |flows| <= PoolSize(p)
  {
    var slots := Slots(pat, p, flows);
    forall i, j | 0 <= i < j < |slots| ensures slots[i] != slots[j] {
      assert flows[i] != flows[j];
    }
    Pigeonhole(slots, PoolSize(p));
  }

  /** Flows in different slots do not share. */
  lemma DistinctSlots(pat: map<FlowKey, U16>, p: Proto, flows: seq<FlowKey>)
    requires PatOk(pat) && Lists(pat, p, flows)
    requires var slots := Slots(pat, p, flows); forall i, j | 0 <= i < j < |slots| :: slots[i] != slots[j]
    ensures Injective(pat, p)
  {
    var slots := Slots(pat, p, flows);
    forall q, r | q in pat && r in pat && q.proto == p && r.proto == p && pat[q] == pat[r] ensures q == r {
      assert q in flows && r in flows;
      var i :| 0 <= i < |flows| && flows[i] == q;
      var j :| 0 <= j < |flows| && flows[j] == r;
      assert slots[i] == slots[j];
    }
  }

  /** Distinct numbers below `n` are at most `n`. */
  lemma Pigeonhole(xs: seq<int>, n: nat)
    requires forall i | 0 <= i < |xs| :: 0 <= xs[i] < n
    requires forall i, j | 0 <= i < j < |xs| :: xs[i] != xs[j]
    ensures |xs| <= n
    decreases n
  {
    assert |xs| > 0 ==> 0 <= xs[0] < n;
    if n > 0 {
      if i :| 0 <= i < |xs| && xs[i] == n - 1 {
        var ys := xs[..i] + xs[i + 1..];
        forall k | 0 <= k < |ys| ensures 0 <= ys[k] < n - 1 {
          var j := if k < i then k else k + 1;
          assert ys[k] == xs[j] && xs[j] != xs[i];
        }
        Pigeonhole(ys, n - 1);
      } else {
        Pigeonhole(xs, n - 1);
      }
    }
  }

  /** The flow of protocol `p` to which an event belongs that is a packet from a client, but no error. */
  function Offers(e: Event, p: Proto): set<FlowKey>
    requires ValidEvent(e)
  {
    if e.Outbound? && e.packet.transport.Some? && !IsError(e.packet.transport.value)
       && ProtoOf(e.packet.transport.value) == p
    then {KeyOf(e.packet, e.conn)}
    else {}
  }

  ghost function Offered(evs: seq<Event>, p: Proto): set<FlowKey>
    requires ValidRun(evs)
  {
    if evs == [] then {} else Offered(evs[..|evs| - 1], p) + Offers(evs[|evs| - 1], p)
  }

  lemma NewFlowIsOffered(s: State, upIP: IP, e: Event, p: Proto)
    requires Inv(s, upIP) && ValidEvent(e)
    ensures var k := NewFlow(s, upIP, e, p);
            k.Some? ==> k.value in Offers(e, p) && k.value !in s.pat && k.value in Step(s, upIP, e).pat
  {
    if e.Outbound? {
      if e.packet.transport.Some? && !QuotesUnsupported(e.packet.transport.value) {
        ListenPools(s, upIP, e.packet, e.conn, e.now, e.wrote, p);
      }
    }
  }

  lemma {:induction false} FlowsAreOffered(upIP: IP, evs: seq<Event>, p: Proto)
    requires ValidRun(evs)
    ensures forall i, j | 0 <= i < j < |Flows(upIP, evs, p)| :: Flows(upIP, evs, p)[i] != Flows(upIP, evs, p)[j]
    ensures forall k | k in Flows(upIP, evs, p) :: k in Offered(evs, p) && k in Run(upIP, evs).pat
  {
    if evs != [] {
      var init, e := evs[..|evs| - 1], evs[|evs| - 1];
      FlowsAreOffered(upIP, init, p);
      NewFlowIsOffered(Run(upIP, init), upIP, e, p);
      StepKeepsInv(Run(upIP, init), upIP, e);
      hide Offers, Step, NewFlow;
    }
  }

  /** A bound that can be read off the events: there are no more flows than distinct keys among the
      packets that clients have sent. */
  lemma FlowsAtMostOffered(upIP: IP, evs: seq<Event>, p: Proto)
    requires ValidRun(evs)
    ensures |Flows(upIP, evs, p)| <= |Offered(evs, p)|
  {
    FlowsAreOffered(upIP, evs, p);
    DistinctIn(Flows(upIP, evs, p), Offered(evs, p));
  }

  lemma DistinctIn<T>(xs: seq<T>, s: set<T>)
    requires forall i, j | 0 <= i < j < |xs| :: xs[i] != xs[j]
    requires forall x | x in xs :: x in s
    ensures |xs| <= |s|
  {
    if xs != [] {
      var init, last := xs[..|xs| - 1], xs[|xs| - 1];
      assert forall i | 0 <= i < |init| :: init[i] == xs[i] != last;
      DistinctIn(init, s - {last});
    }
  }

  // ------------------------------------------------------------ keeping ports

  /** The event sends or delivers a packet through the port or Id `v`. */
  ghost predicate Uses(s: State, upIP: IP, e: Event, p: Proto, v: U16)
    requires PoolsSized(s) && ValidEvent(e)
  {
    match e
    case Outbound(packet, conn, now, wrote) =>
      var r := Listen(s, upIP, packet, conn, now, wrote).1;
      r.Sent? && r.value == v && packet.transport.Some? && NATProtocol(packet.transport.value) == p
    case Inbound(whole, frags, now) =>
      && Upstream(s, whole, frags, now).1.Delivered?
      && !IsError(whole.transport.value) && ProtoOf(whole.transport.value) == p
      && KeptAlive(whole.transport.value) == Some(v)
  }

  /** The stamp of a port or Id. */
  ghost function LastUse(s: State, p: Proto, v: U16): Stamp
    requires PoolsSized(s) && InPool(p, v)
  {
    PoolOf(s, p).stamps[SlotOf(p, v)]
  }

  lemma ListenStamps(s: State, upIP: IP, e: Event, p: Proto, v: U16)
    requires Inv(s, upIP) && ValidEvent(e) && e.Outbound? && InPool(p, v) && PoolsSized(Step(s, upIP, e))
    ensures var before, after := LastUse(s, p, v), LastUse(Step(s, upIP, e), p, v);
            && (after == before || after == At(e.now))
            && (Uses(s, upIP, e, p, v) ==> after == At(e.now))
  {
    assert SlotOf(p, v) < |PoolOf(s, p).stamps|;
    hide Listen, Upstream, Inv, InPool, SlotOf, PoolOf, PoolsSized, Parsed, NATProtocol, KeptAlive, ProtoOf, IsError;
    SentStamps(s, upIP, e.packet, e.conn, e.now, e.wrote, p);
  }

  /** What an outbound packet does to the stamps of a pool. */
  lemma SentStamps(s: State, upIP: IP, packet: Packet, conn: Conn, now: int, wrote: bool, p: Proto)
    requires Inv(s, upIP) && Parsed(packet)
    ensures var (s', r) := Listen(s, upIP, packet, conn, now, wrote);
            var before := PoolOf(s, p).stamps;
            if r.Sent? && packet.transport.Some? && p == NATProtocol(packet.transport.value)
            then SlotOf(p, r.value) < |before| && PoolOf(s', p).stamps == before[SlotOf(p, r.value) := At(now)]
            else PoolOf(s', p).stamps == before
  {
    if packet.transport.Some? && !QuotesUnsupported(packet.transport.value) {
      ListenEffect(s, upIP, packet, conn, now, wrote);
      ListenPools(s, upIP, packet, conn, now, wrote, p);
      TakeInPool(PoolOf(s, p), p, now);
      hide Listen, Take, Idle, AllBusy, InPool, SlotOf, PatOk;
    }
  }

  lemma StepStamps(s: State, upIP: IP, e: Event, p: Proto, v: U16)
    requires Inv(s, upIP) && ValidEvent(e) && InPool(p, v)
    ensures PoolsSized(Step(s, upIP, e))
    ensures var before, after := LastUse(s, p, v), LastUse(Step(s, upIP, e), p, v);
            && (after == before || after == At(e.now))
            && (Uses(s, upIP, e, p, v) ==> after == At(e.now))
  {
    StepKeepsInv(s, upIP, e);
    if e.Outbound? {
      hide Step, Uses, LastUse;
      ListenStamps(s, upIP, e, p, v);
    } else {
      UpstreamPools(s, upIP, e.whole, e.frags, e.now, p);
      hide Upstream;
    }
  }

  ghost predicate Nondecreasing(evs: seq<Event>) {
    forall i, j | 0 <= i < j < |evs| :: evs[i].now <= evs[j].now
  }

  lemma {:induction false} UseIsStamped(upIP: IP, evs: seq<Event>, i: nat, p: Proto, v: U16)
    requires ValidRun(evs) && Nondecreasing(evs) && InPool(p, v) && i < |evs|
    requires Uses(Run(upIP, evs[..i]), upIP, evs[i], p, v)
    ensures var last := LastUse(Run(upIP, evs), p, v);
            last.At? && last.time >= evs[i].now
  {
    hide Uses, LastUse, Step, InPool;
    var init, e := evs[..|evs| - 1], evs[|evs| - 1];
    StepStamps(Run(upIP, init), upIP, e, p, v);
    if i < |init| {
      assert init[..i] == evs[..i];
      UseIsStamped(upIP, init, i, p, v);
    }
  }

  /** The event gives port or Id `v` of protocol `p` to a flow that had none. */
  ghost predicate Allocates(s: State, upIP: IP, e: Event, p: Proto, v: U16)
    requires PoolsSized(s) && ValidEvent(e)
  {
    var k := NewFlow(s, upIP, e, p);
    k.Some? && Step(s, upIP, e).pat[k.value] == v
  }

  lemma AllocatesTakes(s: State, upIP: IP, e: Event, p: Proto, v: U16)
    requires Inv(s, upIP) && ValidEvent(e) && Allocates(s, upIP, e, p, v)
    ensures Take(PoolOf(s, p), p, e.now).1 == Some(v)
  {
    ListenPools(s, upIP, e.packet, e.conn, e.now, e.wrote, p);
    hide Take;
  }

  lemma AllocatesIdle(s: State, upIP: IP, e: Event, p: Proto, v: U16)
    requires Inv(s, upIP) && ValidEvent(e) && Allocates(s, upIP, e, p, v)
    ensures InPool(p, v) && Idle(LastUse(s, p, v), e.now)
  {
    AllocatesTakes(s, upIP, e, p, v);
    assert |PoolOf(s, p).stamps| == PoolSize(p);
    hide Allocates, Inv, Take, Idle, PoolOf, PoolSize;
    TakenIsIdle(PoolOf(s, p), p, e.now, v);
  }

  lemma TakenIsIdle(pool: Pool, p: Proto, now: int, v: U16)
    requires |pool.stamps| == PoolSize(p) && Take(pool, p, now).1 == Some(v)
    ensures InPool(p, v) && SlotOf(p, v) < |pool.stamps| && Idle(pool.stamps[SlotOf(p, v)], now)
  {
    hide Take, Idle, SlotOf, InPool;
    TakeInPool(pool, p, now);
  }

  /** A port in use is not given away: when a run with a nondecreasing clock gives port or Id `v`
      to a new flow, every earlier packet through `v`, in either direction, is more than KEEP_ALIVE old. */
  lemma NoReuseWhileActive(upIP: IP, evs: seq<Event>, i: nat, e: Event, p: Proto, v: U16)
    requires ValidRun(evs) && Nondecreasing(evs) && i < |evs| && ValidEvent(e)
    requires Allocates(Run(upIP, evs), upIP, e, p, v)
    requires Uses(Run(upIP, evs[..i]), upIP, evs[i], p, v)
    ensures e.now - evs[i].now > KEEP_ALIVE
  {
    AllocatesIdle(Run(upIP, evs), upIP, e, p, v);
    UseIsStamped(upIP, evs, i, p, v);
  }

  /** A delivered inbound error keeps the Id of its own header alive: the slot of the query it is
      about is refreshed only when the two Ids coincide. */
  lemma InboundErrorKeepsOuterId(upIP: IP, evs: seq<Event>, error: Packet, now: int)
    requires ValidRun(evs) && Parsed(error) && error.transport.Some? && IsError(error.transport.value)
    requires Upstream(Run(upIP, evs), error, [error], now).1.Delivered?
    ensures var s, s' := Run(upIP, evs), Upstream(Run(upIP, evs), error, [error], now).0;
            var about := error.transport.value.quote.value.transport;
            && s'.icmp.stamps == s.icmp.stamps[error.transport.value.id := At(now)]
            && about.Icmp?
            && (s'.icmp.stamps[about.id] == At(now)
                <==> about.id == error.transport.value.id || s.icmp.stamps[about.id] == At(now))
  {
    var s := Run(upIP, evs);
    UpstreamKeepsInv(s, upIP, error, [error], now);
    UpstreamDelivers(s, upIP, error, [error], now);
    FoundEntryFits(s, upIP, error);
    UpstreamPools(s, upIP, error, [error], now, ICMPv4);
  }
}
