/**
  * Many datagrams at once: EasyDefragmenter keeps one collection per key, so what happens at a key
  * depends on the arrivals at that key alone.
  */
module Interleaving {
  import opened Words
  import opened Packets
  import opened Fragments
  import opened Reassembly
  import opened Orders

  type Table = map<Flow, Collected>

  function Lookup(t: Table, k: Flow): Option<Collected> {
    if k in t then Some(t[k]) else None
  }

  /** AppendOriginal: a packet that is not a fragment passes through. */
  function AppendOriginal(t: Table, deadline: int, a: Arrival): (Table, Output) {
    if !IsFragment(a.frag.ip) then (t, Whole(a.frag, [a.frag]))
    else
      var k := FlowOf(a.frag);
      var (c, out) := Collect(Lookup(t, k), deadline, a);
      (if c.Some? then t[k := c.value] else t - {k}, out)
  }

  /** A run of the defragmenter from the empty table: the final table and the output of each arrival. */
  function Run(deadline: int, arrivals: seq<Arrival>): (r: (Table, seq<Output>))
    ensures |r.1| == |arrivals|
  {
    if arrivals == [] then (map[], [])
    else
      var (t, outs) := Run(deadline, arrivals[..|arrivals| - 1]);
      var (t', out) := AppendOriginal(t, deadline, arrivals[|arrivals| - 1]);
      (t', outs + [out])
  }

  /** A packet that is no fragment comes out at once, unchanged and as its own only piece, whatever
      has arrived before it. */
  lemma {:induction false} PassesThrough(deadline: int, arrivals: seq<Arrival>, i: nat)
    requires i < |arrivals| && !IsFragment(arrivals[i].frag.ip)
    ensures Run(deadline, arrivals).1[i] == Whole(arrivals[i].frag, [arrivals[i].frag])
  {
    hide Collect;
    if i < |arrivals| - 1 {
      PassesThrough(deadline, arrivals[..|arrivals| - 1], i);
    }
  }

  predicate At(a: Arrival, k: Flow) {
    IsFragment(a.frag.ip) && FlowOf(a.frag) == k
  }

  /** The arrivals at a key, in order. */
  function ArrivalsAt(arrivals: seq<Arrival>, k: Flow): seq<Arrival> {
    if arrivals == [] then []
    else
      var init, a := arrivals[..|arrivals| - 1], arrivals[|arrivals| - 1];
      if At(a, k) then ArrivalsAt(init, k) + [a] else ArrivalsAt(init, k)
  }

  /** The outputs of the arrivals at a key, in order. */
  function OutputsAt(arrivals: seq<Arrival>, outs: seq<Output>, k: Flow): seq<Output>
    requires |outs| == |arrivals|
  {
    if arrivals == [] then []
    else
      var n := |arrivals| - 1;
      var init := OutputsAt(arrivals[..n], outs[..n], k);
      if At(arrivals[n], k) then init + [outs[n]] else init
  }

  lemma StepAt(t: Table, deadline: int, a: Arrival, k: Flow)
    ensures var (t', out) := AppendOriginal(t, deadline, a);
            if At(a, k) then (Lookup(t', k), out) == Collect(Lookup(t, k), deadline, a)
            else Lookup(t', k) == Lookup(t, k)
  {
    hide Collect;
  }

  /** Interleaving independence: in every run, a key is served as if its arrivals were the only ones. */
  lemma {:induction false} KeysAreIndependent(deadline: int, arrivals: seq<Arrival>, k: Flow)
    ensures var (t, outs) := Run(deadline, arrivals);
            (Lookup(t, k), OutputsAt(arrivals, outs, k)) == CollectAll(None, deadline, ArrivalsAt(arrivals, k))
  {
    hide Collect, AppendOriginal;
    if arrivals != [] {
      var init, a := arrivals[..|arrivals| - 1], arrivals[|arrivals| - 1];
      KeysAreIndependent(deadline, init, k);
      var (t, outs) := Run(deadline, init);
      StepAt(t, deadline, a, k);
      var all := Run(deadline, arrivals).1;
      assert all[..|init|] == outs;
      if At(a, k) {
        CollectAllSnoc(None, deadline, ArrivalsAt(init, k), a);
      }
    }
  }

  // All the fragments of one datagram, as they arrive.
  datatype Delivery = Delivery(fragments: seq<Datagram>, order: seq<nat>, arrivals: seq<Arrival>)

  ghost predicate Complete(d: Delivery, deadline: int) {
    && FragmentSet(d.fragments)
    && Batch(d.arrivals, d.fragments, d.order, deadline)
    && |d.order| == |d.fragments|
  }

  ghost function AllArrivals(ds: seq<Delivery>): seq<Arrival> {
    if ds == [] then [] else AllArrivals(ds[..|ds| - 1]) + ds[|ds| - 1].arrivals
  }

  /** What a delivery emits on its own: the datagram, when the last fragment arrives. */
  ghost function Alone(d: Delivery): seq<Output> {
    if d.fragments == [] then []
    else Nothings(|d.fragments| - 1) + [Whole(Concatenate(d.fragments), d.fragments)]
  }

  ghost function Expected(ds: seq<Delivery>): seq<Output> {
    if ds == [] then [] else Expected(ds[..|ds| - 1]) + Alone(ds[|ds| - 1])
  }

  ghost predicate AllComplete(ds: seq<Delivery>, deadline: int) {
    forall i | 0 <= i < |ds| :: Complete(ds[i], deadline)
  }

  /** A key that is used for one datagram after another delivers each of them. */
  lemma {:induction false} SequentialReuse(deadline: int, ds: seq<Delivery>)
    requires AllComplete(ds, deadline)
    ensures CollectAll(None, deadline, AllArrivals(ds)) == (None, Expected(ds))
  {
    hide Complete, Alone;
    if ds != [] {
      var init, d := ds[..|ds| - 1], ds[|ds| - 1];
      DeliveryAlone(d, deadline);
      SequentialReuse(deadline, init);
      CollectAllAppend(None, deadline, AllArrivals(init), d.arrivals);
    }
  }

  lemma DeliveryAlone(d: Delivery, deadline: int)
    requires Complete(d, deadline)
    ensures CollectAll(None, deadline, d.arrivals) == (None, Alone(d))
  {
    ReassemblyInverts(d.fragments, d.order, d.arrivals, deadline);
  }

  /** In any interleaving with anything else, a key whose arrivals are complete deliveries one after
      another emits each datagram exactly once, when its last fragment arrives, as in isolation. */
  lemma EveryDatagramOnce(deadline: int, arrivals: seq<Arrival>, k: Flow, ds: seq<Delivery>)
    requires AllComplete(ds, deadline)
    requires ArrivalsAt(arrivals, k) == AllArrivals(ds)
    ensures OutputsAt(arrivals, Run(deadline, arrivals).1, k) == Expected(ds)
    ensures k !in Run(deadline, arrivals).0
  {
    hide Complete, Alone, AppendOriginal;
    SequentialReuse(deadline, ds);
    KeysAreIndependent(deadline, arrivals, k);
  }

  ghost predicate OnlyFragments(frags: seq<Datagram>) {
    forall f | f in frags :: IsFragment(f.ip)
  }

  ghost predicate CollectsFragments(t: Table) {
    forall k | k in t :: OnlyFragments(t[k].frags)
  }

  /** What is handed over: a packet that was whole when it arrived, or a whole datagram together with
      the fragments it was made of. */
  ghost predicate HandedOver(out: Output) {
    out.Whole? ==> !IsFragment(out.datagram.ip) && (out.originals == [out.datagram] || OnlyFragments(out.originals))
  }

  lemma InsertOnlyFragments(frags: seq<Datagram>, f: Datagram)
    requires OnlyFragments(frags) && IsFragment(f.ip)
    ensures OnlyFragments(Insert(frags, f))
  {
    forall g | g in Insert(frags, f) ensures IsFragment(g.ip) {
      assert g in multiset(Insert(frags, f));
    }
  }

  lemma StepHandsOver(t: Table, deadline: int, a: Arrival)
    requires CollectsFragments(t)
    ensures var (t', out) := AppendOriginal(t, deadline, a);
            CollectsFragments(t') && HandedOver(out)
  {
    if IsFragment(a.frag.ip) {
      InsertOnlyFragments(Current(Lookup(t, FlowOf(a.frag)), deadline, a.now).frags, a.frag);
    }
  }

  /** In every run, whatever is emitted is no fragment itself, and its pieces all are unless it
      arrived whole. */
  lemma {:induction false} RunHandsOver(deadline: int, arrivals: seq<Arrival>)
    ensures var (t, outs) := Run(deadline, arrivals);
            CollectsFragments(t) && forall i | 0 <= i < |outs| :: HandedOver(outs[i])
  {
    hide AppendOriginal, CollectsFragments, HandedOver;
    if arrivals == [] {
      NothingCollected();
    } else {
      RunHandsOver(deadline, arrivals[..|arrivals| - 1]);
      StepHandsOver(Run(deadline, arrivals[..|arrivals| - 1]).0, deadline, arrivals[|arrivals| - 1]);
    }
  }

  lemma NothingCollected()
    ensures CollectsFragments(map[])
  {
  }
}
