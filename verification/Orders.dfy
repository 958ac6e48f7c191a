/**
  * Reassembly inverts fragmentation: the fragments of a datagram may arrive in any order, and
  * nothing is emitted before the last of them.
  */
module Orders {
  import opened Words
  import opened Packets
  import opened Fragments
  import opened Reassembly

  /** The arrivals bring the fragments of `F` with the indices in `order`. */
  ghost predicate Delivers(arrivals: seq<Arrival>, F: seq<Datagram>, order: seq<nat>) {
    && |arrivals| == |order|
    && forall i | 0 <= i < |order| :: order[i] < |F| && arrivals[i].frag == F[order[i]]
  }

  ghost predicate NoDuplicates(order: seq<nat>) {
    forall i, j | 0 <= i < j < |order| :: order[i] != order[j]
  }

  /** No two successive arrivals are further apart than a positive deadline. */
  ghost predicate Timely(arrivals: seq<Arrival>, deadline: int) {
    deadline > 0 ==> forall i | 0 < i < |arrivals| :: arrivals[i].now - arrivals[i - 1].now <= deadline
  }

  ghost function Indices(order: seq<nat>): set<nat> {
    set i | 0 <= i < |order| :: order[i]
  }

  ghost function Range(n: nat): (r: set<nat>)
    ensures forall x: nat :: x in r <==> x < n
  {
    if n == 0 then {} else Range(n - 1) + {n - 1}
  }

  lemma {:induction false} RangeSize(n: nat)
    ensures |Range(n)| == n
  {
    if n > 0 {
      RangeSize(n - 1);
      var below := Range(n - 1);
      assert n - 1 !in below && Range(n) == below + {n - 1};
    }
  }

  lemma IndicesSnoc(order: seq<nat>, x: nat)
    ensures Indices(order + [x]) == Indices(order) + {x}
  {
    var all := order + [x];
    assert all[|order|] == x;
    forall y | y in Indices(order) ensures y in Indices(all) {
      var i :| 0 <= i < |order| && order[i] == y;
      assert all[i] == y;
    }
  }

  lemma {:induction false} IndicesSize(order: seq<nat>)
    requires NoDuplicates(order)
    ensures |Indices(order)| == |order|
  {
    if order != [] {
      var init, x := order[..|order| - 1], order[|order| - 1];
      assert order == init + [x];
      IndicesSnoc(init, x);
      IndicesSize(init);
    }
  }

  /** Distinct indices below `n` are all of them exactly when there are `n`. */
  lemma FullIff(order: seq<nat>, n: nat)
    requires NoDuplicates(order) && forall i | 0 <= i < |order| :: order[i] < n
    ensures Full(Indices(order), n) <==> |order| == n
  {
    IndicesSize(order);
    RangeSize(n);
    assert Indices(order) <= Range(n);
    if Full(Indices(order), n) {
      assert Indices(order) == Range(n);
    } else if |order| == n {
      var i: nat :| i < n && i !in Indices(order);
      assert Indices(order) <= Range(n) - {i};
      SubsetSize(Indices(order), Range(n) - {i});
    }
  }

  lemma {:induction false} PickNone(F: seq<Datagram>, n: nat)
    requires n <= |F|
    ensures Pick(F, {}, n) == [] && Mass(F, {}, n) == 0
  {
    if n > 0 {
      PickNone(F, n - 1);
    }
  }

  /** The state of a key at which some, but not all, fragments of `F` have arrived. */
  ghost predicate Partly(c: Option<Collected>, F: seq<Datagram>, order: seq<nat>, arrivals: seq<Arrival>)
    requires F != [] && |order| == |arrivals|
  {
    if arrivals == [] then c == None
    else c.Some? && Holds(c.value, F, Indices(order)) && c.value.lastSeen == arrivals[|arrivals| - 1].now
  }

  /** One more fragment arrives in time. */
  lemma PartlyStep(c: Option<Collected>, deadline: int, F: seq<Datagram>, order: seq<nat>, arrivals: seq<Arrival>,
                   x: nat, a: Arrival)
    requires FragmentSet(F) && |order| == |arrivals| && Partly(c, F, order, arrivals)
    requires x < |F| && x !in Indices(order) && a.frag == F[x]
    requires deadline > 0 && arrivals != [] ==> a.now - arrivals[|arrivals| - 1].now <= deadline
    ensures var next := Add(Current(c, deadline, a.now), a.frag, a.now);
            && Holds(next, F, Indices(order + [x])) && next.lastSeen == a.now
            && (Completed(next) <==> Full(Indices(order + [x]), |F|))
  {
    if arrivals == [] {
      PickNone(F, |F|);
      PickNone(F, |F| - 1);
      assert Indices(order) == {};
    }
    hide FragmentSet;
    IndicesSnoc(order, x);
    AddHolds(Current(c, deadline, a.now), F, Indices(order), x, a.now);
    CompletedIff(Add(Current(c, deadline, a.now), a.frag, a.now), F, Indices(order + [x]), x);
  }

  function Nothings(n: nat): seq<Output> {
    seq(n, _ => Nothing)
  }

  /** Arrivals that bring fragments of `F`, in time and none of them twice. */
  ghost predicate Batch(arrivals: seq<Arrival>, F: seq<Datagram>, order: seq<nat>, deadline: int) {
    Delivers(arrivals, F, order) && NoDuplicates(order) && Timely(arrivals, deadline)
  }

  lemma BatchLast(arrivals: seq<Arrival>, F: seq<Datagram>, order: seq<nat>, deadline: int)
    requires Batch(arrivals, F, order, deadline) && arrivals != []
    ensures var init, o, x := arrivals[..|arrivals| - 1], order[..|order| - 1], order[|order| - 1];
            var a := arrivals[|arrivals| - 1];
            && Batch(init, F, o, deadline) && order == o + [x]
            && x < |F| && x !in Indices(o) && a.frag == F[x]
            && (deadline > 0 && init != [] ==> a.now - init[|init| - 1].now <= deadline)
  {
  }

  lemma BatchFull(arrivals: seq<Arrival>, F: seq<Datagram>, order: seq<nat>, deadline: int)
    requires Batch(arrivals, F, order, deadline)
    ensures |arrivals| == |order|
    ensures Full(Indices(order), |F|) <==> |order| == |F|
  {
    FullIff(order, |F|);
  }

  /** Before the last fragment nothing is emitted, whatever the order. */
  lemma {:induction false} NothingEarly(F: seq<Datagram>, order: seq<nat>, arrivals: seq<Arrival>, deadline: int)
    requires FragmentSet(F) && Batch(arrivals, F, order, deadline) && |order| < |F|
    ensures CollectAll(None, deadline, arrivals).1 == Nothings(|arrivals|)
    ensures |arrivals| == |order| && Partly(CollectAll(None, deadline, arrivals).0, F, order, arrivals)
  {
    hide FragmentSet, Batch, Indices, Full, Holds, Collect;
    BatchFull(arrivals, F, order, deadline);
    if arrivals != [] {
      hide CollectAll, Partly;
      BatchLast(arrivals, F, order, deadline);
      var init, o := arrivals[..|arrivals| - 1], order[..|order| - 1];
      NothingEarly(F, o, init, deadline);
      assert init + [arrivals[|init|]] == arrivals && o + [order[|o|]] == order;
      LastArrival(F, o, order[|o|], init, arrivals[|init|], deadline);
    }
  }

  /** The collection to which the last fragment of a batch is added. */
  lemma StepOutcome(c: Option<Collected>, deadline: int, F: seq<Datagram>, o: seq<nat>, init: seq<Arrival>,
                    x: nat, a: Arrival)
    requires FragmentSet(F) && |o| == |init| && Partly(c, F, o, init)
    requires x < |F| && x !in Indices(o) && a.frag == F[x]
    requires deadline > 0 && init != [] ==> a.now - init[|init| - 1].now <= deadline
    requires Full(Indices(o + [x]), |F|) <==> |o| + 1 == |F|
    ensures var (c', out) := Collect(c, deadline, a);
            if |o| + 1 == |F| then c' == None && out == Whole(Concatenate(F), F)
            else c'.Some? && out == Nothing && Holds(c'.value, F, Indices(o + [x])) && c'.value.lastSeen == a.now
  {
    assert F != [] && F[..|F|] == F;
    hide FragmentSet;
    PartlyStep(c, deadline, F, o, init, x, a);
    if |o| + 1 == |F| {
      PickAll(F, Indices(o + [x]), |F|);
    }
    hide Partly, Indices, Full, Concatenate, Pick, Mass, Completed, Add, Current;
  }

  lemma NothingsSnoc(n: nat)
    ensures Nothings(n) + [Nothing] == Nothings(n + 1)
  {
  }

  /** What the last arrival of a batch does. */
  lemma LastArrival(F: seq<Datagram>, o: seq<nat>, x: nat, init: seq<Arrival>, a: Arrival, deadline: int)
    requires FragmentSet(F) && |init| == |o| < |F| && Batch(init + [a], F, o + [x], deadline)
    requires Partly(CollectAll(None, deadline, init).0, F, o, init)
    requires CollectAll(None, deadline, init).1 == Nothings(|init|)
    ensures var (c, outs) := CollectAll(None, deadline, init + [a]);
            if |o| + 1 == |F| then c == None && outs == Nothings(|F| - 1) + [Whole(Concatenate(F), F)]
            else Partly(c, F, o + [x], init + [a]) && outs == Nothings(|init| + 1)
  {
    BatchLast(init + [a], F, o + [x], deadline);
    assert (init + [a])[..|init|] == init && (o + [x])[..|o|] == o;
    BatchFull(init + [a], F, o + [x], deadline);
    hide FragmentSet, Batch, Indices, Full, Concatenate, Holds, Collect, CollectAll;
    StepOutcome(CollectAll(None, deadline, init).0, deadline, F, o, init, x, a);
    CollectAllSnoc(None, deadline, init, a);
    NothingsSnoc(|init|);
  }

  /** Reassembly inverts fragmentation: for every order of arrival without duplicates and in time,
      only the last arrival emits anything, namely all the payloads in order of offset under the
      first header with its flags and offset cleared; and the key is free again. */
  lemma ReassemblyInverts(F: seq<Datagram>, order: seq<nat>, arrivals: seq<Arrival>, deadline: int)
    requires FragmentSet(F) && Batch(arrivals, F, order, deadline) && |order| == |F|
    ensures CollectAll(None, deadline, arrivals)
            == (None, Nothings(|F| - 1)
                      + [Whole(Datagram(F[0].ip.(flags := 0, fragOffset := 0), Joined(F, |F|)), F)])
  {
    ConcatenateIs(F);
    assert |F| >= 2 && |arrivals| == |order|;
    hide FragmentSet, Batch, Concatenate, Joined, CollectAll, Partly, Indices;
    BatchLast(arrivals, F, order, deadline);
    var init, o := arrivals[..|arrivals| - 1], order[..|order| - 1];
    NothingEarly(F, o, init, deadline);
    assert init + [arrivals[|init|]] == arrivals && o + [order[|o|]] == order;
    LastArrival(F, o, order[|o|], init, arrivals[|init|], deadline);
  }

  /** What the splitter cut comes back as the payload it was given, under the header it was given
      with flags and offset cleared. */
  lemma SplitThenReassemble(ip: IPv4, payload: seq<Byte>, headerLen: nat, size: nat, F: seq<Datagram>,
                            order: seq<nat>, arrivals: seq<Arrival>, deadline: int)
    requires Fits(F, payload, headerLen, size) && CutHeaders(F, ip)
    requires Batch(arrivals, F, order, deadline) && |order| == |F|
    ensures CollectAll(None, deadline, arrivals)
            == (None, Nothings(|F| - 1) + [Whole(Datagram(ip.(flags := 0, fragOffset := 0), payload), F)])
  {
    assert F[0].ip.(flags := ip.flags, fragOffset := ip.fragOffset) == ip;
    ReassemblyInverts(F, order, arrivals, deadline);
  }
}
