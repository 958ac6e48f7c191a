/**
  * The reassembler (internal/pcap/fragment.go, fragIndicator and EasyDefragmenter) as functions on
  * values, and what it does with the fragments of one datagram in any order of arrival.
  */
module Reassembly {
  import opened Words
  import opened Packets
  import opened Fragments

  // `fragFlow`: the key under which fragments are collected.
  datatype Flow = Flow(id: U16, src: IP)

  // `fragIndicator`: the bytes of the fragments with More Fragments set, the offset of the last
  // final fragment, and the fragments in order of offset.
  datatype Collected = Collected(length: U16, offset: U16, frags: seq<Datagram>, lastSeen: int)

  datatype Arrival = Arrival(frag: Datagram, now: int)

  datatype Output = Nothing | Whole(datagram: Datagram, originals: seq<Datagram>)

  function FlowOf(f: Datagram): Flow {
    Flow(f.ip.id, f.ip.src)
  }

  /** Two packets are collected under one key exactly when they agree in Id and source. */
  lemma KeysAgreeIff(f: Datagram, g: Datagram)
    ensures FlowOf(f) == FlowOf(g) <==> f.ip.id == g.ip.id && f.ip.src == g.ip.src
  {
  }

  /** The fragments of one datagram are fragments, and all have one key. */
  lemma OneKey(F: seq<Datagram>, i: nat, j: nat)
    requires FragmentSet(F) && i < |F| && j < |F|
    ensures IsFragment(F[i].ip) && FlowOf(F[i]) == FlowOf(F[j])
  {
    assert F[i].ip.id == F[0].ip.id && F[j].ip.id == F[0].ip.id;
    assert F[i].ip.src == F[0].ip.src && F[j].ip.src == F[0].ip.src;
    assert MoreFragments(F[i].ip) == Follows(i, |F|, false);
    if i == |F| - 1 {
      assert 8 * F[i].ip.fragOffset == Before(F, i);
      assert |F[0].payload| > 0 && Before(F, 1) == |F[0].payload|;
      hide FragmentSet;
      BeforeMono(F, 1, i);
    }
  }

  /** Adding `f` to fragments that are in order of offset, after those with the same offset. */
  function Insert(frags: seq<Datagram>, f: Datagram): (r: seq<Datagram>)
    ensures multiset(r) == multiset(frags) + multiset{f} && r != []
  {
    if frags == [] then [f]
    else
      var init, last := frags[..|frags| - 1], frags[|frags| - 1];
      assert frags == init + [last];
      if last.ip.fragOffset <= f.ip.fragOffset then frags + [f] else Insert(init, f) + [last]
  }

  function Add(c: Collected, f: Datagram, now: int): Collected {
    Collected(if MoreFragments(f.ip) then Wrap16(c.length + Wrap16(|f.payload|)) else c.length,
              if MoreFragments(f.ip) then c.offset else f.ip.fragOffset,
              Insert(c.frags, f), now)
  }

  predicate Completed(c: Collected) {
    c.length / 8 == c.offset
  }

  /** `concatenate`: the first header with flags and offset cleared over all the payloads. */
  function Concatenate(frags: seq<Datagram>): Datagram
    requires frags != []
  {
    Datagram(FlagIPv4(frags[0].ip, false, false, 0), Joined(frags, |frags|))
  }

  /** The header that comes out is the first one but for flags and offset, which are clear. */
  lemma ConcatenateIs(frags: seq<Datagram>)
    requires frags != []
    ensures Concatenate(frags) == Datagram(frags[0].ip.(flags := 0, fragOffset := 0), Joined(frags, |frags|))
  {
  }

  /** The fragments that `f` joins: none when there are none or when the last one is too old. */
  function Current(c: Option<Collected>, deadline: int, now: int): Collected {
    if c.Some? && !(deadline > 0 && now - c.value.lastSeen > deadline) then c.value
    else Collected(0, 0, [], now)
  }

  /** A fragment arrives at its key. */
  function Collect(c: Option<Collected>, deadline: int, a: Arrival): (Option<Collected>, Output) {
    var next := Add(Current(c, deadline, a.now), a.frag, a.now);
    if Completed(next) then (None, Whole(Concatenate(next.frags), next.frags)) else (Some(next), Nothing)
  }

  /** The arrivals at one key, from the state `c` on: the final state and the output of each. */
  function CollectAll(c: Option<Collected>, deadline: int, arrivals: seq<Arrival>)
    : (r: (Option<Collected>, seq<Output>))
    ensures |r.1| == |arrivals|
  {
    if arrivals == [] then (c, [])
    else
      var (c1, outs) := CollectAll(c, deadline, arrivals[..|arrivals| - 1]);
      var (c2, out) := Collect(c1, deadline, arrivals[|arrivals| - 1]);
      (c2, outs + [out])
  }

  lemma {:induction false} CollectAllAppend(c: Option<Collected>, deadline: int, a: seq<Arrival>, b: seq<Arrival>)
    ensures CollectAll(c, deadline, a + b).0 == CollectAll(CollectAll(c, deadline, a).0, deadline, b).0
    ensures CollectAll(c, deadline, a + b).1
            == CollectAll(c, deadline, a).1 + CollectAll(CollectAll(c, deadline, a).0, deadline, b).1
  {
    hide Collect;
    if b == [] {
      assert a + b == a;
    } else {
      var init, last := b[..|b| - 1], b[|b| - 1];
      assert (a + b)[..|a + b| - 1] == a + init;
      CollectAllAppend(c, deadline, a, init);
      CollectAllSnoc(c, deadline, a + init, last);
      CollectAllSnoc(CollectAll(c, deadline, a).0, deadline, init, last);
      assert a + b == (a + init) + [last] && init + [last] == b;
    }
  }

  lemma CollectAllSnoc(c: Option<Collected>, deadline: int, a: seq<Arrival>, last: Arrival)
    ensures CollectAll(c, deadline, a + [last]).0 == Collect(CollectAll(c, deadline, a).0, deadline, last).0
    ensures CollectAll(c, deadline, a + [last]).1
            == CollectAll(c, deadline, a).1 + [Collect(CollectAll(c, deadline, a).0, deadline, last).1]
  {
    hide Collect;
    assert (a + [last])[..|a|] == a;
  }

  // ------------------------------------------------------------ one datagram, any order

  ghost predicate Full(S: set<nat>, n: nat) {
    forall i: nat | i < n :: i in S
  }

  /** The fragments below `n` whose index is in `S`, in order. */
  ghost function Pick(F: seq<Datagram>, S: set<nat>, n: nat): seq<Datagram>
    requires n <= |F|
  {
    if n == 0 then [] else Pick(F, S, n - 1) + (if n - 1 in S then [F[n - 1]] else [])
  }

  /** The number of payload bytes of the fragments below `n` whose index is in `S`. */
  ghost function Mass(F: seq<Datagram>, S: set<nat>, n: nat): nat
    requires n <= |F|
  {
    if n == 0 then 0 else Mass(F, S, n - 1) + (if n - 1 in S then |F[n - 1].payload| else 0)
  }

  lemma {:induction false} PickAll(F: seq<Datagram>, S: set<nat>, n: nat)
    requires n <= |F| && Full(S, n)
    ensures Pick(F, S, n) == F[..n] && Mass(F, S, n) == Before(F, n)
  {
    if n > 0 {
      PickAll(F, S, n - 1);
    }
  }

  lemma {:induction false} PickAdd(F: seq<Datagram>, S: set<nat>, x: nat, n: nat)
    requires n <= |F| && x !in S
    ensures x >= n ==> Pick(F, S + {x}, n) == Pick(F, S, n) && Mass(F, S + {x}, n) == Mass(F, S, n)
    ensures x < n ==> Mass(F, S + {x}, n) == Mass(F, S, n) + |F[x].payload|
  {
    if n > 0 {
      PickAdd(F, S, x, n - 1);
    }
  }

  ghost predicate Increasing(F: seq<Datagram>) {
    forall i, j {:trigger F[i].ip, F[j].ip} | 0 <= i < j < |F| :: F[i].ip.fragOffset < F[j].ip.fragOffset
  }

  /** Every piece but the last carries a positive multiple of 8 bytes. */
  ghost predicate Octets(F: seq<Datagram>) {
    forall k | 0 <= k < |F| - 1 :: |F[k].payload| > 0 && Aligned(|F[k].payload|)
  }

  lemma FragmentSetFacts(F: seq<Datagram>)
    requires FragmentSet(F)
    ensures Increasing(F) && Octets(F)
    ensures Before(F, |F| - 1) <= IPV4_MAX && 8 * F[|F| - 1].ip.fragOffset == Before(F, |F| - 1)
  {
    assert 8 * F[|F| - 1].ip.fragOffset == Before(F, |F| - 1);
    BeforeMono(F, |F| - 1, |F|);
    assert Increasing(F) by {
      hide FragmentSet;
      forall i, j | 0 <= i < j < |F| ensures F[i].ip.fragOffset < F[j].ip.fragOffset {
        OffsetsIncrease(F, i, j);
      }
    }
  }

  lemma OffsetsIncrease(F: seq<Datagram>, i: nat, j: nat)
    requires FragmentSet(F) && i < j < |F|
    ensures F[i].ip.fragOffset < F[j].ip.fragOffset
  {
    var a: int, b: int := F[i].ip.fragOffset, F[j].ip.fragOffset;
    assert 8 * a == Before(F, i) && 8 * b == Before(F, j) && |F[i].payload| > 0;
    hide FragmentSet;
    BeforeMono(F, i + 1, j);
  }

  lemma {:induction false} PickLast(F: seq<Datagram>, S: set<nat>, n: nat)
    requires n <= |F| && Pick(F, S, n) != []
    ensures exists i: nat :: i < n && Pick(F, S, n)[|Pick(F, S, n)| - 1] == F[i]
  {
    if n - 1 !in S {
      PickLast(F, S, n - 1);
    }
  }

  lemma InsertAtEnd(p: seq<Datagram>, f: Datagram)
    requires p == [] || p[|p| - 1].ip.fragOffset <= f.ip.fragOffset
    ensures Insert(p, f) == p + [f]
  {
  }

  lemma InsertInside(p: seq<Datagram>, last: Datagram, f: Datagram)
    requires last.ip.fragOffset > f.ip.fragOffset
    ensures Insert(p + [last], f) == Insert(p, f) + [last]
  {
    assert (p + [last])[..|p|] == p;
  }

  lemma InsertPickLast(F: seq<Datagram>, S: set<nat>, x: nat)
    requires Increasing(F) && x < |F| && x !in S
    ensures Insert(Pick(F, S, x), F[x]) == Pick(F, S, x) + [F[x]]
  {
    var p := Pick(F, S, x);
    if p != [] {
      PickLast(F, S, x);
      var i: nat :| i < x && p[|p| - 1] == F[i];
      assert F[i].ip.fragOffset < F[x].ip.fragOffset;
    }
    InsertAtEnd(p, F[x]);
  }

  lemma {:induction false} InsertPick(F: seq<Datagram>, S: set<nat>, x: nat, n: nat)
    requires Increasing(F) && x < n <= |F| && x !in S
    ensures Insert(Pick(F, S, n), F[x]) == Pick(F, S + {x}, n)
  {
    hide Insert;
    if x == n - 1 {
      PickAdd(F, S, x, x);
      InsertPickLast(F, S, x);
      assert Pick(F, S, n) == Pick(F, S, x) && Pick(F, S + {x}, n) == Pick(F, S, x) + [F[x]];
    } else {
      InsertPick(F, S, x, n - 1);
      if n - 1 in S {
        assert F[x].ip.fragOffset < F[n - 1].ip.fragOffset;
        InsertInside(Pick(F, S, n - 1), F[n - 1], F[x]);
        assert Pick(F, S, n) == Pick(F, S, n - 1) + [F[n - 1]];
        assert Pick(F, S + {x}, n) == Pick(F, S + {x}, n - 1) + [F[n - 1]];
      } else {
        assert Pick(F, S, n) == Pick(F, S, n - 1) && Pick(F, S + {x}, n) == Pick(F, S + {x}, n - 1);
      }
    }
  }

  /** Some bytes are missing exactly when some fragment is. */
  lemma {:induction false} MassFull(F: seq<Datagram>, S: set<nat>, n: nat)
    requires Octets(F) && n < |F|
    ensures Aligned(Mass(F, S, n)) && Mass(F, S, n) <= Before(F, n)
    ensures Mass(F, S, n) == Before(F, n) <==> Full(S, n)
  {
    if n > 0 {
      MassFull(F, S, n - 1);
      AlignedSum(Mass(F, S, n - 1), |F[n - 1].payload|);
    }
  }

  lemma {:induction false} MassPositive(F: seq<Datagram>, S: set<nat>, n: nat, x: nat)
    requires Octets(F) && x < n < |F| && x in S
    ensures Mass(F, S, n) > 0
  {
    if x < n - 1 {
      MassPositive(F, S, n - 1, x);
    }
  }

  /** What has been collected when the fragments with index in `S` have arrived. */
  ghost predicate Holds(c: Collected, F: seq<Datagram>, S: set<nat>)
    requires F != []
  {
    && c.frags == Pick(F, S, |F|)
    && c.length == Mass(F, S, |F| - 1)
    && c.offset == if |F| - 1 in S then F[|F| - 1].ip.fragOffset else 0
  }

  /** The 16-bit byte count does not wrap for a datagram of legal length. */
  lemma CountFits(length: nat, more: nat)
    requires length + more <= IPV4_MAX
    ensures Wrap16(length + Wrap16(more)) == length + more
  {
  }

  lemma EighthIs(m: nat, offset: nat)
    requires Aligned(m)
    ensures m / 8 == offset <==> m == 8 * offset
  {
  }

  lemma AddInner(c: Collected, F: seq<Datagram>, S: set<nat>, x: nat, now: int)
    requires Increasing(F) && Octets(F) && F != [] && Before(F, |F| - 1) <= IPV4_MAX
    requires x < |F| - 1 && x !in S && Holds(c, F, S) && MoreFragments(F[x].ip)
    ensures Holds(Add(c, F[x], now), F, S + {x})
  {
    hide Increasing, Octets, MoreFragments, Insert, Pick, Mass, Before, Wrap16;
    InsertPick(F, S, x, |F|);
    MassFits(F, S, x);
    CountFits(c.length, |F[x].payload|);
    assert |F| - 1 in S + {x} <==> |F| - 1 in S;
  }

  /** The payload of one more inner fragment is counted, and the count stays legal. */
  lemma MassFits(F: seq<Datagram>, S: set<nat>, x: nat)
    requires Octets(F) && F != [] && Before(F, |F| - 1) <= IPV4_MAX && x < |F| - 1 && x !in S
    ensures Mass(F, S + {x}, |F| - 1) == Mass(F, S, |F| - 1) + |F[x].payload| <= IPV4_MAX
  {
    hide Octets, Pick, Mass, Before, Full;
    PickAdd(F, S, x, |F| - 1);
    MassFull(F, S + {x}, |F| - 1);
  }

  lemma AddLast(c: Collected, F: seq<Datagram>, S: set<nat>, x: nat, now: int)
    requires Increasing(F) && x == |F| - 1 && x !in S && Holds(c, F, S) && !MoreFragments(F[x].ip)
    ensures Holds(Add(c, F[x], now), F, S + {x})
  {
    hide Increasing, MoreFragments, Insert, Pick, Mass;
    InsertPick(F, S, x, |F|);
    PickAdd(F, S, x, |F| - 1);
  }

  lemma AddHolds(c: Collected, F: seq<Datagram>, S: set<nat>, x: nat, now: int)
    requires FragmentSet(F) && x < |F| && x !in S && Holds(c, F, S)
    ensures Holds(Add(c, F[x], now), F, S + {x})
  {
    assert MoreFragments(F[x].ip) <==> x < |F| - 1;
    hide *;
    FragmentSetFacts(F);
    if x < |F| - 1 {
      AddInner(c, F, S, x, now);
    } else {
      AddLast(c, F, S, x, now);
    }
  }

  lemma CompletedWithLast(c: Collected, F: seq<Datagram>, S: set<nat>)
    requires Octets(F) && F != [] && |F| - 1 in S && Holds(c, F, S)
    requires 8 * F[|F| - 1].ip.fragOffset == Before(F, |F| - 1)
    ensures Completed(c) <==> Full(S, |F| - 1)
  {
    MassFull(F, S, |F| - 1);
    EighthIs(Mass(F, S, |F| - 1), c.offset);
  }

  lemma NotCompletedWithoutLast(c: Collected, F: seq<Datagram>, S: set<nat>, x: nat)
    requires Octets(F) && x < |F| - 1 && |F| - 1 !in S && x in S && Holds(c, F, S)
    ensures !Completed(c)
  {
    MassFull(F, S, |F| - 1);
    MassPositive(F, S, |F| - 1, x);
    EighthIs(Mass(F, S, |F| - 1), c.offset);
  }

  /** Completion is recognized exactly when every fragment has arrived. */
  lemma CompletedIff(c: Collected, F: seq<Datagram>, S: set<nat>, x: nat)
    requires FragmentSet(F) && Holds(c, F, S) && x in S && x < |F|
    ensures Completed(c) <==> Full(S, |F|)
  {
    hide *;
    FragmentSetFacts(F);
    FullSnoc(S, |F| - 1);
    if |F| - 1 in S {
      CompletedWithLast(c, F, S);
    } else {
      NotCompletedWithoutLast(c, F, S, x);
    }
  }

  lemma FullSnoc(S: set<nat>, n: nat)
    ensures Full(S, n + 1) <==> Full(S, n) && n in S
  {
  }
}
