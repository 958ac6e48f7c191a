/**
  * Where an emitted datagram comes from, in any run of arrivals at a key: no validity of the
  * fragments is assumed.
  */
module Provenance {
  import opened Words
  import opened Packets
  import opened Fragments
  import opened Reassembly
  import opened Orders

  /** What the last arrival leaves collected, before the test for completion. */
  function Next(deadline: int, arrivals: seq<Arrival>): Collected
    requires arrivals != []
  {
    var a := arrivals[|arrivals| - 1];
    Add(Current(CollectAll(None, deadline, arrivals[..|arrivals| - 1]).0, deadline, a.now), a.frag, a.now)
  }

  /** The index of the arrival that began the collection which the last arrival joined. */
  function Start(deadline: int, arrivals: seq<Arrival>): (s: nat)
    requires arrivals != []
    ensures s < |arrivals|
  {
    var init, a := arrivals[..|arrivals| - 1], arrivals[|arrivals| - 1];
    var c := CollectAll(None, deadline, init).0;
    if init == [] || Current(c, deadline, a.now).frags == [] then |init| else Start(deadline, init)
  }

  function Frags(arrivals: seq<Arrival>): seq<Datagram> {
    if arrivals == [] then [] else Frags(arrivals[..|arrivals| - 1]) + [arrivals[|arrivals| - 1].frag]
  }

  lemma LastOutput(deadline: int, arrivals: seq<Arrival>)
    requires arrivals != []
    ensures var (c, outs) := CollectAll(None, deadline, arrivals);
            var next := Next(deadline, arrivals);
            && next.frags != [] && next.lastSeen == arrivals[|arrivals| - 1].now
            && outs[..|outs| - 1] == CollectAll(None, deadline, arrivals[..|arrivals| - 1]).1
            && (if Completed(next) then c == None && outs[|outs| - 1] == Whole(Concatenate(next.frags), next.frags)
                else c == Some(next) && outs[|outs| - 1] == Nothing)
  {
  }

  /** Joining a collection that is not empty means that the arrival before was not the last of a
      datagram, left its collection behind, and is recent. */
  lemma JoinsLast(deadline: int, arrivals: seq<Arrival>)
    requires |arrivals| >= 2
    requires var n := |arrivals|;
             Current(CollectAll(None, deadline, arrivals[..n - 1]).0, deadline, arrivals[n - 1].now).frags != []
    ensures var n := |arrivals|;
            var init, a := arrivals[..n - 1], arrivals[n - 1];
            && Current(CollectAll(None, deadline, init).0, deadline, a.now) == Next(deadline, init)
            && CollectAll(None, deadline, init).1[n - 2] == Nothing
            && (deadline > 0 ==> a.now - init[n - 2].now <= deadline)
  {
    LastOutput(deadline, arrivals[..|arrivals| - 1]);
    hide Add, CollectAll, Completed, Concatenate, Next;
  }

  /** `frags` are exactly the fragments of the arrivals from number `s` on; these arrived in time,
      and nothing was emitted before the last of them. */
  ghost predicate Recent(deadline: int, arrivals: seq<Arrival>, s: nat, frags: seq<Datagram>) {
    && s < |arrivals|
    && multiset(frags) == multiset(Frags(arrivals[s..]))
    && Timely(arrivals[s..], deadline)
    && forall i | s <= i < |arrivals| - 1 :: CollectAll(None, deadline, arrivals).1[i] == Nothing
  }

  lemma RecentStep(deadline: int, init: seq<Arrival>, a: Arrival, s: nat, frags: seq<Datagram>, frags': seq<Datagram>)
    requires Recent(deadline, init, s, frags) && multiset(frags') == multiset(frags) + multiset{a.frag}
    requires CollectAll(None, deadline, init).1[|init| - 1] == Nothing
    requires deadline > 0 ==> a.now - init[|init| - 1].now <= deadline
    ensures Recent(deadline, init + [a], s, frags')
  {
    hide Collect;
    CollectAllSnoc(None, deadline, init, a);
    assert (init + [a])[s..] == init[s..] + [a];
    FragsSnoc(init[s..], a);
    TimelySnoc(init[s..], a, deadline);
    hide CollectAll, Timely, Frags;
    var outs, outs' := CollectAll(None, deadline, init).1, CollectAll(None, deadline, init + [a]).1;
    forall i | s <= i < |init| ensures outs'[i] == Nothing {
      assert outs'[i] == outs[i];
    }
  }

  lemma RecentOne(deadline: int, init: seq<Arrival>, a: Arrival, frags: seq<Datagram>)
    requires multiset(frags) == multiset{a.frag}
    ensures Recent(deadline, init + [a], |init|, frags)
  {
    assert (init + [a])[|init|..] == [a];
    FragsSnoc([], a);
  }

  lemma NextBegins(deadline: int, arrivals: seq<Arrival>)
    requires arrivals != []
    requires var n := |arrivals|;
             Current(CollectAll(None, deadline, arrivals[..n - 1]).0, deadline, arrivals[n - 1].now).frags == []
    ensures Recent(deadline, arrivals, Start(deadline, arrivals), Next(deadline, arrivals).frags)
  {
    hide Recent, Add, Collect, CollectAll, Current;
    var n := |arrivals|;
    var init, a := arrivals[..n - 1], arrivals[n - 1];
    assert Start(deadline, arrivals) == |init|;
    AddFrags(Current(CollectAll(None, deadline, init).0, deadline, a.now), a.frag, a.now);
    hide Start;
    assert init + [a] == arrivals;
    RecentOne(deadline, init, a, Next(deadline, arrivals).frags);
  }

  lemma NextContinues(deadline: int, arrivals: seq<Arrival>)
    requires |arrivals| >= 2
    requires var n := |arrivals|;
             && Current(CollectAll(None, deadline, arrivals[..n - 1]).0, deadline, arrivals[n - 1].now).frags != []
             && Recent(deadline, arrivals[..n - 1], Start(deadline, arrivals[..n - 1]),
                       Next(deadline, arrivals[..n - 1]).frags)
    ensures Recent(deadline, arrivals, Start(deadline, arrivals), Next(deadline, arrivals).frags)
  {
    hide Recent, Add, CollectAll, Current;
    var n := |arrivals|;
    var init, a := arrivals[..n - 1], arrivals[n - 1];
    JoinsLast(deadline, arrivals);
    assert Start(deadline, arrivals) == Start(deadline, init);
    assert Next(deadline, arrivals) == Add(Next(deadline, init), a.frag, a.now);
    hide Next, Start;
    AddFrags(Next(deadline, init), a.frag, a.now);
    RecentStep(deadline, init, a, Start(deadline, init), Next(deadline, init).frags, Next(deadline, arrivals).frags);
    assert init + [a] == arrivals;
  }

  /** The collection that the last arrival joins holds exactly the fragments that have arrived since
      it began, in time, and nothing was emitted since then. */
  lemma {:induction false} NextIsRecent(deadline: int, arrivals: seq<Arrival>)
    requires arrivals != []
    ensures Recent(deadline, arrivals, Start(deadline, arrivals), Next(deadline, arrivals).frags)
  {
    var n := |arrivals|;
    var c := Current(CollectAll(None, deadline, arrivals[..n - 1]).0, deadline, arrivals[n - 1].now);
    assert n == 1 ==> c.frags == [];
    hide Recent, Add, Collect, CollectAll, Current, Next, Start;
    if c.frags == [] {
      NextBegins(deadline, arrivals);
    } else {
      NextIsRecent(deadline, arrivals[..n - 1]);
      NextContinues(deadline, arrivals);
    }
  }

  lemma FragsSnoc(arrivals: seq<Arrival>, a: Arrival)
    ensures Frags(arrivals + [a]) == Frags(arrivals) + [a.frag]
  {
    assert (arrivals + [a])[..|arrivals|] == arrivals;
  }

  lemma AddFrags(c: Collected, f: Datagram, now: int)
    ensures multiset(Add(c, f, now).frags) == multiset(c.frags) + multiset{f}
  {
  }

  lemma TimelySnoc(arrivals: seq<Arrival>, a: Arrival, deadline: int)
    requires arrivals != [] && Timely(arrivals, deadline)
    requires deadline > 0 ==> a.now - arrivals[|arrivals| - 1].now <= deadline
    ensures Timely(arrivals + [a], deadline)
  {
  }

  /** The outputs so far do not change when more arrives. */
  lemma OutputsArePrefix(deadline: int, arrivals: seq<Arrival>, k: nat)
    requires k <= |arrivals|
    ensures CollectAll(None, deadline, arrivals).1[..k] == CollectAll(None, deadline, arrivals[..k]).1
  {
    hide Collect;
    assert arrivals[..k] + arrivals[k..] == arrivals;
    CollectAllAppend(None, deadline, arrivals[..k], arrivals[k..]);
  }

  /** No stale mixing, and no fragment is used twice or lost: whatever arrives at a key, an emitted
      datagram is made of exactly the consecutive arrivals since its collection began; no two
      successive ones are further apart than a positive deadline; and nothing was emitted in between. */
  lemma EmittedFromRecent(deadline: int, arrivals: seq<Arrival>, i: nat)
    requires i < |arrivals| && CollectAll(None, deadline, arrivals).1[i].Whole?
    ensures var outs, s := CollectAll(None, deadline, arrivals).1, Start(deadline, arrivals[..i + 1]);
            && multiset(outs[i].originals) == multiset(Frags(arrivals[s..i + 1]))
            && outs[i].originals != [] && outs[i].datagram == Concatenate(outs[i].originals)
            && Timely(arrivals[s..i + 1], deadline)
            && forall j | s <= j < i :: outs[j] == Nothing
  {
    var part := arrivals[..i + 1];
    var s := Start(deadline, part);
    OutputsArePrefix(deadline, arrivals, i + 1);
    NextIsRecent(deadline, part);
    LastOutput(deadline, part);
    assert part[s..] == arrivals[s..i + 1];
    hide CollectAll, Next, Start, Concatenate, Completed, Timely, Frags;
    var outs := CollectAll(None, deadline, arrivals).1;
    forall j | s <= j < i ensures outs[j] == Nothing {
      assert outs[j] == outs[..i + 1][j];
    }
    assert outs[i] == outs[..i + 1][i];
  }

  // ------------------------------------------------------------ when something is emitted

  /** The payload bytes of the fragments with More Fragments set. */
  function InnerBytes(frags: seq<Datagram>): nat {
    if frags == [] then 0
    else
      var f := frags[|frags| - 1];
      InnerBytes(frags[..|frags| - 1]) + (if MoreFragments(f.ip) then |f.payload| else 0)
  }

  /** The offset of the last of the fragments without More Fragments, or 0. */
  function FinalOffset(frags: seq<Datagram>): U16 {
    if frags == [] then 0
    else
      var f := frags[|frags| - 1];
      if MoreFragments(f.ip) then FinalOffset(frags[..|frags| - 1]) else f.ip.fragOffset
  }

  ghost predicate ByOffset(frags: seq<Datagram>) {
    forall i, j | 0 <= i < j < |frags| :: frags[i].ip.fragOffset <= frags[j].ip.fragOffset
  }

  /** What a collection of the fragments `recent`, in order of arrival, looks like. */
  ghost predicate Tallied(c: Collected, recent: seq<Datagram>) {
    && c.length == Wrap16(InnerBytes(recent)) && c.offset == FinalOffset(recent)
    && ByOffset(c.frags)
  }

  lemma InsertHas(frags: seq<Datagram>, f: Datagram, g: Datagram)
    requires g in Insert(frags, f)
    ensures g in frags || g == f
  {
    hide Insert;
    assert g in multiset(Insert(frags, f));
  }

  lemma ByOffsetSnoc(frags: seq<Datagram>, last: Datagram)
    requires ByOffset(frags) && forall g | g in frags :: g.ip.fragOffset <= last.ip.fragOffset
    ensures ByOffset(frags + [last])
  {
  }

  lemma ByOffsetInit(frags: seq<Datagram>)
    requires ByOffset(frags) && frags != []
    ensures var init, last := frags[..|frags| - 1], frags[|frags| - 1];
            ByOffset(init) && forall g | g in init :: g.ip.fragOffset <= last.ip.fragOffset
  {
  }

  lemma {:induction false} InsertByOffset(frags: seq<Datagram>, f: Datagram)
    requires ByOffset(frags)
    ensures ByOffset(Insert(frags, f))
  {
    if frags == [] {
    } else {
      var init, last := frags[..|frags| - 1], frags[|frags| - 1];
      assert frags == init + [last];
      ByOffsetInit(frags);
      hide ByOffset;
      if last.ip.fragOffset <= f.ip.fragOffset {
        ByOffsetSnoc(frags, f);
      } else {
        InsertInside(init, last, f);
        InsertByOffset(init, f);
        forall g | g in Insert(init, f) ensures g.ip.fragOffset <= last.ip.fragOffset {
          InsertHas(init, f, g);
        }
        ByOffsetSnoc(Insert(init, f), last);
      }
    }
  }

  lemma AddLength(c: Collected, f: Datagram, now: int, inner: nat)
    requires c.length == Wrap16(inner)
    ensures Add(c, f, now).length == Wrap16(inner + (if MoreFragments(f.ip) then |f.payload| else 0))
  {
    WrapAdd16(inner, |f.payload|);
    WrapAdd16(|f.payload|, c.length);
    hide Insert, Wrap16, MoreFragments;
  }

  lemma TallySnoc(recent: seq<Datagram>, f: Datagram)
    ensures InnerBytes(recent + [f]) == InnerBytes(recent) + (if MoreFragments(f.ip) then |f.payload| else 0)
    ensures FinalOffset(recent + [f]) == if MoreFragments(f.ip) then FinalOffset(recent) else f.ip.fragOffset
  {
    assert (recent + [f])[..|recent|] == recent;
  }

  lemma AddTallied(c: Collected, recent: seq<Datagram>, f: Datagram, now: int)
    requires Tallied(c, recent)
    ensures Tallied(Add(c, f, now), recent + [f])
  {
    hide Insert, ByOffset, Wrap16, MoreFragments, InnerBytes, FinalOffset;
    InsertByOffset(c.frags, f);
    AddLength(c, f, now, InnerBytes(recent));
    TallySnoc(recent, f);
  }

  /** A collection that is kept is not empty. */
  lemma KeptNotEmpty(deadline: int, arrivals: seq<Arrival>)
    ensures var c := CollectAll(None, deadline, arrivals).0; c.Some? ==> c.value.frags != []
  {
    if arrivals != [] {
      LastOutput(deadline, arrivals);
    }
  }

  /** An arrival that joins nothing begins a collection. */
  lemma BeginsAfresh(deadline: int, arrivals: seq<Arrival>)
    requires arrivals != []
    requires var n := |arrivals|;
             Current(CollectAll(None, deadline, arrivals[..n - 1]).0, deadline, arrivals[n - 1].now).frags == []
    ensures var a := arrivals[|arrivals| - 1];
            && Next(deadline, arrivals) == Add(Collected(0, 0, [], a.now), a.frag, a.now)
            && Start(deadline, arrivals) == |arrivals| - 1
  {
    KeptNotEmpty(deadline, arrivals[..|arrivals| - 1]);
    hide Add, CollectAll;
  }

  lemma TallyBegins(deadline: int, arrivals: seq<Arrival>)
    requires arrivals != []
    requires var n := |arrivals|;
             Current(CollectAll(None, deadline, arrivals[..n - 1]).0, deadline, arrivals[n - 1].now).frags == []
    ensures Tallied(Next(deadline, arrivals), Frags(arrivals[Start(deadline, arrivals)..]))
  {
    hide *;
    var n := |arrivals| - 1;
    var a := arrivals[n];
    BeginsAfresh(deadline, arrivals);
    NoneTallied(a.now);
    NoFrags();
    FragsSnoc([], a);
    AddTallied(Collected(0, 0, [], a.now), [], a.frag, a.now);
    assert [] + [a] == [a] == arrivals[n..] && [] + [a.frag] == [a.frag];
  }

  lemma TallyContinues(deadline: int, arrivals: seq<Arrival>)
    requires |arrivals| >= 2
    requires var n := |arrivals|;
             && Current(CollectAll(None, deadline, arrivals[..n - 1]).0, deadline, arrivals[n - 1].now).frags != []
             && Tallied(Next(deadline, arrivals[..n - 1]),
                        Frags(arrivals[..n - 1][Start(deadline, arrivals[..n - 1])..]))
    ensures Tallied(Next(deadline, arrivals), Frags(arrivals[Start(deadline, arrivals)..]))
  {
    hide Add, CollectAll, Current, Frags, Tallied;
    var n := |arrivals|;
    var init, a := arrivals[..n - 1], arrivals[n - 1];
    var s := Start(deadline, init);
    JoinsLast(deadline, arrivals);
    assert Start(deadline, arrivals) == s && arrivals[s..] == init[s..] + [a];
    assert Next(deadline, arrivals) == Add(Next(deadline, init), a.frag, a.now);
    hide Next, Start;
    FragsSnoc(init[s..], a);
    AddTallied(Next(deadline, init), Frags(init[s..]), a.frag, a.now);
  }

  lemma {:induction false} NextTallied(deadline: int, arrivals: seq<Arrival>)
    requires arrivals != []
    ensures Tallied(Next(deadline, arrivals), Frags(arrivals[Start(deadline, arrivals)..]))
  {
    var n := |arrivals|;
    var c := Current(CollectAll(None, deadline, arrivals[..n - 1]).0, deadline, arrivals[n - 1].now);
    assert n == 1 ==> c.frags == [];
    hide Add, Collect, CollectAll, Current, Next, Start, Frags, Tallied;
    if c.frags == [] {
      TallyBegins(deadline, arrivals);
    } else {
      NextTallied(deadline, arrivals[..n - 1]);
      TallyContinues(deadline, arrivals);
    }
  }

  lemma NoFrags()
    ensures Frags([]) == []
  {
  }

  lemma NoneTallied(now: int)
    ensures Tallied(Collected(0, 0, [], now), [])
  {
  }

  /** Exactly when something is emitted, whatever arrives at a key: when the payload bytes of the
      fragments with More Fragments set that arrived since the collection began, modulo 2^16 and over
      8, are the offset of the last one without. The pieces are then handed over in order of offset. */
  lemma EmitsIff(deadline: int, arrivals: seq<Arrival>, i: nat)
    requires i < |arrivals|
    ensures var out, s := CollectAll(None, deadline, arrivals).1[i], Start(deadline, arrivals[..i + 1]);
            var recent := Frags(arrivals[s..i + 1]);
            && (out.Whole? <==> InnerBytes(recent) % U16_SIZE / 8 == FinalOffset(recent))
            && (out.Whole? ==> ByOffset(out.originals))
  {
    var part := arrivals[..i + 1];
    OutputsArePrefix(deadline, arrivals, i + 1);
    NextTallied(deadline, part);
    LastOutput(deadline, part);
    var s := Start(deadline, part);
    assert part[s..] == arrivals[s..i + 1];
    assert CollectAll(None, deadline, arrivals).1[i] == CollectAll(None, deadline, arrivals).1[..i + 1][i];
    hide CollectAll, Next, Start, Concatenate, Frags, InnerBytes, FinalOffset, ByOffset;
  }

  // ------------------------------------------------------------ duplicates

  lemma {:induction false} StartsAtOnce(deadline: int, arrivals: seq<Arrival>)
    requires arrivals != [] && Timely(arrivals, deadline)
    requires forall i | 0 <= i < |arrivals| - 1 :: CollectAll(None, deadline, arrivals).1[i] == Nothing
    ensures Start(deadline, arrivals) == 0
  {
    var n := |arrivals|;
    var init := arrivals[..n - 1];
    hide Add, Completed, Concatenate;
    LastOutput(deadline, arrivals);
    if init != [] {
      LastOutput(deadline, init);
      var outs, outs' := CollectAll(None, deadline, arrivals).1, CollectAll(None, deadline, init).1;
      assert forall i | 0 <= i < n - 1 :: outs'[i] == outs[i];
      assert outs'[n - 2] == Nothing;
      StartsAtOnce(deadline, init);
    }
  }

  lemma {:induction false} FragsAt(arrivals: seq<Arrival>)
    ensures |Frags(arrivals)| == |arrivals|
    ensures forall i | 0 <= i < |arrivals| :: Frags(arrivals)[i] == arrivals[i].frag
  {
    if arrivals != [] {
      FragsAt(arrivals[..|arrivals| - 1]);
    }
  }

  lemma CountedTwice<T>(s: seq<T>, i: nat, j: nat)
    requires i < j < |s| && s[i] == s[j]
    ensures multiset(s)[s[j]] >= 2
  {
    assert s == s[..i] + [s[i]] + s[i + 1..j] + [s[j]] + s[j + 1..];
  }

  /** The fragments of a set are all different. */
  lemma {:induction false} CountedOnce(F: seq<Datagram>, n: nat, f: Datagram)
    requires Increasing(F) && n <= |F|
    ensures multiset(F[..n])[f] <= 1
    ensures multiset(F[..n])[f] == 1 ==> exists i :: 0 <= i < n && F[i] == f
  {
    if n > 0 {
      CountedOnce(F, n - 1, f);
      assert F[..n] == F[..n - 1] + [F[n - 1]];
      if i :| 0 <= i < n - 1 && F[i] == f {
        assert F[i].ip.fragOffset < F[n - 1].ip.fragOffset;
      }
    }
  }

  /** Suppose fragments of one datagram arrive in time, possibly more than once, and the first thing
      they make the defragmenter emit is emitted at the last of these arrivals. Then it is made of the
      fragments of that datagram, each of them once, if and only if no fragment arrived twice. */
  lemma EmissionIsSetIff(F: seq<Datagram>, order: seq<nat>, arrivals: seq<Arrival>, deadline: int)
    requires FragmentSet(F) && Delivers(arrivals, F, order) && Timely(arrivals, deadline) && arrivals != []
    requires var outs := CollectAll(None, deadline, arrivals).1;
             && outs[|outs| - 1].Whole?
             && forall i | 0 <= i < |outs| - 1 :: outs[i] == Nothing
    ensures var outs := CollectAll(None, deadline, arrivals).1;
            outs[|outs| - 1].originals == F <==> NoDuplicates(order)
  {
    if NoDuplicates(order) {
      ArriveOnce(F, order, arrivals, deadline);
    } else {
      var i, j :| 0 <= i < j < |order| && order[i] == order[j];
      FragmentSetFacts(F);
      FragsAt(arrivals);
      assert Frags(arrivals)[i] == Frags(arrivals)[j];
      hide FragmentSet, Increasing, Delivers, Timely;
      SoleOutput(deadline, arrivals);
      NotASet(F, Frags(arrivals), i, j);
    }
  }

  /** The first emission is made of everything that has arrived. */
  lemma SoleOutput(deadline: int, arrivals: seq<Arrival>)
    requires arrivals != [] && Timely(arrivals, deadline)
    requires var outs := CollectAll(None, deadline, arrivals).1;
             && outs[|outs| - 1].Whole?
             && forall i | 0 <= i < |outs| - 1 :: outs[i] == Nothing
    ensures var outs := CollectAll(None, deadline, arrivals).1;
            multiset(outs[|outs| - 1].originals) == multiset(Frags(arrivals))
  {
    StartsAtOnce(deadline, arrivals);
    EmittedFromRecent(deadline, arrivals, |arrivals| - 1);
    assert arrivals[0..] == arrivals && arrivals[..|arrivals|] == arrivals;
  }

  lemma NotASet(F: seq<Datagram>, s: seq<Datagram>, i: nat, j: nat)
    requires Increasing(F) && i < j < |s| && s[i] == s[j]
    ensures multiset(s) != multiset(F)
  {
    CountedTwice(s, i, j);
    CountedOnce(F, |F|, s[j]);
    assert F[..|F|] == F;
  }

  lemma ArriveOnce(F: seq<Datagram>, order: seq<nat>, arrivals: seq<Arrival>, deadline: int)
    requires FragmentSet(F) && Batch(arrivals, F, order, deadline) && arrivals != []
    requires var outs := CollectAll(None, deadline, arrivals).1; outs[|outs| - 1].Whole?
    ensures var outs := CollectAll(None, deadline, arrivals).1; outs[|outs| - 1].originals == F
  {
    FullIff(order, |F|);
    IndicesSize(order);
    RangeSize(|F|);
    SubsetSize(Indices(order), Range(|F|));
    if |order| < |F| {
      NothingEarly(F, order, arrivals, deadline);
    } else {
      ReassemblyInverts(F, order, arrivals, deadline);
    }
  }

  /** Exactly when reassembly is right. Let fragments of one datagram arrive in time, in any order and
      each any number of times. The last arrival, and only it, emits the datagram made of these
      fragments, if and only if every fragment arrived exactly once. */
  lemma RightIffNoDuplicates(F: seq<Datagram>, order: seq<nat>, arrivals: seq<Arrival>, deadline: int)
    requires FragmentSet(F) && Delivers(arrivals, F, order) && Timely(arrivals, deadline) && arrivals != []
    ensures CollectAll(None, deadline, arrivals).1 == Nothings(|arrivals| - 1) + [Whole(Concatenate(F), F)]
            <==> NoDuplicates(order) && |order| == |F|
  {
    var outs := CollectAll(None, deadline, arrivals).1;
    if outs == Nothings(|arrivals| - 1) + [Whole(Concatenate(F), F)] {
      NothingsAre(|arrivals| - 1, outs, Whole(Concatenate(F), F));
      EmissionIsSetIff(F, order, arrivals, deadline);
      SetSize(F, order, arrivals, deadline);
    }
    if NoDuplicates(order) && |order| == |F| {
      ReassemblyInverts(F, order, arrivals, deadline);
    }
  }

  lemma NothingsAre(n: nat, outs: seq<Output>, last: Output)
    requires outs == Nothings(n) + [last]
    ensures |outs| == n + 1 && outs[n] == last
    ensures forall i | 0 <= i < n :: outs[i] == Nothing
  {
  }

  /** Different fragments that make the last arrival emit something are all of the set. */
  lemma SetSize(F: seq<Datagram>, order: seq<nat>, arrivals: seq<Arrival>, deadline: int)
    requires FragmentSet(F) && Batch(arrivals, F, order, deadline) && arrivals != []
    requires var outs := CollectAll(None, deadline, arrivals).1; outs[|outs| - 1].Whole?
    ensures |order| == |F|
  {
    FullIff(order, |F|);
    IndicesSize(order);
    RangeSize(|F|);
    SubsetSize(Indices(order), Range(|F|));
    if |order| < |F| {
      NothingEarly(F, order, arrivals, deadline);
    }
  }

  /** An input for which it is wrong: of three fragments, the first two equally long with different
      payloads, the first arrives twice instead of the second. A datagram is completed, and it is
      not the one that was sent. */
  lemma DuplicateCompletes(F: seq<Datagram>, now: int)
    requires FragmentSet(F) && |F| == 3
    requires |F[0].payload| == |F[1].payload| && F[0].payload != F[1].payload
    ensures var arrivals := [Arrival(F[0], now), Arrival(F[0], now), Arrival(F[2], now)];
            var wrong := Concatenate([F[0], F[0], F[2]]);
            && CollectAll(None, 0, arrivals).1 == [Nothing, Nothing, Whole(wrong, [F[0], F[0], F[2]])]
            && wrong != Concatenate(F)
  {
    FragmentSetFacts(F);
    var l := |F[0].payload|;
    assert Before(F, 0) == 0 && Before(F, 1) == l && Before(F, 2) == 2 * l;
    assert MoreFragments(F[0].ip) == Follows(0, 3, false) && MoreFragments(F[2].ip) == Follows(2, 3, false);
    assert F[0].ip.fragOffset < F[2].ip.fragOffset;
    assert l > 0 && Aligned(l) && 8 * F[2].ip.fragOffset == 2 * l <= IPV4_MAX;
    assert 8 * F[0].ip.fragOffset == 0;
    hide FragmentSet, Increasing, Octets;
    DuplicateSteps(F[0], F[2], now);
    SecondPayload(F);
  }

  lemma SecondPayload(F: seq<Datagram>)
    requires |F| == 3 && |F[0].payload| == |F[1].payload| && F[0].payload != F[1].payload
    ensures Concatenate([F[0], F[0], F[2]]) != Concatenate(F)
  {
    var a, b, c := F[0].payload, F[1].payload, F[2].payload;
    JoinedThree(F);
    JoinedThree([F[0], F[0], F[2]]);
    hide Joined;
    assert (a + b + c)[|a|..|a| + |b|] == b && (a + a + c)[|a|..|a| + |b|] == a;
  }

  lemma JoinedThree(F: seq<Datagram>)
    requires |F| == 3
    ensures Joined(F, 3) == F[0].payload + F[1].payload + F[2].payload
  {
    JoinedStep(F, 0);
    JoinedStep(F, 1);
    JoinedStep(F, 2);
    assert Joined(F, 0) == [];
    hide Joined;
    assert [] + F[0].payload == F[0].payload;
  }

  lemma JoinedStep(F: seq<Datagram>, k: nat)
    requires k < |F|
    ensures Joined(F, k + 1) == Joined(F, k) + F[k].payload
  {
  }

  lemma DuplicateSteps(f: Datagram, last: Datagram, now: int)
    requires MoreFragments(f.ip) && !MoreFragments(last.ip) && f.ip.fragOffset == 0
    requires |f.payload| > 0 && Aligned(|f.payload|)
    requires 8 * last.ip.fragOffset == 2 * |f.payload| <= IPV4_MAX
    ensures CollectAll(None, 0, [Arrival(f, now), Arrival(f, now), Arrival(last, now)]).1
            == [Nothing, Nothing, Whole(Concatenate([f, f, last]), [f, f, last])]
  {
    FirstOne(f, now);
    FirstAgain(f, now);
    LastOne(f, last, now);
    hide Collect, Concatenate, MoreFragments, Aligned;
    ThreeArrivals(Arrival(f, now), Arrival(f, now), Arrival(last, now));
  }

  lemma ThreeArrivals(a: Arrival, b: Arrival, c: Arrival)
    ensures var (s1, o1) := Collect(None, 0, a);
            var (s2, o2) := Collect(s1, 0, b);
            CollectAll(None, 0, [a, b, c]).1 == [o1, o2, Collect(s2, 0, c).1]
  {
    hide Collect;
    CollectAllSnoc(None, 0, [], a);
    CollectAllSnoc(None, 0, [a], b);
    CollectAllSnoc(None, 0, [a, b], c);
    assert [] + [a] == [a] && [a] + [b] == [a, b] && [a, b] + [c] == [a, b, c];
  }

  lemma FirstOne(f: Datagram, now: int)
    requires MoreFragments(f.ip) && 0 < |f.payload| <= IPV4_MAX && Aligned(|f.payload|)
    ensures Collect(None, 0, Arrival(f, now)) == (Some(Collected(|f.payload|, 0, [f], now)), Nothing)
  {
    CountFits(0, |f.payload|);
    EighthIs(|f.payload|, 0);
    InsertAtEnd([], f);
  }

  lemma FirstAgain(f: Datagram, now: int)
    requires MoreFragments(f.ip) && 0 < |f.payload| && 2 * |f.payload| <= IPV4_MAX && Aligned(|f.payload|)
    ensures Collect(Some(Collected(|f.payload|, 0, [f], now)), 0, Arrival(f, now))
            == (Some(Collected(|f.payload| + |f.payload|, 0, [f, f], now)), Nothing)
  {
    CountFits(|f.payload|, |f.payload|);
    AlignedSum(|f.payload|, |f.payload|);
    EighthIs(|f.payload| + |f.payload|, 0);
    InsertAtEnd([f], f);
    assert [f] + [f] == [f, f];
  }

  lemma LastOne(f: Datagram, last: Datagram, now: int)
    requires !MoreFragments(last.ip) && f.ip.fragOffset == 0
    requires Aligned(|f.payload|) && 8 * last.ip.fragOffset == 2 * |f.payload| <= IPV4_MAX
    ensures Collect(Some(Collected(|f.payload| + |f.payload|, 0, [f, f], now)), 0, Arrival(last, now))
            == (None, Whole(Concatenate([f, f, last]), [f, f, last]))
  {
    AlignedSum(|f.payload|, |f.payload|);
    EighthIs(|f.payload| + |f.payload|, last.ip.fragOffset);
    InsertAtEnd([f, f], last);
    assert [f, f] + [last] == [f, f, last];
  }
}
