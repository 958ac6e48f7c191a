/**
  * The reassembler as it is written (internal/pcap/fragment.go): indicator objects changed in
  * place, and a table from keys to them. Each method is proved against the functions on values.
  */
module Defragmenter {
  import opened Words
  import opened Packets
  import opened Fragments
  import opened Reassembly
  import Interleaving

  class FragIndicator {
    var length: U16
    var offset: U16
    var frags: seq<Datagram>
    var lastSeen: int

    ghost function Value(): Collected
      reads this
    {
      Collected(length, offset, frags, lastSeen)
    }

    constructor (now: int)
      ensures Value() == Collected(0, 0, [], now)
    {
      length, offset, frags, lastSeen := 0, 0, [], now;
    }

    method Append(f: Datagram, now: int)
      modifies this
      ensures Value() == Add(old(Value()), f, now)
    {
      lastSeen := now;
      if MoreFragments(f.ip) {
        length := Wrap16(length + Wrap16(|f.payload|));
      } else {
        offset := f.ip.fragOffset;
      }
      frags := Insert(frags, f);
    }

    method IsCompleted() returns (done: bool)
      ensures done <==> Completed(Value())
    {
      done := length / 8 == offset;
    }

    method ConcatenateFrags() returns (d: Datagram)
      requires frags != []
      ensures d == Concatenate(frags)
    {
      var contents: seq<Byte> := [];
      for i := 0 to |frags|
        invariant contents == Joined(frags, i)
      {
        contents := contents + frags[i].payload;
      }
      d := Datagram(FlagIPv4(frags[0].ip, false, false, 0), contents);
    }
  }

  class EasyDefragmenter {
    var frags: map<Flow, FragIndicator?>
    var deadline: int

    ghost function Objects(): set<FragIndicator>
      reads this
    {
      set k | k in frags && frags[k] != null :: frags[k]
    }

    /** No two keys share an indicator. */
    ghost predicate Valid()
      reads this
    {
      forall j, k | j in frags && k in frags && j != k && frags[j] != null :: frags[j] != frags[k]
    }

    /** The table that the fields represent: an entry set to nil counts as absent. */
    ghost function Value(): Interleaving.Table
      reads this, Objects()
    {
      map k | k in frags && frags[k] != null :: frags[k].Value()
    }

    constructor (deadline: int)
      ensures Valid() && Value() == map[] && Objects() == {} && this.deadline == deadline
    {
      frags := map[];
      this.deadline := deadline;
    }

    /** The indicator of a key: a new one when there is none or when the old one is too old. */
    method Obtain(k: Flow, now: int) returns (indicator: FragIndicator)
      requires Valid()
      modifies this`frags
      ensures Valid() && frags == old(frags)[k := indicator]
      ensures fresh(indicator) || indicator in old(Objects())
      ensures indicator.Value() == old(Current(Interleaving.Lookup(Value(), k), deadline, now))
      ensures forall j | j in old(frags) && j != k :: old(frags[j]) != indicator
    {
      if k !in frags || frags[k] == null {
        indicator := new FragIndicator(now);
      } else {
        indicator := frags[k];
        assert Value()[k] == indicator.Value();
      }
      if deadline > 0 && now - indicator.lastSeen > deadline {
        indicator := new FragIndicator(now);
      }
      frags := frags[k := indicator];
    }

    /** The fragment joins the indicator of its key. */
    method Extend(a: Arrival) returns (indicator: FragIndicator)
      requires Valid()
      modifies this`frags, Objects()
      ensures Valid() && fresh(Objects() - old(Objects()))
      ensures FlowOf(a.frag) in frags && frags[FlowOf(a.frag)] == indicator
      ensures var k := FlowOf(a.frag);
              && indicator.Value() == Add(old(Current(Interleaving.Lookup(Value(), k), deadline, a.now)), a.frag, a.now)
              && Value() == old(Value())[k := indicator.Value()]
    {
      hide Current, Add, FlowOf, Interleaving.Lookup;
      var k := FlowOf(a.frag);
      indicator := Obtain(k, a.now);
      indicator.Append(a.frag, a.now);
      OneEntry(k, indicator);
    }

    /** A change to the indicator of one key shows in the table under that key only. */
    twostate lemma OneEntry(k: Flow, new indicator: FragIndicator)
      requires frags == old(frags)[k := indicator]
      requires forall j | j in old(frags) && j != k && old(frags[j]) != null ::
                 old(frags[j]) != indicator && old(frags[j]).Value() == old(frags[j].Value())
      ensures Value() == old(Value())[k := indicator.Value()]
    {
    }

    method AppendOriginal(a: Arrival) returns (out: Output)
      requires Valid()
      modifies this`frags, Objects()
      ensures Valid() && fresh(Objects() - old(Objects()))
      ensures (Value(), out) == Interleaving.AppendOriginal(old(Value()), deadline, a)
    {
      if !IsFragment(a.frag.ip) {
        return Whole(a.frag, [a.frag]);
      }
      var indicator := Extend(a);
      assert indicator.frags == indicator.Value().frags;
      hide Current, Completed, Concatenate;
      SetThenRemove(old(Value()), FlowOf(a.frag), indicator.Value());
      out := Finish(FlowOf(a.frag), indicator);
    }

    /** The test for completion, and the result. */
    method Finish(k: Flow, indicator: FragIndicator) returns (out: Output)
      requires Valid() && indicator.frags != []
      modifies this`frags
      ensures Valid() && Objects() <= old(Objects())
      ensures if Completed(indicator.Value())
              then Value() == old(Value()) - {k} && out == Whole(Concatenate(indicator.frags), indicator.frags)
              else Value() == old(Value()) && out == Nothing
    {
      var done := indicator.IsCompleted();
      if !done {
        return Nothing;
      }
      Remove(k);
      var d := indicator.ConcatenateFrags();
      out := Whole(d, indicator.frags);
    }

    /** A completed indicator is dropped from the table, its key set to nil. */
    method Remove(k: Flow)
      requires Valid()
      modifies this`frags
      ensures Valid() && Objects() <= old(Objects())
      ensures Value() == old(Value()) - {k}
    {
      frags := frags[k := null];
    }
  }

  lemma SetThenRemove(t: Interleaving.Table, k: Flow, c: Collected)
    ensures t[k := c] - {k} == t - {k}
  {
  }
}
