// The buffered reporter: a fixed-capacity buffer handed off when full, and replaced.
module RootsReporting {
  import opened Bits

  const WORK_PACKET_CAPACITY: nat := 4096

  function Flatten(packets: seq<seq<nat>>): seq<nat>
  {
    if packets == [] then [] else Flatten(packets[..|packets| - 1]) + packets[|packets| - 1]
  }

  lemma FlattenSnoc(packets: seq<seq<nat>>, packet: seq<nat>)
    ensures Flatten(packets + [packet]) == Flatten(packets) + packet
  {
    assert (packets + [packet])[..|packets|] == packets;
  }

  lemma {:induction false} FlattenConcat(a: seq<seq<nat>>, b: seq<seq<nat>>)
    ensures Flatten(a + b) == Flatten(a) + Flatten(b)
    decreases |b|
  {
    if b == [] {
      assert a + b == a;
    } else {
      var front, last := b[..|b| - 1], b[|b| - 1];
      FlattenConcat(a, front);
      assert a + b == (a + front) + [last];
      FlattenSnoc(a + front, last);
      assert Flatten(a) + (Flatten(front) + last) == Flatten(a) + Flatten(front) + last;
    }
  }

  /** All packets are full but the last, which is not empty. */
  ghost predicate WellPacked(packets: seq<seq<nat>>, capacities: nat -> nat, first: nat)
  {
    && (forall j {:trigger packets[j]} :: 0 <= j < |packets| ==> 0 < |packets[j]| <= capacities(first + j))
    && (forall j {:trigger packets[j]} :: 0 <= j < |packets| - 1 ==> |packets[j]| == capacities(first + j))
  }

  /** Every packet so far was reported full. */
  ghost predicate AllFull(packets: seq<seq<nat>>, capacities: nat -> nat, first: nat)
  {
    forall j {:trigger packets[j]} :: 0 <= j < |packets| ==> |packets[j]| == capacities(first + j)
  }

  lemma AllFullSnoc(packets: seq<seq<nat>>, packet: seq<nat>, capacities: nat -> nat, first: nat)
    requires AllFull(packets, capacities, first) && |packet| == capacities(first + |packets|)
    ensures AllFull(packets + [packet], capacities, first)
  {
  }

  lemma WellPackedSnoc(packets: seq<seq<nat>>, packet: seq<nat>, capacities: nat -> nat, first: nat)
    requires AllFull(packets, capacities, first) && forall i :: capacities(i) > 0
    requires 0 < |packet| <= capacities(first + |packets|)
    ensures WellPacked(packets + [packet], capacities, first)
  {
  }

  /** With one capacity throughout, n reported roots make exactly ceil(n / capacity) packets. */
  lemma {:induction false} PacketCount(packets: seq<seq<nat>>, capacities: nat -> nat, first: nat, capacity: nat)
    requires capacity > 0 && (forall i :: capacities(i) == capacity) && WellPacked(packets, capacities, first)
    ensures |packets| == (|Flatten(packets)| + capacity - 1) / capacity
  {
    var n := |Flatten(packets)|;
    if packets == [] {
      DivModUnique(capacity - 1, capacity, 0, capacity - 1);
    } else {
      var last := |packets| - 1;
      assert 0 < |packets[last]| <= capacity;
      assert forall j :: 0 <= j < last ==> |packets[j]| == capacity;
      FullPackets(packets[..last], capacity);
      var rest := |packets[last]|;
      assert n == last * capacity + rest;
      OneMore(last + 1, capacity);
      DivModUnique(n + capacity - 1, capacity, last + 1, rest - 1);
    }
  }

  /** Whatever capacities the allocator chooses, n reported roots make at most ceil(n / 4096) packets. */
  lemma {:induction false} AtMostSoManyPackets(packets: seq<seq<nat>>, capacities: nat -> nat, first: nat)
    requires (forall i :: capacities(i) >= WORK_PACKET_CAPACITY) && WellPacked(packets, capacities, first)
    ensures |packets| <= (|Flatten(packets)| + 4095) / 4096
  {
    if packets != [] {
      var last := |packets| - 1;
      assert 0 < |packets[last]|;
      forall j | 0 <= j < last
        ensures |packets[j]| >= 4096
      {
        assert |packets[j]| == capacities(first + j);
      }
      LargePackets(packets[..last]);
      assert |Flatten(packets)| > 4096 * last;
    }
  }

  lemma {:induction false} LargePackets(packets: seq<seq<nat>>)
    requires forall j :: 0 <= j < |packets| ==> |packets[j]| >= 4096
    ensures |Flatten(packets)| >= 4096 * |packets|
  {
    if packets != [] {
      LargePackets(packets[..|packets| - 1]);
    }
  }

  lemma {:induction false} FullPackets(packets: seq<seq<nat>>, capacity: nat)
    requires forall j :: 0 <= j < |packets| ==> |packets[j]| == capacity
    ensures |Flatten(packets)| == |packets| * capacity
  {
    if packets != [] {
      FullPackets(packets[..|packets| - 1], capacity);
      OneMore(|packets|, capacity);
    }
  }

  ghost predicate Distinct(buffers: seq<array<nat>>)
  {
    forall i, j :: 0 <= i < j < |buffers| ==> buffers[i] != buffers[j]
  }

  /** The Rust side of the hand-off: turns a reported buffer into a packet of pinned roots, issues the next one. */
  class RootsWorkFactory {
    /** Capacity of the i-th buffer: `Vec::with_capacity` promises at least what was asked for. */
    const capacityOf: nat -> nat
    var packets: seq<seq<nat>>
    var buffers: nat
    ghost var issued: seq<array<nat>>
    ghost var consumed: seq<array<nat>>

    constructor (capacityOf: nat -> nat)
      requires forall i :: capacityOf(i) >= WORK_PACKET_CAPACITY
      ensures this.capacityOf == capacityOf && packets == []
      ensures AllReturned()
    {
      this.capacityOf, packets, buffers, issued, consumed := capacityOf, [], 0, [], [];
    }

    /** Buffers are consumed in the order they were issued, each once; `held` is the one still out. */
    ghost predicate Holds(held: array<nat>)
      reads this
    {
      && issued == consumed + [held] && Distinct(issued) && buffers == |issued|
      && held.Length == capacityOf(|consumed|)
      && (forall i :: capacityOf(i) >= WORK_PACKET_CAPACITY)
    }

    ghost predicate AllReturned()
      reads this
    {
      && issued == consumed && Distinct(issued) && buffers == |issued|
      && (forall i :: capacityOf(i) >= WORK_PACKET_CAPACITY)
    }

    /** report_nodes_and_renew_buffer. */
    method Report(buffer: array?<nat>, length: nat) returns (next: array<nat>)
      requires if buffer == null then AllReturned() else Holds(buffer) && length <= buffer.Length
      modifies this
      ensures packets == if buffer == null then old(packets) else old(packets) + [old(buffer[..length])]
      ensures fresh(next) && Holds(next)
      ensures consumed == old(issued)
    {
      if buffer != null {
        packets := packets + [buffer[..length]];
        consumed := consumed + [buffer];
      }
      next := new nat[capacityOf(buffers)](_ => 0);
      buffers, issued := buffers + 1, issued + [next];
    }

    /** release_buffer: the last buffer goes back without becoming a packet. */
    method Release(buffer: array<nat>)
      requires Holds(buffer)
      modifies this`consumed
      ensures AllReturned() && consumed == old(issued)
    {
      ghost var taken := buffer;
      consumed := consumed + [taken];
    }
  }

  class RootsClosure {
    var buffer: array<nat>
    var cursor: nat
    const factory: RootsWorkFactory

    ghost const earlier: seq<seq<nat>> // the factory's packets from before this closure
    ghost const firstBuffer: nat
    ghost var history: seq<nat>

    /** What has been reported since this closure was made. */
    ghost function Delivered(): seq<seq<nat>>
      reads this, factory
      requires earlier <= factory.packets
    {
      factory.packets[|earlier|..]
    }

    ghost predicate Open()
      reads this, buffer, factory
    {
      && factory.Holds(buffer) && cursor <= buffer.Length
      && earlier <= factory.packets && firstBuffer + |Delivered()| == |factory.consumed|
      && AllFull(Delivered(), factory.capacityOf, firstBuffer)
      && Flatten(Delivered()) + buffer[..cursor] == history
    }

    /** Between calls: nothing reported is lost or repeated, every packet was full, and there is room. */
    ghost predicate Valid()
      reads this, buffer, factory
    {
      Open() && cursor < buffer.Length
    }

    constructor (factory: RootsWorkFactory)
      requires factory.AllReturned()
      modifies factory
      ensures Valid() && history == [] && this.factory == factory
      ensures fresh(this) && fresh(buffer)
      ensures earlier == factory.packets == old(factory.packets)
      ensures firstBuffer == |old(factory.issued)|
    {
      this.factory := factory;
      earlier, firstBuffer := factory.packets, |factory.issued|;
      cursor, history := 0, [];
      var first := factory.Report(null, 0);
      buffer := first;
    }

    method DoWork(p: nat)
      requires Valid()
      modifies this, buffer, factory
      ensures Valid() && history == old(history) + [p]
      ensures buffer == old(buffer) || fresh(buffer)
    {
      buffer[cursor] := p;
      cursor := cursor + 1;
      history := history + [p];
      assert buffer[..cursor] == old(buffer[..cursor]) + [p];
      assert Flatten(Delivered()) + buffer[..cursor] == history;
      if cursor >= buffer.Length {
        Flush();
      }
    }

    /** A flush hands the whole buffer over, as a packet, and continues with an empty one. */
    method Flush()
      requires Open()
      modifies this, buffer, factory
      ensures factory.Holds(buffer) && cursor == 0 && history == old(history)
      ensures old(cursor) == 0 ==> factory.packets == old(factory.packets) && buffer == old(buffer)
      ensures old(cursor) == 0 ==> factory.consumed == old(factory.consumed)
      ensures old(cursor) > 0 ==> factory.packets == old(factory.packets) + [old(buffer[..cursor])] && fresh(buffer)
      ensures old(cursor) > 0 ==> factory.consumed == old(factory.issued)
      ensures old(cursor) == old(buffer.Length) > 0 ==> Valid()
      ensures earlier <= factory.packets && Flatten(Delivered()) == history
    {
      if cursor > 0 {
        ghost var before, last := Delivered(), buffer[..cursor];
        var next := factory.Report(buffer, cursor);
        buffer := next;
        cursor := 0;
        ghost var now := Delivered();
        assert now == before + [last];
        FlattenSnoc(before, last);
        if |last| == old(buffer.Length) {
          AllFullSnoc(before, last, factory.capacityOf, firstBuffer);
        }
      }
    }

    /**
     * `drop`: what is left is flushed and the buffer released. Everything reported has
     * been delivered, in order, in full packets but for the last; every buffer is back.
     */
    method Drop()
      requires Valid()
      modifies this, buffer, factory
      ensures history == old(history)
      ensures earlier <= factory.packets && Flatten(Delivered()) == history
      ensures WellPacked(Delivered(), factory.capacityOf, firstBuffer)
      ensures factory.AllReturned()
    {
      if cursor > 0 {
        ghost var before, last := Delivered(), buffer[..cursor];
        Flush();
        assert Delivered() == before + [last];
        WellPackedSnoc(before, last, factory.capacityOf, firstBuffer);
      }
      factory.Release(buffer);
    }
  }
}
