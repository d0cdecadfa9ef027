/** One chunk from `send` to reassembly, and where the 16-bit fragment count gives out. */
module FragmentLimit {
  import opened Types
  import opened PacketCodec
  import opened Sending
  import opened Reassembly

  ghost predicate OneOf(ps: seq<Packet>, arrivals: seq<Packet>) {
    forall k :: 0 <= k < |arrivals| ==> arrivals[k] in ps
  }

  ghost predicate Covers(ps: seq<Packet>, arrivals: seq<Packet>) {
    forall i :: 0 <= i < |ps| ==> ps[i] in arrivals
  }

  /** Each of the arriving datagrams parses to the packet it was made from. */
  ghost predicate Parses(datagrams: seq<bytes>, arrivals: seq<Packet>) {
    |datagrams| == |arrivals| && forall k :: 0 <= k < |datagrams| ==> ParsePacket(datagrams[k]) == Some(arrivals[k])
  }

  function OneChunk(id: u64, limit: Option<nat>, ts: u64, data: bytes): Source
    requires Sendable(limit, data)
  {
    Source(id, [Cut(limit, ts, data)])
  }

  lemma OneChunkIsGenuine(id: u64, limit: Option<nat>, ts: u64, data: bytes, arrivals: seq<Packet>)
    requires Sendable(limit, data) && OneOf(PacketsFor(id, limit, 0, ts, data), arrivals)
    ensures AllGenuine(OneChunk(id, limit, ts, data), arrivals)
    ensures forall k :: 0 <= k < |arrivals| ==> arrivals[k].seqno == 0
  {
    SenderMakesParts(id, limit, 0, ts, data);
    hide Part, Cut;
    var ps := PacketsFor(id, limit, 0, ts, data);
    forall k | 0 <= k < |arrivals|
      ensures IsGenuine(OneChunk(id, limit, ts, data), arrivals[k]) && arrivals[k].seqno == 0
    {
      var i :| 0 <= i < |ps| && ps[i] == arrivals[k];
      assert ps[i].seqno == 0;
      assert IsPart(OneChunk(id, limit, ts, data), arrivals[k], i);
    }
  }

  /** With a single sequence number about, eviction never happens. */
  lemma {:induction false} OneGroupSurvives(src: Source, cap: nat, arrivals: seq<Packet>)
    requires ValidSource(src) && AllGenuine(src, arrivals) && |src.chunks| == 1
    ensures Survives(cap, arrivals, 0)
  {
    if arrivals != [] {
      var rest, p := arrivals[..|arrivals| - 1], arrivals[|arrivals| - 1];
      OneGroupSurvives(src, cap, rest);
      RunIsSafe(src, PoolOf(rest), cap, rest);
      assert IsGenuine(src, p);
      hide Receive, DecodeContent, Part;
      assert p.seqno == 0;
    }
  }

  /** The first arrival that makes the set of parts complete. */
  lemma {:induction false} SomeArrivalCompletes(src: Source, cap: nat, arrivals: seq<Packet>)
    requires ValidSource(src) && AllGenuine(src, arrivals) && |src.chunks| == 1
    requires |Indices(src, arrivals, 0)| == PartCount(src.chunks[0])
    ensures Whole(src.id, 0, src.chunks[0]) in ReceiveAll(cap, arrivals).1
  {
    hide Receive, Part, IsGenuine, ValidSource, IsPart, Indices, Whole;
    if arrivals == [] {
      EmptyHasNone(src);
    } else {
      var rest, p := arrivals[..|arrivals| - 1], arrivals[|arrivals| - 1];
      assert rest + [p] == arrivals;
      IndicesGrow(src, rest, p, 0);
      SubsetSize(Indices(src, rest, 0), Indices(src, arrivals, 0));
      if |Indices(src, rest, 0)| == PartCount(src.chunks[0]) {
        SomeArrivalCompletes(src, cap, rest);
      } else {
        OneGroupSurvives(src, cap, arrivals);
        LastPartCompletes(src, cap, rest, p, 0);
        assert ReceiveAll(cap, arrivals).1 == ReceiveAll(cap, rest).1 + [Whole(src.id, 0, src.chunks[0])];
      }
    }
  }

  lemma EmptyHasNone(src: Source)
    requires |src.chunks| == 1
    ensures Indices(src, [], 0) == {}
  {
  }

  /** Any datagrams made by one send, in any order and any number of times, as long as each occurs:
      they fit the datagram limit, parse, and reassemble to the compressed chunk and nothing else. */
  lemma ChunkRoundTrip(id: u64, limit: Option<nat>, ts: u64, data: bytes, cap: nat, datagrams: seq<bytes>,
      arrivals: seq<Packet>)
    requires limit.Some? ==> limit.value > PACKET_WIRE_HEADER_SIZE + FRAG_CONTENT_OVERHEAD
    requires |PacketsFor(id, limit, 0, ts, data)| < TWO16
    requires |datagrams| == |arrivals| && forall k :: 0 <= k < |arrivals| ==> datagrams[k] == SerializePacket(arrivals[k])
    requires OneOf(PacketsFor(id, limit, 0, ts, data), arrivals) && Covers(PacketsFor(id, limit, 0, ts, data), arrivals)
    ensures limit.Some? ==> forall k :: 0 <= k < |datagrams| ==> |datagrams[k]| <= limit.value
    ensures Parses(datagrams, arrivals)
    ensures var out := ReceiveAll(cap, arrivals).1;
            out != [] && forall j :: 0 <= j < |out| ==> out[j] == Packet(id, 0, ts, data)
  {
    var src := OneChunk(id, limit, ts, data);
    var ps := PacketsFor(id, limit, 0, ts, data);
    forall k | 0 <= k < |arrivals|
      ensures ParsePacket(datagrams[k]) == Some(arrivals[k])
      ensures limit.Some? ==> |datagrams[k]| <= limit.value
    {
      PacketInverse(datagrams[k], arrivals[k]);
      var i :| 0 <= i < |ps| && ps[i] == arrivals[k];
      if limit.Some? {
        DatagramsFit(id, limit, 0, ts, data, i);
      }
    }
    hide ParsePacket, SerializePacket;
    OneChunkIsValid(id, limit, ts, data);
    OneChunkIsGenuine(id, limit, ts, data, arrivals);
    CoveredIndices(id, limit, ts, data, arrivals);
    hide PacketsFor, Receive, Part, ReceiveAll, ValidSource, AllGenuine, Indices;
    SomeArrivalCompletes(src, cap, arrivals);
    OnlyTheChunk(src, cap, arrivals);
  }

  lemma OnlyTheChunk(src: Source, cap: nat, arrivals: seq<Packet>)
    requires ValidSource(src) && AllGenuine(src, arrivals) && |src.chunks| == 1
    ensures forall j :: 0 <= j < |ReceiveAll(cap, arrivals).1| ==>
              ReceiveAll(cap, arrivals).1[j] == Whole(src.id, 0, src.chunks[0])
  {
    hide ReceiveAll, ValidSource, AllGenuine;
    forall j | 0 <= j < |ReceiveAll(cap, arrivals).1|
      ensures ReceiveAll(cap, arrivals).1[j] == Whole(src.id, 0, src.chunks[0])
    {
      ReassemblySafety(src, cap, arrivals, j);
    }
  }

  lemma OneChunkIsValid(id: u64, limit: Option<nat>, ts: u64, data: bytes)
    requires Sendable(limit, data) && |PacketsFor(id, limit, 0, ts, data)| < TWO16
    ensures ValidSource(OneChunk(id, limit, ts, data))
  {
    CutIsValid(limit, ts, data);
    hide ValidChunk;
  }

  lemma CoveredIndices(id: u64, limit: Option<nat>, ts: u64, data: bytes, arrivals: seq<Packet>)
    requires Sendable(limit, data) && |PacketsFor(id, limit, 0, ts, data)| < TWO16
    requires Covers(PacketsFor(id, limit, 0, ts, data), arrivals)
    ensures var src := OneChunk(id, limit, ts, data);
            |Indices(src, arrivals, 0)| == PartCount(src.chunks[0])
  {
    var src := OneChunk(id, limit, ts, data);
    var n := PartCount(src.chunks[0]);
    SenderMakesParts(id, limit, 0, ts, data);
    hide Part, Cut;
    BelowSize(n);
    assert Indices(src, arrivals, 0) == Below(n);
  }

  // ---------------------------------------------------------------- too many fragments

  /** Datagrams numbered 0 are parts of `c`; the rest can be anything. */
  ghost predicate PartsOf(id: u64, c: Chunk, arrivals: seq<Packet>) {
    forall k :: 0 <= k < |arrivals| && arrivals[k].seqno == 0 ==>
      exists i: nat :: i < PartCount(c) && arrivals[k] == Part(id, 0, c, i)
  }

  ghost predicate ShortFrags(g: Group, total: nat, size: nat) {
    g.total == total && forall i {:trigger i in g.frags} :: i in g.frags ==> |g.frags[i]| <= size
  }

  lemma {:induction false} ChunksCount(s: bytes, size: nat)
    requires size > 0 && s != []
    ensures (|Chunks(s, size)| - 1) * size < |s|
    ensures forall i :: 0 <= i < |Chunks(s, size)| ==> |Chunks(s, size)[i]| <= size
  {
    if |s| > size {
      ChunksCount(s[size..], size);
      var n := |Chunks(s[size..], size)|;
      assert (n + 1 - 1) * size == (n - 1) * size + size;
    }
  }

  lemma {:induction false} AssembledLength(frags: map<u16, bytes>, n: u16, size: nat)
    requires forall i {:trigger i in frags} :: i in frags ==> |frags[i]| <= size
    ensures Assemble(frags, n).Some? ==> |Assemble(frags, n).value| <= n * size
  {
    if n > 0 {
      AssembledLength(frags, n - 1, size);
      assert n * size == (n - 1) * size + size;
    }
  }

  /** Storing a short group, or assembling it. */
  lemma ShortSettle(kept: Groups, p: Packet, g: Group, total: u16, size: nat)
    requires p.seqno == 0 && ShortFrags(g, total, size)
    ensures var (after, out) := Settle(kept, p, g);
            && (0 in after ==> ShortFrags(after[0], total, size))
            && (out.Some? ==> |out.value.content| <= total * size)
  {
    AssembledLength(g.frags, g.total, size);
    hide Assemble, ShortFrags;
  }

  /** What a part of the chunk does. */
  lemma PartIsSettled(id: u64, c: Chunk, cap: nat, groups: Groups, p: Packet, i: nat)
    requires c.frags != [] && i < PartCount(c) && p == Part(id, 0, c, i)
    ensures var kept := AfterEviction(cap, groups, 0);
            Receive(cap, groups, p) == Settle(kept, p, WithFragment(kept, p, i % TWO16, |c.frags| % TWO16, c.frags[i]))
  {
    ContentInverse(p.content, PartContent(c, i));
    hide DecodeContent, EncodeContent, AfterEviction, Settle, WithFragment;
  }

  lemma OtherArrival(cap: nat, groups: Groups, p: Packet)
    requires p.seqno != 0
    ensures var (after, out) := Receive(cap, groups, p);
            && (0 in after ==> 0 in groups && after[0] == groups[0])
            && (out.Some? ==> out.value.seqno != 0)
  {
    hide Assemble, DecodeContent, Evicts, WithFragment;
  }

  lemma ShortArrival(id: u64, c: Chunk, size: nat, cap: nat, groups: Groups, p: Packet)
    requires c.frags != [] && forall i :: 0 <= i < |c.frags| ==> |c.frags[i]| <= size
    requires p.seqno == 0 ==> exists i: nat :: i < PartCount(c) && p == Part(id, 0, c, i)
    requires 0 in groups ==> ShortFrags(groups[0], |c.frags| % TWO16, size)
    ensures var (after, out) := Receive(cap, groups, p);
            && (0 in after ==> ShortFrags(after[0], |c.frags| % TWO16, size))
            && (out.Some? && out.value.seqno == 0 ==> |out.value.content| <= |c.frags| % TWO16 * size)
  {
    hide Receive, Settle, Part;
    if p.seqno == 0 {
      var i: nat :| i < PartCount(c) && p == Part(id, 0, c, i);
      PartIsSettled(id, c, cap, groups, p, i);
      var kept := AfterEviction(cap, groups, 0);
      assert 0 in kept ==> kept[0] == groups[0];
      hide AfterEviction;
      ShortSettle(kept, p, WithFragment(kept, p, i % TWO16, |c.frags| % TWO16, c.frags[i]), |c.frags| % TWO16, size);
    } else {
      OtherArrival(cap, groups, p);
    }
  }

  lemma {:induction false} ShortRun(id: u64, c: Chunk, size: nat, cap: nat, arrivals: seq<Packet>)
    requires c.frags != [] && (forall i :: 0 <= i < |c.frags| ==> |c.frags[i]| <= size)
    requires PartsOf(id, c, arrivals)
    ensures var (groups, out) := ReceiveAll(cap, arrivals);
            && (0 in groups ==> ShortFrags(groups[0], |c.frags| % TWO16, size))
            && forall j :: 0 <= j < |out| && out[j].seqno == 0 ==> |out[j].content| <= |c.frags| % TWO16 * size
  {
    hide Receive, ShortFrags, Part;
    if arrivals != [] {
      var rest, p := arrivals[..|arrivals| - 1], arrivals[|arrivals| - 1];
      ShortRun(id, c, size, cap, rest);
      ShortArrival(id, c, size, cap, ReceiveAll(cap, rest).0, p);
    }
  }

  /** A chunk of 65536 fragments or more is never reassembled, whatever arrives: every chunk emitted
      under its number is shorter, because the count sent with the fragments has been truncated. */
  lemma TruncatedCountLosesTheChunk(id: u64, limit: Option<nat>, ts: u64, data: bytes, cap: nat, arrivals: seq<Packet>)
    requires Sendable(limit, data) && |PacketsFor(id, limit, 0, ts, data)| >= TWO16
    requires PartsOf(id, Cut(limit, ts, data), arrivals)
    ensures var out := ReceiveAll(cap, arrivals).1;
            forall j :: 0 <= j < |out| && out[j].seqno == 0 ==> |out[j].content| < |data|
  {
    hide PacketsFor, Part, ReceiveAll, PartsOf, Cut, FragSize, Sendable;
    TruncatedIsShort(id, limit, ts, data);
    ShortRun(id, Cut(limit, ts, data), FragSize(limit), cap, arrivals);
  }

  /** 65536 fragments or more, counted modulo 65536, hold less than the chunk. */
  lemma TruncatedIsShort(id: u64, limit: Option<nat>, ts: u64, data: bytes)
    requires Sendable(limit, data) && |PacketsFor(id, limit, 0, ts, data)| >= TWO16
    ensures var c := Cut(limit, ts, data);
            && c.frags != [] && (forall i :: 0 <= i < |c.frags| ==> |c.frags[i]| <= FragSize(limit))
            && |c.frags| % TWO16 * FragSize(limit) < |data|
  {
    SenderMakesParts(id, limit, 0, ts, data);
    hide PacketsFor, Part;
    ChunksCount(data, FragSize(limit));
    var c := Cut(limit, ts, data);
    hide Chunks, FragSize;
    TimesMonotone(|c.frags| % TWO16, |c.frags| - 1, FragSize(limit));
  }

  lemma TimesMonotone(a: nat, b: nat, size: nat)
    requires a <= b
    ensures a * size <= b * size
  {
  }

  /** Some arrival order of a chunk's own datagrams hands the chunk on exactly when there are fewer
      than 65536 of them. */
  lemma ReassembledIff(id: u64, limit: Option<nat>, ts: u64, data: bytes, cap: nat)
    requires Sendable(limit, data)
    ensures (exists arrivals ::
               OneOf(PacketsFor(id, limit, 0, ts, data), arrivals) && Packet(id, 0, ts, data) in ReceiveAll(cap, arrivals).1)
            <==> |PacketsFor(id, limit, 0, ts, data)| < TWO16
  {
    var ps := PacketsFor(id, limit, 0, ts, data);
    if |ps| < TWO16 {
      OneChunkIsValid(id, limit, ts, data);
      OneChunkIsGenuine(id, limit, ts, data, ps);
      CoveredIndices(id, limit, ts, data, ps);
      hide PacketsFor, Receive, Part, ReceiveAll, ValidSource, AllGenuine, Indices;
      SomeArrivalCompletes(OneChunk(id, limit, ts, data), cap, ps);
      assert OneOf(ps, ps) && Packet(id, 0, ts, data) in ReceiveAll(cap, ps).1;
    } else {
      forall arrivals | OneOf(ps, arrivals)
        ensures Packet(id, 0, ts, data) !in ReceiveAll(cap, arrivals).1
      {
        AreParts(id, limit, ts, data, arrivals);
        TruncatedCountLosesTheChunk(id, limit, ts, data, cap, arrivals);
      }
    }
  }

  lemma AreParts(id: u64, limit: Option<nat>, ts: u64, data: bytes, arrivals: seq<Packet>)
    requires Sendable(limit, data) && OneOf(PacketsFor(id, limit, 0, ts, data), arrivals)
    ensures PartsOf(id, Cut(limit, ts, data), arrivals)
  {
    SenderMakesParts(id, limit, 0, ts, data);
    hide PacketsFor, Part, Cut;
  }
}
