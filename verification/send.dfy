/** The sending half of a transfer (src/mani/transfer/send.rs). */
module Sending {
  import opened Types
  import opened Wire
  import opened PacketCodec
  import opened Backpressure

  // ---------------------------------------------------------------- fragmentation

  /** `slice::chunks`: consecutive pieces of `size` bytes, the last one possibly shorter. */
  function Chunks(s: bytes, size: nat): (fs: seq<bytes>)
    requires size > 0
    ensures s != [] ==> |fs| > 0
  {
    if s == [] then []
    else if |s| <= size then [s]
    else [s[..size]] + Chunks(s[size..], size)
  }

  function Join(fs: seq<bytes>): bytes {
    if fs == [] then [] else fs[0] + Join(fs[1..])
  }

  lemma {:induction false} ChunksJoin(s: bytes, size: nat)
    requires size > 0
    ensures Join(Chunks(s, size)) == s
    ensures forall i :: 0 <= i < |Chunks(s, size)| ==> 0 < |Chunks(s, size)[i]| <= size
    ensures forall i :: 0 <= i < |Chunks(s, size)| - 1 ==> |Chunks(s, size)[i]| == size
  {
    hide Join;
    if |s| > size {
      var head, rest := s[..size], Chunks(s[size..], size);
      ChunksJoin(s[size..], size);
      JoinHead(head, rest);
      assert Chunks(s, size) == [head] + rest;
      assert head + s[size..] == s;
    } else {
      JoinHead(s, []);
    }
  }

  lemma JoinHead(x: bytes, fs: seq<bytes>)
    ensures Join([x] + fs) == x + Join(fs)
    ensures Join([]) == [] && Join([x]) == x
  {
    assert ([x] + fs)[1..] == fs && [x][1..] == [];
  }

  /** Cutting one piece off the front. */
  lemma ChunksStep(s: bytes, size: nat)
    requires size > 0 && s != []
    ensures var k := if size <= |s| then size else |s|;
            Chunks(s, size) == [s[..k]] + Chunks(s[k..], size)
  {
    assert s[..|s|] == s && s[|s|..] == [];
  }

  lemma NothingToCut(size: nat)
    requires size > 0
    ensures Chunks([], size) == []
  {
  }

  function SaturatingSub(a: nat, b: nat): nat {
    if a < b then 0 else a - b
  }

  predicate NeedsFragment(limit: Option<nat>, compressed: bytes) {
    limit.Some? && |compressed| > SaturatingSub(limit.value, PACKET_WIRE_HEADER_SIZE + SINGLE_CONTENT_OVERHEAD)
  }

  function FragSize(limit: Option<nat>): nat {
    if limit.Some? then SaturatingSub(limit.value, PACKET_WIRE_HEADER_SIZE + FRAG_CONTENT_OVERHEAD) else 0
  }

  /** `chunks(0)` panics, so a payload that needs fragments needs room for at least one byte in each. */
  predicate Sendable(limit: Option<nat>, compressed: bytes) {
    NeedsFragment(limit, compressed) ==> FragSize(limit) > 0
  }

  /** What the datagrams of one chunk carry; both `u16` casts truncate. */
  function Contents(limit: Option<nat>, compressed: bytes): (cs: seq<Content>)
    requires Sendable(limit, compressed)
    ensures |cs| >= 1
  {
    if NeedsFragment(limit, compressed) then
      var fs := Chunks(compressed, FragSize(limit));
      seq(|fs|, i requires 0 <= i < |fs| => Fragment(i % TWO16, |fs| % TWO16, fs[i]))
    else [Single(compressed)]
  }

  /** The datagrams of one logical send; all share one sequence number. */
  function PacketsFor(id: u64, limit: Option<nat>, s: u32, ts: u64, compressed: bytes): (ps: seq<Packet>)
    requires Sendable(limit, compressed)
    ensures |ps| >= 1
  {
    var cs := Contents(limit, compressed);
    seq(|cs|, i requires 0 <= i < |cs| => Packet(id, s, ts, EncodeContent(cs[i])))
  }

  /** What the datagrams of a chunk have to be, read from the receiving side: one header, and contents
      that decode either to the whole payload or to numbered pieces that are full except for the last
      and join to it. */
  ghost predicate Splits(id: u64, limit: Option<nat>, s: u32, ts: u64, compressed: bytes, ps: seq<Packet>) {
    && (forall i :: 0 <= i < |ps| ==> ps[i].streamId == id && ps[i].seqno == s && ps[i].timestamp == ts)
    && if NeedsFragment(limit, compressed)
       then exists fs :: JoinsTo(fs, compressed, FragSize(limit)) && Carry(ps, fs)
       else |ps| == 1 && DecodeContent(ps[0].content) == Some(Single(compressed))
  }

  ghost predicate JoinsTo(fs: seq<bytes>, s: bytes, size: nat) {
    && Join(fs) == s
    && (forall i :: 0 <= i < |fs| ==> 0 < |fs[i]| <= size)
    && forall i :: 0 <= i < |fs| - 1 ==> |fs[i]| == size
  }

  ghost predicate Carry(ps: seq<Packet>, fs: seq<bytes>) {
    && |ps| == |fs|
    && forall i :: 0 <= i < |ps| ==> DecodeContent(ps[i].content) == Some(Fragment(i % TWO16, |fs| % TWO16, fs[i]))
  }

  lemma PacketsForSplits(id: u64, limit: Option<nat>, s: u32, ts: u64, compressed: bytes)
    requires Sendable(limit, compressed)
    ensures Splits(id, limit, s, ts, compressed, PacketsFor(id, limit, s, ts, compressed))
  {
    hide DecodeContent, PacketsFor, Chunks, Carry, JoinsTo, Contents;
    var ps := PacketsFor(id, limit, s, ts, compressed);
    PacketsDecode(id, limit, s, ts, compressed);
    if NeedsFragment(limit, compressed) {
      ChunksCarried(limit, compressed, ps);
    } else {
      OneContent(limit, compressed);
    }
  }

  lemma OneContent(limit: Option<nat>, compressed: bytes)
    requires !NeedsFragment(limit, compressed)
    ensures Contents(limit, compressed) == [Single(compressed)]
  {
  }

  lemma ChunksCarried(limit: Option<nat>, compressed: bytes, ps: seq<Packet>)
    requires Sendable(limit, compressed) && NeedsFragment(limit, compressed)
    requires var cs := Contents(limit, compressed);
             |ps| == |cs| && forall i :: 0 <= i < |ps| ==> DecodeContent(ps[i].content) == Some(cs[i])
    ensures var fs := Chunks(compressed, FragSize(limit)); JoinsTo(fs, compressed, FragSize(limit)) && Carry(ps, fs)
  {
    hide DecodeContent, Chunks, Join;
    ChunksJoin(compressed, FragSize(limit));
  }

  lemma PacketsDecode(id: u64, limit: Option<nat>, s: u32, ts: u64, compressed: bytes)
    requires Sendable(limit, compressed)
    ensures var ps, cs := PacketsFor(id, limit, s, ts, compressed), Contents(limit, compressed);
            |ps| == |cs| && forall i :: 0 <= i < |ps| ==>
              DecodeContent(ps[i].content) == Some(cs[i]) && ps[i].streamId == id && ps[i].seqno == s && ps[i].timestamp == ts
  {
    hide DecodeContent, EncodeContent, Contents;
    var ps, cs := PacketsFor(id, limit, s, ts, compressed), Contents(limit, compressed);
    forall i | 0 <= i < |ps|
      ensures DecodeContent(ps[i].content) == Some(cs[i])
    {
      ContentInverse(ps[i].content, cs[i]);
    }
  }

  /** Every datagram of a chunk fits the datagram limit. */
  lemma DatagramsFit(id: u64, limit: Option<nat>, s: u32, ts: u64, compressed: bytes, i: nat)
    requires limit.Some? && limit.value > PACKET_WIRE_HEADER_SIZE + FRAG_CONTENT_OVERHEAD
    requires i < |PacketsFor(id, limit, s, ts, compressed)|
    ensures |SerializePacket(PacketsFor(id, limit, s, ts, compressed)[i])| <= limit.value
  {
    if NeedsFragment(limit, compressed) {
      ChunksJoin(compressed, FragSize(limit));
    }
  }

  lemma SerializedSize(p: Packet, c: Content)
    requires p.content == EncodeContent(c)
    ensures |SerializePacket(p)| == match c case Single(payload) => 21 + |payload| case Fragment(_, _, payload) => 25 + |payload|
  {
    PacketLayout(p);
    ContentLayout(c);
    hide SerializePacket, EncodeContent, BigEndian;
  }

  /** A chunk goes out whole if and only if the limit allows the datagram this makes; otherwise in datagrams
      that all reach the limit, except for the last. */
  lemma FragmentedIffTooBig(id: u64, limit: Option<nat>, s: u32, ts: u64, compressed: bytes)
    requires Sendable(limit, compressed) && (limit.Some? ==> limit.value >= 21)
    ensures var ps, whole := PacketsFor(id, limit, s, ts, compressed), Packet(id, s, ts, EncodeContent(Single(compressed)));
            && (ps == [whole] <==> limit == None || |SerializePacket(whole)| <= limit.value)
            && (ps == [whole] <==> |ps| == 1)
            && (|ps| > 1 ==> forall i :: 0 <= i < |ps| - 1 ==> |SerializePacket(ps[i])| == limit.value)
  {
    hide SerializePacket, EncodeContent, Chunks;
    var ps, whole := PacketsFor(id, limit, s, ts, compressed), Packet(id, s, ts, EncodeContent(Single(compressed)));
    SerializedSize(whole, Single(compressed));
    if NeedsFragment(limit, compressed) {
      var fs := Chunks(compressed, FragSize(limit));
      ChunksJoin(compressed, FragSize(limit));
      OnePiece(fs);
      forall i | 0 <= i < |ps|
        ensures |SerializePacket(ps[i])| == 25 + |fs[i]|
      {
        SerializedSize(ps[i], Contents(limit, compressed)[i]);
      }
    }
  }

  lemma OnePiece(fs: seq<bytes>)
    ensures |fs| == 1 ==> Join(fs) == fs[0]
  {
    assert |fs| == 1 ==> fs[1..] == [];
  }

  // ---------------------------------------------------------------- the retransmission map

  type Entries = map<u32, seq<Packet>>

  /** Inserting a chunk's datagrams; at capacity, the entry `seq - max` is removed first. */
  function Stored(entries: Entries, max: nat, s: u32, packets: seq<Packet>): Entries {
    (if |entries| >= max then entries - {WrapSub(s, max % TWO32)} else entries)[s := packets]
  }

  /** The map after sending `sent` from sequence number `start` on. */
  function StoredAll(start: u32, max: nat, sent: seq<seq<Packet>>): Entries {
    if sent == [] then map[]
    else Stored(StoredAll(start, max, sent[..|sent| - 1]), max, WrapAdd(start, |sent| - 1), sent[|sent| - 1])
  }

  function Min(a: nat, b: nat): nat {
    if a <= b then a else b
  }

  /** The keys of sends number `lo` up to but not including `hi`. */
  ghost function KeysOf(start: u32, lo: nat, hi: nat): set<u32> {
    set j | lo <= j < hi :: WrapAdd(start, j)
  }

  /** The map holds exactly sends `lo` to `hi - 1`, each under its own wrapping key. */
  ghost predicate Holds(entries: Entries, start: u32, lo: nat, hi: nat, sent: seq<seq<Packet>>) {
    && lo <= hi <= |sent|
    && |entries| == hi - lo
    && entries.Keys == KeysOf(start, lo, hi)
    && forall j :: lo <= j < hi ==> entries[WrapAdd(start, j)] == sent[j]
  }

  /** The map holds exactly the last `min(k, max)` of the `k` sends. */
  ghost predicate IsWindow(entries: Entries, start: u32, max: nat, sent: seq<seq<Packet>>) {
    Holds(entries, start, |sent| - Min(|sent|, max), |sent|, sent)
  }

  /** Every entry of the window is one of the sends. */
  lemma EntryOfWindow(entries: Entries, start: u32, max: nat, sent: seq<seq<Packet>>, key: u32) returns (j: nat)
    requires IsWindow(entries, start, max, sent) && key in entries
    ensures j < |sent| && key == WrapAdd(start, j) && entries[key] == sent[j]
  {
    var lo := |sent| - Min(|sent|, max);
    assert key in KeysOf(start, lo, |sent|);
    j :| lo <= j < |sent| && key == WrapAdd(start, j);
  }

  lemma WrapIsInjective(start: u32, i: nat, j: nat)
    requires i < j < i + TWO32
    ensures WrapAdd(start, i) != WrapAdd(start, j)
  {
    assert start + i == TWO32 * ((start + i) / TWO32) + WrapAdd(start, i);
    assert start + j == TWO32 * ((start + j) / TWO32) + WrapAdd(start, j);
  }

  lemma WrapBack(start: u32, k: nat, n: nat)
    requires n <= k
    ensures WrapSub(WrapAdd(start, k), n) == WrapAdd(start, k - n)
  {
    assert start + k - n == TWO32 * ((start + k) / TWO32) + (WrapAdd(start, k) - n);
  }

  lemma KeysDistinct(start: u32, i: nat, lo: nat, hi: nat)
    requires i < lo <= hi <= i + TWO32 || lo <= hi <= i < lo + TWO32
    ensures WrapAdd(start, i) !in KeysOf(start, lo, hi)
  {
    forall j | lo <= j < hi
      ensures WrapAdd(start, j) != WrapAdd(start, i)
    {
      if i < j { WrapIsInjective(start, i, j); } else { WrapIsInjective(start, j, i); }
    }
  }

  lemma EvictOldest(entries: Entries, start: u32, lo: nat, hi: nat, sent: seq<seq<Packet>>)
    requires Holds(entries, start, lo, hi, sent) && lo < hi <= lo + TWO32
    ensures Holds(entries - {WrapAdd(start, lo)}, start, lo + 1, hi, sent)
  {
    KeysDistinct(start, lo, lo + 1, hi);
    hide WrapAdd;
    var key := WrapAdd(start, lo);
    var kept := entries - {key};
    assert KeysOf(start, lo, hi) == {key} + KeysOf(start, lo + 1, hi);
    assert kept.Keys == KeysOf(start, lo + 1, hi);
    assert entries.Keys == kept.Keys + {key};
  }

  lemma InsertNext(entries: Entries, start: u32, lo: nat, sent: seq<seq<Packet>>, packets: seq<Packet>)
    requires Holds(entries, start, lo, |sent|, sent) && |sent| < lo + TWO32
    ensures Holds(entries[WrapAdd(start, |sent|) := packets], start, lo, |sent| + 1, sent + [packets])
  {
    KeysDistinct(start, |sent|, lo, |sent|);
    hide WrapAdd;
    var key := WrapAdd(start, |sent|);
    assert KeysOf(start, lo, |sent| + 1) == KeysOf(start, lo, |sent|) + {key};
    assert entries[key := packets].Keys == entries.Keys + {key};
    forall j | lo <= j < |sent|
      ensures WrapAdd(start, j) in entries && WrapAdd(start, j) != key
    {
      assert WrapAdd(start, j) in KeysOf(start, lo, |sent|);
    }
  }

  lemma StoredKeepsWindow(entries: Entries, start: u32, max: nat, sent: seq<seq<Packet>>, packets: seq<Packet>)
    requires 1 <= max < TWO32 && IsWindow(entries, start, max, sent)
    ensures IsWindow(Stored(entries, max, WrapAdd(start, |sent|), packets), start, max, sent + [packets])
  {
    var k := |sent|;
    assert |entries| == Min(k, max);
    WrapBackIf(start, k, max);
    hide Holds, WrapAdd, WrapSub;
    if k >= max {
      EvictOldest(entries, start, k - max, k, sent);
      InsertNext(entries - {WrapAdd(start, k - max)}, start, k - max + 1, sent, packets);
    } else {
      InsertNext(entries, start, 0, sent, packets);
    }
  }

  lemma WrapBackIf(start: u32, k: nat, n: nat)
    requires n < TWO32
    ensures n <= k ==> WrapSub(WrapAdd(start, k), n % TWO32) == WrapAdd(start, k - n)
  {
    if n <= k {
      WrapBack(start, k, n);
    }
  }

  /** After any number of sends from any starting number, across wrap-around, the map holds exactly
      the last `min(k, max)` sends, so the removal always hits the one oldest entry. */
  lemma {:induction false} SlidingWindow(start: u32, max: nat, sent: seq<seq<Packet>>)
    requires 1 <= max < TWO32
    ensures IsWindow(StoredAll(start, max, sent), start, max, sent)
  {
    hide IsWindow, Stored;
    if sent == [] {
      EmptyWindow(start, max);
    } else {
      var rest, last := sent[..|sent| - 1], sent[|sent| - 1];
      SlidingWindow(start, max, rest);
      StoredKeepsWindow(StoredAll(start, max, rest), start, max, rest, last);
      assert rest + [last] == sent;
    }
  }

  lemma EmptyWindow(start: u32, max: nat)
    ensures Holds(map[], start, 0, 0, []) && IsWindow(map[], start, max, [])
  {
    assert KeysOf(start, 0, 0) == {};
  }

  /** With `max == 0` the removal aims at the number about to be inserted, so nothing is ever evicted. */
  lemma {:induction false} ZeroCapacityNeverEvicts(start: u32, sent: seq<seq<Packet>>)
    requires |sent| <= TWO32
    ensures Holds(StoredAll(start, 0, sent), start, 0, |sent|, sent)
  {
    hide Holds, Stored;
    if sent == [] {
      EmptyWindow(start, 0);
    } else {
      var rest, last := sent[..|sent| - 1], sent[|sent| - 1];
      ZeroCapacityNeverEvicts(start, rest);
      StoredWithoutCapacity(StoredAll(start, 0, rest), start, rest, last);
      assert rest + [last] == sent;
    }
  }

  lemma StoredWithoutCapacity(entries: Entries, start: u32, sent: seq<seq<Packet>>, packets: seq<Packet>)
    requires Holds(entries, start, 0, |sent|, sent) && |sent| < TWO32
    ensures Holds(Stored(entries, 0, WrapAdd(start, |sent|), packets), start, 0, |sent| + 1, sent + [packets])
  {
    var s := WrapAdd(start, |sent|);
    KeysDistinct(start, |sent|, 0, |sent|);
    WrapBack(start, |sent|, 0);
    InsertNext(entries, start, 0, sent, packets);
    assert s !in entries && entries - {s} == entries;
    assert Stored(entries, 0, s, packets) == entries[s := packets];
    hide *;
  }

  // ---------------------------------------------------------------- the final sequence number

  /** The number before the next one to be sent. */
  function FinalSequenceNumber(counter: u32): u32 {
    WrapSub(counter, 1)
  }

  /** The receiver's test for an empty transfer (src/mani/stream.rs). */
  predicate IsEmptyTransfer(initial: u32, final: u32) {
    WrapAdd(final, 1) == initial
  }

  /** After `k` sends the final number announces an empty transfer exactly when `k` is a multiple of
      2^32; for any shorter transfer that means exactly when nothing was sent. */
  lemma EmptySentinel(initial: u32, k: nat)
    ensures IsEmptyTransfer(initial, FinalSequenceNumber(WrapAdd(initial, k))) <==> k % TWO32 == 0
  {
    var counter := WrapAdd(initial, k);
    assert counter == initial <==> k % TWO32 == 0 by {
      assert initial + k == TWO32 * ((initial + k) / TWO32) + counter;
      assert k == TWO32 * (k / TWO32) + k % TWO32;
    }
    assert WrapAdd(WrapSub(counter, 1), 1) == counter;
    assert WrapAdd(WrapSub(initial, 1), 1) == initial;
  }

  // ---------------------------------------------------------------- the sending state machine

  /** A suspended `send`: its datagrams, and how many credits it holds. */
  datatype InFlight = InFlight(packets: seq<Packet>, acquired: nat)

  datatype SendState = SendState(
    counter: u32,
    inFlight: Option<InFlight>,
    permits: nat,
    closed: bool,
    entries: Entries)

  datatype SendConfig = SendConfig(dual: bool, max: nat)

  /** One poll of `send`.  `accepted` is how many datagrams the connection takes before failing.
      The third component is what reached the connection. */
  function PollSend(c: SendConfig, st: SendState, accepted: nat): (SendState, Poll, seq<Packet>)
    requires st.inFlight.Some? && st.inFlight.value.acquired < |st.inFlight.value.packets|
  {
    var InFlight(packets, acquired) := st.inFlight.value;
    var need := |packets| - acquired;
    if st.closed then
      (st.(inFlight := None), Ready(false), [])
    else if st.permits < need then
      (st.(permits := 0, inFlight := Some(InFlight(packets, acquired + st.permits))), Pending, [])
    else if accepted < |packets| then
      (st.(permits := st.permits - need, inFlight := None), Ready(false), packets[..accepted])
    else
      var entries := if c.dual then Stored(st.entries, c.max, st.counter, packets) else st.entries;
      (SendState(WrapAdd(st.counter, 1), None, st.permits - need, false, entries), Ready(true), packets)
  }

  /** A `send` counts, and a Dual one is kept for retransmission, only once all its datagrams went out; what
      it takes from the bank never exceeds one credit per datagram. */
  lemma OnlySentIsStored(c: SendConfig, st: SendState, accepted: nat)
    requires st.inFlight.Some? && st.inFlight.value.acquired < |st.inFlight.value.packets|
    ensures var (after, r, out) := PollSend(c, st, accepted);
            var packets := st.inFlight.value.packets;
            && out <= packets && (r == Ready(true) ==> out == packets)
            && (r == Ready(true) <==> after.counter != st.counter)
            && (r != Ready(true) || !c.dual ==> after.entries == st.entries)
            && (r == Ready(true) && c.dual ==> st.counter in after.entries && after.entries[st.counter] == packets)
            && (after.inFlight.Some? <==> r == Pending)
            && st.inFlight.value.acquired + (st.permits - after.permits)
               == (if r == Pending then after.inFlight.value.acquired else if st.closed then st.inFlight.value.acquired else |packets|)
  {
  }

  class RetransmissionBuffer {
    var entries: Entries

    constructor ()
      ensures entries == map[]
    {
      entries := map[];
    }
  }

  class TransferSendStream {
    const id: u64
    const config: SendConfig
    const limit: Option<nat>
    const initialSequenceNumber: u32
    const compress: bytes -> bytes
    const bank: BackpressureBank
    const buffer: RetransmissionBuffer
    var sequenceCounter: u32
    var inFlight: Option<InFlight>
    /** Datagrams the connection accepted, oldest first. */
    var wire: seq<bytes>

    constructor (id: u64, config: SendConfig, limit: Option<nat>, initialSequenceNumber: u32,
                 compress: bytes -> bytes, bank: BackpressureBank, buffer: RetransmissionBuffer)
      ensures this.id == id && this.config == config && this.limit == limit
      ensures this.initialSequenceNumber == initialSequenceNumber && this.compress == compress
      ensures this.bank == bank && this.buffer == buffer
      ensures Value() == SendState(initialSequenceNumber, None, bank.permits, bank.closed, buffer.entries)
      ensures wire == []
    {
      this.id, this.config, this.limit := id, config, limit;
      this.initialSequenceNumber, this.compress := initialSequenceNumber, compress;
      this.bank, this.buffer := bank, buffer;
      sequenceCounter, inFlight, wire := initialSequenceNumber, None, [];
    }

    function Value(): SendState
      reads this, bank, buffer
    {
      SendState(sequenceCounter, inFlight, bank.permits, bank.closed, buffer.entries)
    }

    /** `chunks(size)`, collected. */
    method Pieces(s: bytes, size: nat) returns (frags: seq<bytes>)
      requires size > 0
      ensures frags == Chunks(s, size)
    {
      hide Chunks;
      frags := [];
      var at := 0;
      assert s[0..] == s;
      while at < |s|
        invariant at <= |s|
        invariant frags + Chunks(s[at..], size) == Chunks(s, size)
      {
        var end := if at + size <= |s| then at + size else |s|;
        ChunksStep(s[at..], size);
        assert s[at..][..end - at] == s[at..end] && s[at..][end - at..] == s[end..];
        assert frags + ([s[at..end]] + Chunks(s[end..], size)) == (frags + [s[at..end]]) + Chunks(s[end..], size);
        frags := frags + [s[at..end]];
        at := end;
      }
      assert s[at..] == [];
      NothingToCut(size);
      assert frags + [] == frags;
    }

    /** The datagrams of one chunk: the pieces in order, each behind its header, or the whole payload. */
    method MakePackets(timestamp: u64, compressed: bytes) returns (packets: seq<Packet>)
      requires Sendable(limit, compressed)
      ensures packets == PacketsFor(id, limit, sequenceCounter, timestamp, compressed)
    {
      if limit.Some? && |compressed| > SaturatingSub(limit.value, PACKET_WIRE_HEADER_SIZE + SINGLE_CONTENT_OVERHEAD) {
        var frags := Pieces(compressed, SaturatingSub(limit.value, PACKET_WIRE_HEADER_SIZE + FRAG_CONTENT_OVERHEAD));
        var totalFrags := |frags| % TWO16;
        packets := [];
        for i := 0 to |frags|
          invariant packets == PacketsFor(id, limit, sequenceCounter, timestamp, compressed)[..i]
        {
          packets := packets
            + [Packet(id, sequenceCounter, timestamp, EncodeContent(Fragment(i % TWO16, totalFrags, frags[i])))];
        }
      } else {
        packets := [Packet(id, sequenceCounter, timestamp, EncodeContent(Single(compressed)))];
      }
    }

    /** The part of `send` before its first await: compress, split, number. What is in flight is exactly
        what a receiver decodes back to the compressed chunk; no credit is held yet. */
    method StartSend(timestamp: u64, content: bytes)
      requires inFlight == None
      requires Sendable(limit, compress(content))
      modifies this
      ensures inFlight.Some? && inFlight.value.acquired == 0
      ensures Splits(id, limit, sequenceCounter, timestamp, compress(content), inFlight.value.packets)
      ensures inFlight.value.packets == PacketsFor(id, limit, sequenceCounter, timestamp, compress(content))
      ensures Value() == old(Value()).(inFlight := inFlight) && wire == old(wire)
    {
      var compressed := compress(content);
      var packets := MakePackets(timestamp, compressed);
      PacketsForSplits(id, limit, sequenceCounter, timestamp, compressed);
      inFlight := Some(InFlight(packets, 0));
    }

    /** Takes credits one by one until all are held, none is left, or the bank is closed. */
    method AcquireCredits(from: nat, total: nat) returns (r: Poll, acquired: nat)
      requires from < total
      modifies bank
      ensures bank.closed == old(bank.closed)
      ensures from <= acquired <= total && bank.permits == old(bank.permits) - (acquired - from)
      ensures bank.closed ==> r == Ready(false) && acquired == from
      ensures !bank.closed && old(bank.permits) < total - from ==> r == Pending && bank.permits == 0
      ensures !bank.closed && old(bank.permits) >= total - from ==> r == Ready(true) && acquired == total
    {
      acquired := from;
      while acquired < total
        invariant from <= acquired <= total
        invariant bank.permits == old(bank.permits) - (acquired - from)
        invariant bank.closed == old(bank.closed)
        invariant bank.closed ==> acquired == from
      {
        r := bank.PollCredit();
        if r != Ready(true) {
          return;
        }
        acquired := acquired + 1;
      }
      r := Ready(true);
    }

    /** Hands the datagrams to the connection, in order, until it fails. */
    method Transmit(packets: seq<Packet>, accepted: nat) returns (ok: bool)
      modifies this`wire
      ensures ok == (accepted >= |packets|)
      ensures wire == old(wire) + SerializeAll(if ok then packets else packets[..accepted])
    {
      assert packets[..|packets|] == packets;
      for i := 0 to |packets|
        invariant i <= accepted
        invariant wire == old(wire) + SerializeAll(packets[..i])
      {
        if i == accepted {
          return false;
        }
        var datagram := SerializePacketBytes(packets[i]);
        wire := wire + [datagram];
        assert SerializeAll(packets[..i + 1]) == SerializeAll(packets[..i]) + [datagram];
      }
      ok := true;
    }

    /** The rest of `send`, up to the next await that is not ready. */
    method Poll(accepted: nat) returns (r: Poll)
      requires inFlight.Some? && inFlight.value.acquired < |inFlight.value.packets|
      modifies this, bank, buffer
      ensures var (st, poll, out) := PollSend(config, old(Value()), accepted);
              && Value() == st && r == poll
              && wire == old(wire) + SerializeAll(out)
    {
      var packets := inFlight.value.packets;
      var acquired;
      r, acquired := AcquireCredits(inFlight.value.acquired, |packets|);
      if r != Ready(true) {
        inFlight := if r == Pending then Some(InFlight(packets, acquired)) else None;
        assert wire == wire + SerializeAll([]);
        return;
      }
      inFlight := None;
      var ok := Transmit(packets, accepted);
      if !ok {
        return Ready(false);
      }
      if config.dual {
        if |buffer.entries| >= config.max {
          var oldest := WrapSub(sequenceCounter, config.max % TWO32);
          buffer.entries := buffer.entries - {oldest};
        }
        buffer.entries := buffer.entries[sequenceCounter := packets];
      }
      sequenceCounter := WrapAdd(sequenceCounter, 1);
    }

    method FinalNumber() returns (final: u32)
      ensures final == FinalSequenceNumber(sequenceCounter)
      ensures WrapAdd(final, 1) == sequenceCounter
      ensures IsEmptyTransfer(initialSequenceNumber, final) <==> sequenceCounter == initialSequenceNumber
    {
      if sequenceCounter != initialSequenceNumber {
        final := WrapSub(sequenceCounter, 1);
      } else {
        final := WrapSub(initialSequenceNumber, 1);
      }
    }
  }

  function SerializeAll(packets: seq<Packet>): seq<bytes> {
    seq(|packets|, i requires 0 <= i < |packets| => SerializePacket(packets[i]))
  }
}
