/** The reliable sink's reorder deque (src/mani/transfer/assembler.rs). */
module Assembly {
  import opened Types

  datatype Slot = Payload(packet: Packet) | Missing

  /** The abstract value of an `Assembler`: slot `i` is meant for sequence number `cursor + i`. */
  datatype Deque = Deque(cursor: u32, slots: seq<Slot>)

  /** `Written` is the code as it stands.  `Intended` is a variant that is NOT in the repository:
      it pads by `seq - cursor - len` and ignores sequence numbers below the cursor. */
  datatype Variant = Written | Intended

  const EmptyDeque := Deque(0, [])

  predicate Inside(d: Deque, s: u32) {
    d.cursor <= s && s - d.cursor < |d.slots|
  }

  function Holes(n: nat): (h: seq<Slot>)
    ensures |h| == n && forall i :: 0 <= i < n ==> h[i] == Missing
  {
    seq(n, _ => Missing)
  }

  function Pushed(v: Variant, cap: nat, d: Deque, p: Packet): Deque {
    if |d.slots| >= cap then d
    else if Inside(d, p.seqno) then
      var i := p.seqno - d.cursor;
      if d.slots[i].Missing? then d.(slots := d.slots[i := Payload(p)]) else d
    else match v
      case Written => d.(slots := d.slots + Holes(WrapSub(p.seqno, d.cursor)) + [Payload(p)])
      case Intended =>
        if p.seqno < d.cursor then d
        else d.(slots := d.slots + Holes(p.seqno - d.cursor - |d.slots|) + [Payload(p)])
  }

  /** Length of the run of payloads at the front of the deque. */
  function Ready(slots: seq<Slot>): (k: nat)
    ensures k <= |slots|
    ensures forall i :: 0 <= i < k ==> slots[i].Payload?
    ensures k < |slots| ==> slots[k].Missing?
  {
    if slots == [] || slots[0].Missing? then 0 else 1 + Ready(slots[1..])
  }

  function Packets(slots: seq<Slot>): (ps: seq<Packet>)
    requires forall i :: 0 <= i < |slots| ==> slots[i].Payload?
    ensures |ps| == |slots| && forall i :: 0 <= i < |ps| ==> ps[i] == slots[i].packet
  {
    seq(|slots|, i requires 0 <= i < |slots| => slots[i].packet)
  }

  function Drained(d: Deque): (Deque, seq<Packet>) {
    var k := Ready(d.slots);
    (Deque(WrapAdd(d.cursor, k), d.slots[k..]), Packets(d.slots[..k]))
  }

  /** Sequence numbers of the holes from slot `i` on, in slot order. */
  function MissingFrom(d: Deque, i: nat): seq<u32>
    requires i <= |d.slots|
    decreases |d.slots| - i
  {
    if i == |d.slots| then []
    else (if d.slots[i].Missing? then [WrapAdd(d.cursor, i)] else []) + MissingFrom(d, i + 1)
  }

  class Assembler {
    var cursor: u32
    var packets: seq<Slot>
    const maxRetransmissionBufferSize: nat

    constructor (maxRetransmissionBufferSize: nat)
      ensures Value() == EmptyDeque
      ensures this.maxRetransmissionBufferSize == maxRetransmissionBufferSize
    {
      this.maxRetransmissionBufferSize := maxRetransmissionBufferSize;
      cursor, packets := 0, [];
    }

    function Value(): Deque
      reads this
    {
      Deque(cursor, packets)
    }

    method Index(s: u32) returns (r: Option<nat>)
      ensures r == if Inside(Value(), s) then Some(s - cursor) else None
    {
      if s < cursor {
        return None;
      }
      var index := WrapSub(s, cursor);
      if index >= |packets| {
        return None;
      }
      return Some(index);
    }

    /** Stores one arriving packet.  `false` is the buffer-overflow error. */
    method Push(payload: Packet) returns (ok: bool)
      modifies this
      ensures Value() == Pushed(Written, maxRetransmissionBufferSize, old(Value()), payload)
      ensures ok == (|old(packets)| < maxRetransmissionBufferSize)
    {
      if |packets| >= maxRetransmissionBufferSize {
        return false;
      }
      var index := Index(payload.seqno);
      match index {
        case Some(i) =>
          if packets[i].Missing? {
            packets := packets[i := Payload(payload)];
          }
        case None =>
          var missing := WrapSub(payload.seqno, cursor);
          for n := 0 to missing
            invariant cursor == old(cursor) && packets == old(packets) + Holes(n)
          {
            packets := packets + [Missing];
            assert Holes(n + 1) == Holes(n) + [Missing];
          }
          packets := packets + [Payload(payload)];
      }
      ok := true;
    }

    /** Pops the payloads at the front and advances the cursor past them. */
    method ReadOrdered() returns (payloads: seq<Packet>)
      modifies this
      ensures (Value(), payloads) == Drained(old(Value()))
    {
      hide WrapAdd, Drained;
      WrapNext(cursor, 0);
      payloads := [];
      ghost var k := 0;
      while |packets| > 0 && packets[0].Payload?
        invariant k == |payloads| <= |old(packets)|
        invariant packets == old(packets)[k..]
        invariant cursor == WrapAdd(old(cursor), k)
        invariant forall i :: 0 <= i < k ==> old(packets)[i] == Payload(payloads[i])
        decreases |packets|
      {
        WrapNext(old(cursor), k);
        payloads := payloads + [packets[0].packet];
        packets := packets[1..];
        cursor := WrapAdd(cursor, 1);
        k := k + 1;
      }
      DrainedAfter(old(Value()), payloads);
    }

    method MissingSequenceNumbers() returns (r: seq<u32>)
      ensures r == MissingFrom(Value(), 0)
    {
      r := [];
      for i := 0 to |packets|
        invariant r + MissingFrom(Value(), i) == MissingFrom(Value(), 0)
      {
        if packets[i].Missing? {
          r := r + [WrapAdd(cursor, i)];
        }
      }
    }
  }

  lemma {:induction false} ReadyIs(slots: seq<Slot>, k: nat)
    requires k <= |slots|
    requires forall i :: 0 <= i < k ==> slots[i].Payload?
    requires k < |slots| ==> slots[k].Missing?
    ensures Ready(slots) == k
  {
    if k > 0 {
      ReadyIs(slots[1..], k - 1);
    }
  }

  lemma WrapNext(c: u32, k: nat)
    ensures WrapAdd(WrapAdd(c, k), 1) == WrapAdd(c, k + 1)
    ensures WrapAdd(c, 0) == c
  {
  }

  lemma DrainedAfter(d: Deque, payloads: seq<Packet>)
    requires |payloads| <= |d.slots| && forall i :: 0 <= i < |payloads| ==> d.slots[i] == Payload(payloads[i])
    requires |payloads| < |d.slots| ==> d.slots[|payloads|].Missing?
    ensures Drained(d) == (Deque(WrapAdd(d.cursor, |payloads|), d.slots[|payloads|..]), payloads)
  {
    var k := |payloads|;
    ReadyIs(d.slots, k);
    assert payloads == Packets(d.slots[..k]);
  }

  // ---------------------------------------------------------------- runs

  datatype Op = PushOp(packet: Packet) | ReadOp

  function Step(v: Variant, cap: nat, d: Deque, op: Op): (Deque, seq<Packet>) {
    match op
    case PushOp(p) => (Pushed(v, cap, d, p), [])
    case ReadOp => Drained(d)
  }

  /** Any interleaving of pushes and ordered reads; the second component is everything read. */
  function Run(v: Variant, cap: nat, d: Deque, ops: seq<Op>): (Deque, seq<Packet>) {
    if ops == [] then (d, []) else
    var (d1, out) := Run(v, cap, d, ops[..|ops| - 1]);
    var (d2, o) := Step(v, cap, d1, ops[|ops| - 1]);
    (d2, out + o)
  }

  ghost predicate Tidy(d: Deque) {
    |d.slots| > 0 ==> d.slots[|d.slots| - 1].Payload?
  }

  /** With no assumption on arrivals at all: the cursor counts the packets returned (modulo the
      counter's width), the last slot is never a hole, and a read leaves a hole or nothing in front. */
  lemma {:induction false} RunInvariant(v: Variant, cap: nat, ops: seq<Op>)
    ensures var (d, out) := Run(v, cap, EmptyDeque, ops);
            && d.cursor == |out| % TWO32
            && Tidy(d)
            && (|ops| > 0 && ops[|ops| - 1].ReadOp? ==> d.slots == [] || d.slots[0].Missing?)
  {
    if ops != [] {
      var rest, op := ops[..|ops| - 1], ops[|ops| - 1];
      RunInvariant(v, cap, rest);
      var (d, out) := Run(v, cap, EmptyDeque, rest);
      if op.ReadOp? {
        ReadKeepsTidy(d, |out|);
      } else {
        PushKeepsTidy(v, cap, d, op.packet);
      }
    }
  }

  lemma PushKeepsTidy(v: Variant, cap: nat, d: Deque, p: Packet)
    requires Tidy(d)
    ensures Tidy(Pushed(v, cap, d, p)) && Pushed(v, cap, d, p).cursor == d.cursor
  {
  }

  lemma ReadKeepsTidy(d: Deque, returned: nat)
    requires Tidy(d) && d.cursor == returned % TWO32
    ensures var (e, out) := Drained(d);
            && Tidy(e)
            && (e.slots == [] || e.slots[0].Missing?)
            && e.cursor == (returned + |out|) % TWO32
  {
    var k := Ready(d.slots);
    assert |Drained(d).1| == k;
    assert (returned % TWO32 + k) % TWO32 == (returned + k) % TWO32;
  }

  ghost predicate Stuck(cap: nat, d: Deque) {
    |d.slots| >= cap && (d.slots == [] || d.slots[0].Missing?)
  }

  lemma {:induction false} StuckStays(v: Variant, cap: nat, d: Deque, ops: seq<Op>)
    requires Stuck(cap, d)
    ensures Run(v, cap, d, ops).0 == d && Run(v, cap, d, ops).1 == []
  {
    if ops != [] {
      var rest, op := ops[..|ops| - 1], ops[|ops| - 1];
      StuckStays(v, cap, d, rest);
      assert Ready(d.slots) == 0 && d.slots[0..] == d.slots;
      assert Step(v, cap, d, op) == (d, []);
    }
  }

  /** Unless the deque is stuck, the packet at the cursor gets something out. */
  lemma NextPacketYields(v: Variant, cap: nat, d: Deque, p: Packet)
    requires !Stuck(cap, d) && p.seqno == d.cursor
    ensures Drained(Pushed(v, cap, d, p)).1 != []
  {
    var e := Pushed(v, cap, d, p);
    assert e.slots[0].Payload?;
    assert |Drained(e).1| == Ready(e.slots);
  }

  /** A full deque with a hole in front is exactly what never yields anything again, whatever arrives:
      even the packet that would fill the hole is refused. */
  lemma StuckForever(v: Variant, cap: nat, d: Deque)
    ensures Stuck(cap, d) <==> forall ops :: Run(v, cap, d, ops).1 == []
    ensures Stuck(cap, d) ==> forall ops :: Run(v, cap, d, ops).0 == d
  {
    if Stuck(cap, d) {
      forall ops
        ensures Run(v, cap, d, ops).0 == d && Run(v, cap, d, ops).1 == []
      {
        StuckStays(v, cap, d, ops);
      }
    } else {
      var p := Packet(0, d.cursor, 0, []);
      NextPacketYields(v, cap, d, p);
      RunArrive(v, cap, d, p);
      hide Run, Drained, Pushed, Stuck;
      assert Run(v, cap, d, Arrive(p)).1 != [];
    }
  }

  /** One packet that overtakes `cap - 1` others is enough, with either padding, although it meets the
      guard: as the first arrival it leaves the deque stuck. */
  lemma OneOvertakerSticks(v: Variant, cap: nat, p: Packet, ops: seq<Op>)
    requires cap >= 2 && p.seqno >= cap - 1
    ensures Guard(v, cap, EmptyDeque, p.seqno)
    ensures Stuck(cap, Pushed(v, cap, EmptyDeque, p))
    ensures Run(v, cap, Pushed(v, cap, EmptyDeque, p), ops).1 == []
  {
    assert WrapSub(p.seqno, 0) == p.seqno;
    StuckStays(v, cap, Pushed(v, cap, EmptyDeque, p), ops);
  }

  // ---------------------------------------------------------------- alignment

  /** Every payload sits in the slot of its own sequence number. */
  ghost predicate Aligned(d: Deque) {
    forall i :: 0 <= i < |d.slots| && d.slots[i].Payload? ==> d.slots[i].packet.seqno == d.cursor + i
  }

  /** What an arrival must satisfy for the written padding to be right. */
  predicate Guard(v: Variant, cap: nat, d: Deque, s: u32) {
    v.Intended? || |d.slots| >= cap || Inside(d, s) || (d.slots == [] && d.cursor <= s)
  }

  /** Exactly when one push keeps every payload in its own slot. */
  lemma PushKeepsAlignmentIff(v: Variant, cap: nat, d: Deque, p: Packet)
    requires Aligned(d)
    ensures Aligned(Pushed(v, cap, d, p)) <==> Guard(v, cap, d, p.seqno)
  {
    var e := Pushed(v, cap, d, p);
    if |d.slots| < cap && !Inside(d, p.seqno) && v.Written? {
      var last := |e.slots| - 1;
      assert e.slots[last] == Payload(p) && last == |d.slots| + WrapSub(p.seqno, d.cursor);
    }
  }

  /** What is stored stays where it is: the first packet of a number wins, whatever arrives. */
  lemma PushKeepsPayloads(v: Variant, cap: nat, d: Deque, p: Packet)
    ensures |d.slots| <= |Pushed(v, cap, d, p).slots|
    ensures forall i :: 0 <= i < |d.slots| && d.slots[i].Payload? ==> Pushed(v, cap, d, p).slots[i] == d.slots[i]
  {
  }

  ghost predicate Genuine(p: Packet, sent: seq<Packet>) {
    p.seqno < |sent| && p == sent[p.seqno]
  }

  /** The chunks of a transfer in sending order, numbered from 0 and fewer than 2^32. */
  ghost predicate Numbered(sent: seq<Packet>) {
    |sent| < TWO32 && forall i :: 0 <= i < |sent| ==> sent[i].seqno == i
  }

  /** Arrivals come from the transfer, in any order and any number of times, and meet the guard. */
  ghost predicate Guarded(v: Variant, cap: nat, ops: seq<Op>, sent: seq<Packet>) {
    ops != [] ==>
      var (d, _) := Run(v, cap, EmptyDeque, ops[..|ops| - 1]);
      && Guarded(v, cap, ops[..|ops| - 1], sent)
      && (ops[|ops| - 1].PushOp? ==>
            Genuine(ops[|ops| - 1].packet, sent) && Guard(v, cap, d, ops[|ops| - 1].packet.seqno))
  }

  /** The loop invariant of a reliable transfer. */
  ghost predicate Good(d: Deque, out: seq<Packet>, sent: seq<Packet>) {
    && Tidy(d)
    && d.cursor == |out| <= |sent|
    && out == sent[..|out|]
    && forall i :: 0 <= i < |d.slots| && d.slots[i].Payload? ==>
         Genuine(d.slots[i].packet, sent) && d.slots[i].packet.seqno == d.cursor + i
  }

  lemma PushKeepsGood(v: Variant, cap: nat, d: Deque, out: seq<Packet>, p: Packet, sent: seq<Packet>)
    requires Numbered(sent) && Good(d, out, sent)
    requires Genuine(p, sent) && Guard(v, cap, d, p.seqno)
    ensures Good(Pushed(v, cap, d, p), out, sent)
  {
  }

  /** What a read takes and leaves. */
  lemma DrainedIs(d: Deque)
    ensures var (e, o) := Drained(d);
            && e.cursor == WrapAdd(d.cursor, |o|) && |o| <= |d.slots| && e.slots == d.slots[|o|..]
            && (forall i :: 0 <= i < |o| ==> d.slots[i] == Payload(o[i]))
            && (e.slots == [] || e.slots[0].Missing?)
  {
  }

  lemma ReadKeepsGood(d: Deque, out: seq<Packet>, sent: seq<Packet>)
    requires Numbered(sent) && Good(d, out, sent)
    ensures Good(Drained(d).0, out + Drained(d).1, sent)
    ensures Drained(d).0.slots == [] || Drained(d).0.slots[0].Missing?
  {
    DrainedIs(d);
    GoodIsBounded(d, out, sent);
    hide Drained;
    var (e, o) := Drained(d);
    ReadIsPrefix(d, out, o, sent);
    TailIsGood(d, out, |o|, sent);
    hide Genuine, Numbered;
  }

  lemma ReadIsPrefix(d: Deque, out: seq<Packet>, o: seq<Packet>, sent: seq<Packet>)
    requires Numbered(sent) && Good(d, out, sent) && |o| <= |d.slots|
    requires forall i :: 0 <= i < |o| ==> d.slots[i] == Payload(o[i])
    requires d.cursor + |d.slots| <= |sent|
    ensures out + o == sent[..|out| + |o|]
  {
    forall i | 0 <= i < |o|
      ensures o[i] == sent[|out| + i]
    {
      assert d.slots[i].packet.seqno == d.cursor + i;
    }
  }

  lemma TailIsGood(d: Deque, out: seq<Packet>, k: nat, sent: seq<Packet>)
    requires Numbered(sent) && Good(d, out, sent) && k <= |d.slots| && d.cursor + |d.slots| <= |sent|
    ensures WrapAdd(d.cursor, k) == d.cursor + k
    ensures Tidy(Deque(d.cursor + k, d.slots[k..]))
    ensures forall i :: 0 <= i < |d.slots[k..]| && d.slots[k..][i].Payload? ==>
              Genuine(d.slots[k..][i].packet, sent) && d.slots[k..][i].packet.seqno == d.cursor + k + i
  {
    forall i | 0 <= i < |d.slots[k..]| && d.slots[k..][i].Payload?
      ensures Genuine(d.slots[k..][i].packet, sent) && d.slots[k..][i].packet.seqno == d.cursor + k + i
    {
      assert d.slots[k..][i] == d.slots[k + i];
    }
  }

  lemma {:induction false} RunIsGood(v: Variant, cap: nat, ops: seq<Op>, sent: seq<Packet>)
    requires Numbered(sent) && Guarded(v, cap, ops, sent)
    ensures var (d, out) := Run(v, cap, EmptyDeque, ops); Good(d, out, sent)
  {
    if ops != [] {
      var rest := ops[..|ops| - 1];
      RunIsGood(v, cap, rest, sent);
      var (d, out) := Run(v, cap, EmptyDeque, rest);
      match ops[|ops| - 1]
      case PushOp(p) => PushKeepsGood(v, cap, d, out, p, sent);
      case ReadOp => ReadKeepsGood(d, out, sent);
    }
  }

  /** Whatever is lost, repeated or reordered, the concatenated reads are a prefix of what was sent:
      no gap, no repeat, no swap.  Unconditional for the intended variant. */
  lemma ReliablePrefix(v: Variant, cap: nat, ops: seq<Op>, sent: seq<Packet>)
    requires Numbered(sent) && Guarded(v, cap, ops, sent)
    ensures Run(v, cap, EmptyDeque, ops).1 <= sent
    ensures Run(v, cap, EmptyDeque, ops).0.cursor == |Run(v, cap, EmptyDeque, ops).1|
  {
    RunIsGood(v, cap, ops, sent);
  }

  ghost predicate FromTransfer(ops: seq<Op>, sent: seq<Packet>) {
    forall i :: 0 <= i < |ops| && ops[i].PushOp? ==> Genuine(ops[i].packet, sent)
  }

  /** Every payload is in its own slot after each operation. */
  ghost predicate AlwaysAligned(v: Variant, cap: nat, ops: seq<Op>) {
    ops != [] ==> AlwaysAligned(v, cap, ops[..|ops| - 1]) && Aligned(Run(v, cap, EmptyDeque, ops).0)
  }

  /** The guard is exact: a run over any arrivals of the transfer keeps its payloads in place throughout
      if and only if each arrival meets it. */
  lemma {:induction false} AlignedIffGuarded(v: Variant, cap: nat, ops: seq<Op>, sent: seq<Packet>)
    requires Numbered(sent) && FromTransfer(ops, sent)
    ensures AlwaysAligned(v, cap, ops) <==> Guarded(v, cap, ops, sent)
  {
    if ops != [] {
      var rest, op := ops[..|ops| - 1], ops[|ops| - 1];
      AlignedIffGuarded(v, cap, rest, sent);
      if Guarded(v, cap, rest, sent) {
        RunIsGood(v, cap, rest, sent);
        var (d, out) := Run(v, cap, EmptyDeque, rest);
        match op
        case PushOp(p) => PushKeepsAlignmentIff(v, cap, d, p);
        case ReadOp => RunIsGood(v, cap, ops, sent);
      }
    }
  }

  // ---------------------------------------------------------------- NACKs

  /** Sequence numbers the deque accepted: the pushes that were not refused for lack of room. */
  ghost function Received(v: Variant, cap: nat, ops: seq<Op>): set<u32> {
    if ops == [] then {} else
    var rest, op := ops[..|ops| - 1], ops[|ops| - 1];
    Received(v, cap, rest) +
    if op.PushOp? && |Run(v, cap, EmptyDeque, rest).0.slots| < cap then {op.packet.seqno} else {}
  }

  /** The deque holds exactly the received numbers not yet read. */
  ghost predicate Tracks(d: Deque, received: set<u32>) {
    && (forall n :: 0 <= n < d.cursor ==> n in received)
    && (forall i :: 0 <= i < |d.slots| ==> (d.slots[i].Payload? <==> d.cursor + i in received))
    && (forall n :: n in received ==> n < d.cursor + |d.slots|)
  }

  lemma PushKeepsTracks(v: Variant, cap: nat, d: Deque, p: Packet, received: set<u32>)
    requires Tracks(d, received) && Guard(v, cap, d, p.seqno)
    ensures Tracks(Pushed(v, cap, d, p), received + if |d.slots| < cap then {p.seqno} else {})
  {
  }

  lemma ReadKeepsTracks(d: Deque, received: set<u32>)
    requires Tracks(d, received) && d.cursor + |d.slots| < TWO32
    ensures Tracks(Drained(d).0, received)
  {
    DrainedIs(d);
    hide Drained;
    var (e, o) := Drained(d);
    forall n | 0 <= n < e.cursor
      ensures n in received
    {
      assert n >= d.cursor ==> d.slots[n - d.cursor].Payload?;
    }
    forall i | 0 <= i < |e.slots|
      ensures e.slots[i].Payload? <==> e.cursor + i in received
    {
      assert e.slots[i] == d.slots[|o| + i];
    }
  }

  lemma {:induction false} RunTracks(v: Variant, cap: nat, ops: seq<Op>, sent: seq<Packet>)
    requires Numbered(sent) && Guarded(v, cap, ops, sent)
    ensures Tracks(Run(v, cap, EmptyDeque, ops).0, Received(v, cap, ops))
  {
    if ops != [] {
      var rest, op := ops[..|ops| - 1], ops[|ops| - 1];
      RunTracks(v, cap, rest, sent);
      RunIsGood(v, cap, rest, sent);
      var (d, out) := Run(v, cap, EmptyDeque, rest);
      var received := Received(v, cap, rest);
      StepKeepsTracks(v, cap, d, out, op, received, sent);
      assert Run(v, cap, EmptyDeque, ops).0 == Step(v, cap, d, op).0;
      assert Received(v, cap, ops) == received + if op.PushOp? && |d.slots| < cap then {op.packet.seqno} else {};
    }
  }

  lemma StepKeepsTracks(v: Variant, cap: nat, d: Deque, out: seq<Packet>, op: Op, received: set<u32>, sent: seq<Packet>)
    requires Numbered(sent) && Good(d, out, sent) && Tracks(d, received)
    requires op.PushOp? ==> Guard(v, cap, d, op.packet.seqno)
    ensures Tracks(Step(v, cap, d, op).0, received + if op.PushOp? && |d.slots| < cap then {op.packet.seqno} else {})
  {
    match op
    case PushOp(p) => PushKeepsTracks(v, cap, d, p, received);
    case ReadOp =>
      GoodIsBounded(d, out, sent);
      ReadKeepsTracks(d, received);
      assert received + {} == received;
  }

  lemma GoodIsBounded(d: Deque, out: seq<Packet>, sent: seq<Packet>)
    requires Numbered(sent) && Good(d, out, sent)
    ensures d.cursor + |d.slots| <= |sent|
  {
    if d.slots != [] {
      assert d.slots[|d.slots| - 1].Payload?;
    }
  }

  ghost predicate Increasing(m: seq<u32>) {
    forall a, b :: 0 <= a < b < |m| ==> m[a] < m[b]
  }

  ghost predicate HoleAt(d: Deque, n: int) {
    d.cursor <= n < d.cursor + |d.slots| && d.slots[n - d.cursor].Missing?
  }

  lemma {:induction false} MissingFromLists(d: Deque, i: nat)
    requires i <= |d.slots| && d.cursor + |d.slots| < TWO32
    ensures Increasing(MissingFrom(d, i))
    ensures forall n {:trigger n in MissingFrom(d, i)} :: n in MissingFrom(d, i) <==> d.cursor + i <= n && HoleAt(d, n)
    decreases |d.slots| - i
  {
    if i < |d.slots| {
      MissingFromLists(d, i + 1);
      var m, rest := MissingFrom(d, i), MissingFrom(d, i + 1);
      forall a | 0 <= a < |rest|
        ensures d.cursor + i < rest[a]
      {
        assert rest[a] in MissingFrom(d, i + 1);
      }
      if d.slots[i].Missing? {
        assert m == [d.cursor + i] + rest;
        assert forall n :: n in m <==> n == d.cursor + i || n in rest;
      } else {
        assert m == rest;
      }
    }
  }

  /** A NACK lists, in increasing order and once each, exactly the numbers from the cursor on that
      were not received although a higher one was. */
  lemma ExactNacks(v: Variant, cap: nat, ops: seq<Op>, sent: seq<Packet>)
    requires Numbered(sent) && Guarded(v, cap, ops, sent)
    ensures var d := Run(v, cap, EmptyDeque, ops).0;
            Increasing(MissingFrom(d, 0))
    ensures var d := Run(v, cap, EmptyDeque, ops).0;
            forall n :: n in MissingFrom(d, 0) <==> d.cursor <= n && Overtaken(n, Received(v, cap, ops))
  {
    var (d, out) := Run(v, cap, EmptyDeque, ops);
    RunIsGood(v, cap, ops, sent);
    RunTracks(v, cap, ops, sent);
    GoodIsBounded(d, out, sent);
    MissingFromLists(d, 0);
    forall n
      ensures n in MissingFrom(d, 0) <==> d.cursor <= n && Overtaken(n, Received(v, cap, ops))
    {
      HolesAreOvertaken(d, Received(v, cap, ops), n);
    }
  }

  ghost predicate Overtaken(n: int, received: set<u32>) {
    n !in received && exists h :: h in received && n < h
  }

  lemma HolesAreOvertaken(d: Deque, received: set<u32>, n: int)
    requires Tidy(d) && Tracks(d, received)
    ensures HoleAt(d, n) <==> d.cursor <= n && Overtaken(n, received)
  {
    if d.cursor <= n < d.cursor + |d.slots| {
      var i, last := n - d.cursor, |d.slots| - 1;
      assert d.slots[i].Payload? <==> d.cursor + i in received;
      assert d.slots[last].Payload? && d.cursor + last in received;
      assert d.slots[i].Missing? ==> i < last;
    }
  }

  // ---------------------------------------------------------------- what the unguarded padding does

  lemma RunSnoc(v: Variant, cap: nat, d: Deque, ops: seq<Op>, op: Op)
    ensures var (d1, o1) := Run(v, cap, d, ops);
            && Run(v, cap, d, ops + [op]).0 == Step(v, cap, d1, op).0
            && Run(v, cap, d, ops + [op]).1 == o1 + Step(v, cap, d1, op).1
  {
    hide Step;
    assert (ops + [op])[..|ops|] == ops;
  }

  lemma {:induction false} RunAppend(v: Variant, cap: nat, d: Deque, a: seq<Op>, b: seq<Op>)
    ensures var (d1, o1) := Run(v, cap, d, a);
            && Run(v, cap, d, a + b).0 == Run(v, cap, d1, b).0
            && Run(v, cap, d, a + b).1 == o1 + Run(v, cap, d1, b).1
  {
    hide Step;
    if b == [] {
      assert a + b == a;
    } else {
      var rest, op := b[..|b| - 1], b[|b| - 1];
      var (d1, o1) := Run(v, cap, d, a);
      RunAppend(v, cap, d, a, rest);
      RunSnoc(v, cap, d, a + rest, op);
      RunSnoc(v, cap, d1, rest, op);
      assert a + rest + [op] == a + b && rest + [op] == b;
      var (d2, o2) := Run(v, cap, d1, rest);
      assert o1 + o2 + Step(v, cap, d2, op).1 == o1 + (o2 + Step(v, cap, d2, op).1);
    }
  }

  /** The recv loop's treatment of one packet: push, then read. */
  function Arrive(p: Packet): seq<Op> {
    [PushOp(p), ReadOp]
  }

  lemma RunArrive(v: Variant, cap: nat, d: Deque, p: Packet)
    ensures Run(v, cap, d, Arrive(p)).0 == Drained(Pushed(v, cap, d, p)).0
    ensures Run(v, cap, d, Arrive(p)).1 == Drained(Pushed(v, cap, d, p)).1
  {
    RunSnoc(v, cap, d, [], PushOp(p));
    RunSnoc(v, cap, d, [PushOp(p)], ReadOp);
    assert [] + [PushOp(p)] == [PushOp(p)] && [PushOp(p)] + [ReadOp] == Arrive(p);
  }

  /** In an unfinished transfer, slot `j` of the deque, no further than one past the end, holds the
      payload of another sequence number. */
  ghost predicate Misplaced(d: Deque, j: nat, sent: seq<Packet>) {
    && j < |d.slots|
    && d.cursor < |sent|
    && d.cursor + j <= |sent|
    && d.slots[j].Payload?
    && d.slots[j].packet.seqno != d.cursor + j
  }

  /** From a misplaced payload, feeding the numbers the sink asks for ends in output that is not
      what was sent. */
  lemma {:induction false} MisplacedIsExposed(cap: nat, d: Deque, j: nat, out: seq<Packet>, sent: seq<Packet>)
    returns (ops: seq<Op>)
    requires Numbered(sent) && |d.slots| < cap && Misplaced(d, j, sent)
    requires d.cursor == |out| && out <= sent
    ensures FromTransfer(ops, sent)
    ensures !(out + Run(Written, cap, d, ops).1 <= sent)
    decreases j
  {
    hide Pushed, Drained, Run;
    var p := sent[d.cursor];
    var (f, o) := Drained(Pushed(Written, cap, d, p));
    MisplacedAfterArrival(cap, d, j, p, sent);
    RunArrive(Written, cap, d, p);
    ops := Arrive(p);
    hide Arrive;
    if |o| > j {
      MisplacedIsHandedOut(d, j, out, o, sent);
    } else if out + o <= sent {
      var rest := MisplacedIsExposed(cap, f, j - |o|, out + o, sent);
      OutputAppend(cap, d, ops, rest, out);
      ops := ops + rest;
    }
  }

  lemma MisplacedIsHandedOut(d: Deque, j: nat, out: seq<Packet>, o: seq<Packet>, sent: seq<Packet>)
    requires Numbered(sent) && Misplaced(d, j, sent) && d.cursor == |out|
    requires j < |o| && o[j] == d.slots[j].packet
    ensures !(out + o <= sent)
  {
    assert (out + o)[d.cursor + j] == o[j];
  }

  lemma OutputAppend(cap: nat, d: Deque, a: seq<Op>, b: seq<Op>, out: seq<Packet>)
    ensures out + Run(Written, cap, d, a + b).1 ==
            out + Run(Written, cap, d, a).1 + Run(Written, cap, Run(Written, cap, d, a).0, b).1
  {
    hide Run;
    RunAppend(Written, cap, d, a, b);
  }

  lemma MisplacedAfterArrival(cap: nat, d: Deque, j: nat, p: Packet, sent: seq<Packet>)
    requires Numbered(sent) && |d.slots| < cap && Misplaced(d, j, sent) && p.seqno == d.cursor
    ensures var (f, o) := Drained(Pushed(Written, cap, d, p));
            && 0 < |o| && |f.slots| < cap
            && (|o| <= j ==> Misplaced(f, j - |o|, sent) && f.cursor == d.cursor + |o|)
            && (j < |o| ==> o[j] == d.slots[j].packet)
  {
    var e := Pushed(Written, cap, d, p);
    assert e.slots[j] == d.slots[j] && e.slots[0].Payload?;
    hide Pushed;
    DrainedIs(e);
    NextPacketYields(Written, cap, d, p);
    hide Drained;
  }

  /** A deque with a hole where the number after the last of the transfer belongs, and only right
      payloads before that hole. */
  ghost predicate Fenced(d: Deque, out: seq<Packet>, sent: seq<Packet>) {
    && d.cursor == |out| <= |sent| < d.cursor + |d.slots|
    && out == sent[..|out|]
    && d.slots[|sent| - d.cursor].Missing?
    && forall i :: 0 <= i < |sent| - d.cursor && d.slots[i].Payload? ==>
         Genuine(d.slots[i].packet, sent) && d.slots[i].packet.seqno == d.cursor + i
  }

  lemma PushKeepsFence(cap: nat, d: Deque, out: seq<Packet>, p: Packet, sent: seq<Packet>)
    requires Numbered(sent) && Fenced(d, out, sent) && Genuine(p, sent)
    ensures Fenced(Pushed(Written, cap, d, p), out, sent)
  {
  }

  lemma ReadStopsAtHole(d: Deque, i: nat)
    requires i < |d.slots| && d.slots[i].Missing?
    ensures |Drained(d).1| <= i
  {
  }

  lemma ReadKeepsFence(d: Deque, out: seq<Packet>, sent: seq<Packet>)
    requires Numbered(sent) && Fenced(d, out, sent)
    ensures Fenced(Drained(d).0, out + Drained(d).1, sent)
  {
    DrainedIs(d);
    ReadStopsAtHole(d, |sent| - d.cursor);
    hide Drained, Genuine, Numbered;
    var (e, o) := Drained(d);
    FencedRead(d, out, o, sent);
    FencedTail(d, out, |o|, sent);
    hide Fenced;
  }

  lemma FencedRead(d: Deque, out: seq<Packet>, o: seq<Packet>, sent: seq<Packet>)
    requires Numbered(sent) && Fenced(d, out, sent) && |o| <= |sent| - d.cursor
    requires forall i :: 0 <= i < |o| ==> d.slots[i] == Payload(o[i])
    ensures out + o == sent[..|out| + |o|]
  {
    forall i | 0 <= i < |o|
      ensures o[i] == sent[|out| + i]
    {
      assert d.slots[i].packet.seqno == d.cursor + i;
    }
  }

  lemma FencedTail(d: Deque, out: seq<Packet>, k: nat, sent: seq<Packet>)
    requires Numbered(sent) && Fenced(d, out, sent) && k <= |sent| - d.cursor
    ensures WrapAdd(d.cursor, k) == d.cursor + k
    ensures Fenced(Deque(d.cursor + k, d.slots[k..]), sent[..|out| + k], sent)
  {
    hide Genuine;
    forall i | 0 <= i < |d.slots[k..]|
      ensures d.slots[k..][i] == d.slots[k + i]
    {
    }
  }

  /** Behind the fence no genuine arrival can go wrong: the hole at it is never filled. */
  lemma {:induction false} FencedStaysPrefix(cap: nat, d: Deque, out: seq<Packet>, more: seq<Op>, sent: seq<Packet>)
    requires Numbered(sent) && Fenced(d, out, sent) && FromTransfer(more, sent)
    ensures Fenced(Run(Written, cap, d, more).0, out + Run(Written, cap, d, more).1, sent)
    ensures out + Run(Written, cap, d, more).1 <= sent
  {
    hide Fenced, Numbered, Genuine, Pushed, Drained;
    if more == [] {
      assert out + [] == out;
    } else {
      var rest, op := more[..|more| - 1], more[|more| - 1];
      FencedStaysPrefix(cap, d, out, rest, sent);
      var (e, o) := Run(Written, cap, d, rest);
      match op
      case PushOp(p) =>
        PushKeepsFence(cap, e, out + o, p, sent);
        assert out + o == out + (o + []);
      case ReadOp =>
        ReadKeepsFence(e, out + o, sent);
        assert out + o + Drained(e).1 == out + (o + Drained(e).1);
    }
    FencedIsPrefix(Run(Written, cap, d, more).0, out + Run(Written, cap, d, more).1, sent);
  }

  lemma FencedIsPrefix(d: Deque, out: seq<Packet>, sent: seq<Packet>)
    requires Fenced(d, out, sent)
    ensures out <= sent
  {
  }

  /** Padding that reaches past the end of the transfer leaves a hole there. */
  lemma PaddedPastEndIsFenced(cap: nat, d: Deque, out: seq<Packet>, p: Packet, sent: seq<Packet>)
    requires Numbered(sent) && Good(d, out, sent) && Genuine(p, sent) && !Guard(Written, cap, d, p.seqno)
    requires d.cursor + |Pushed(Written, cap, d, p).slots| > |sent| + 1
    ensures Fenced(Pushed(Written, cap, d, p), out, sent)
  {
    GoodIsBounded(d, out, sent);
    var e := Pushed(Written, cap, d, p);
    assert |e.slots| == |d.slots| + WrapSub(p.seqno, d.cursor) + 1;
  }

  /** Some further genuine arrivals and reads make the sink hand out what was not sent. */
  ghost predicate CanGoWrong(cap: nat, d: Deque, out: seq<Packet>, sent: seq<Packet>) {
    exists more :: FromTransfer(more, sent) && !(out + Run(Written, cap, d, more).1 <= sent)
  }

  /** What the first unguarded arrival leads to, `d` being any good deque after a read. The in-order
      promise fails exactly when the padded deque is not full and ends at most one slot past the
      transfer; a full one never yields anything again, and one that ends further out keeps a hole
      that no genuine arrival fills. */
  lemma UnguardedArrivalBreaks(cap: nat, d: Deque, out: seq<Packet>, p: Packet, sent: seq<Packet>)
    requires Numbered(sent) && Good(d, out, sent) && (d.slots == [] || d.slots[0].Missing?)
    requires Genuine(p, sent) && !Guard(Written, cap, d, p.seqno)
    ensures var e := Pushed(Written, cap, d, p);
            CanGoWrong(cap, e, out, sent) <==> |e.slots| < cap && d.cursor + |e.slots| <= |sent| + 1
  {
    var e := Pushed(Written, cap, d, p);
    var last := |e.slots| - 1;
    assert e.slots[last] == Payload(p) && last == |d.slots| + WrapSub(p.seqno, d.cursor);
    if |e.slots| >= cap || d.cursor + |e.slots| > |sent| + 1 {
      forall more | FromTransfer(more, sent)
        ensures out + Run(Written, cap, e, more).1 <= sent
      {
        SilentOrFenced(cap, d, out, p, more, sent);
      }
    } else {
      var ops := MisplacedIsExposed(cap, e, last, out, sent);
    }
  }

  lemma SilentOrFenced(cap: nat, d: Deque, out: seq<Packet>, p: Packet, more: seq<Op>, sent: seq<Packet>)
    requires Numbered(sent) && Good(d, out, sent) && (d.slots == [] || d.slots[0].Missing?)
    requires Genuine(p, sent) && !Guard(Written, cap, d, p.seqno) && FromTransfer(more, sent)
    requires |Pushed(Written, cap, d, p).slots| >= cap || d.cursor + |Pushed(Written, cap, d, p).slots| > |sent| + 1
    ensures out + Run(Written, cap, Pushed(Written, cap, d, p), more).1 <= sent
  {
    var e := Pushed(Written, cap, d, p);
    if |e.slots| >= cap {
      StuckStays(Written, cap, e, more);
      assert out + [] == out;
    } else {
      PaddedPastEndIsFenced(cap, d, out, p, sent);
      FencedStaysPrefix(cap, e, out, more, sent);
    }
  }

  function ExampleArrivals(sent: seq<Packet>): seq<Op>
    requires |sent| >= 5
  {
    [PushOp(sent[1]), PushOp(sent[3])] + Arrive(sent[0]) + Arrive(sent[2]) + Arrive(sent[3]) + Arrive(sent[4])
  }

  /** A five-chunk example: chunks 1 and 3 arrive first, then what the NACKs ask for.
      Chunk 3 is handed out twice, the second time in the place of chunk 5. */
  lemma WrittenPaddingRepeatsAChunk(cap: nat, sent: seq<Packet>)
    requires Numbered(sent) && |sent| >= 5 && cap >= 7
    ensures Run(Written, cap, EmptyDeque, ExampleArrivals(sent)).1 == sent[..5] + [sent[3]]
  {
    hide Run, Arrive;
    var ops := [PushOp(sent[1]), PushOp(sent[3])];
    TwoOutOfOrder(cap, sent);
    ExampleFirst(cap, sent, ops);
    ExampleSecond(cap, sent, ops + Arrive(sent[0]));
    ExampleThird(cap, sent, ops + Arrive(sent[0]) + Arrive(sent[2]));
    ExampleFourth(cap, sent, ops + Arrive(sent[0]) + Arrive(sent[2]) + Arrive(sent[3]));
  }

  /** `ops` lead from the start to this deque and this output. */
  ghost predicate Leads(cap: nat, ops: seq<Op>, d: Deque, out: seq<Packet>) {
    Run(Written, cap, EmptyDeque, ops).0 == d && Run(Written, cap, EmptyDeque, ops).1 == out
  }

  lemma ExampleFirst(cap: nat, sent: seq<Packet>, ops: seq<Op>)
    requires Numbered(sent) && |sent| >= 5 && cap >= 7
    requires Leads(cap, ops, Deque(0, [Missing, Payload(sent[1]), Missing, Missing, Missing, Payload(sent[3])]), [])
    ensures Leads(cap, ops + Arrive(sent[0]), Deque(2, [Missing, Missing, Missing, Payload(sent[3])]), sent[..2])
  {
    hide Leads, Arrive;
    var slots := [Missing, Payload(sent[1]), Missing, Missing, Missing, Payload(sent[3])];
    ArriveGives(cap, ops, [], Deque(0, slots), sent[0], 2);
    assert slots[2..] == [Missing, Missing, Missing, Payload(sent[3])];
    assert [] + ([sent[0]] + Packets(slots[1..2])) == sent[..2];
  }

  lemma ExampleSecond(cap: nat, sent: seq<Packet>, ops: seq<Op>)
    requires Numbered(sent) && |sent| >= 5 && cap >= 7
    requires Leads(cap, ops, Deque(2, [Missing, Missing, Missing, Payload(sent[3])]), sent[..2])
    ensures Leads(cap, ops + Arrive(sent[2]), Deque(3, [Missing, Missing, Payload(sent[3])]), sent[..3])
  {
    hide Leads, Arrive;
    var slots := [Missing, Missing, Missing, Payload(sent[3])];
    ArriveGives(cap, ops, sent[..2], Deque(2, slots), sent[2], 1);
    assert slots[1..] == [Missing, Missing, Payload(sent[3])];
    assert sent[..2] + ([sent[2]] + Packets(slots[1..1])) == sent[..3];
  }

  lemma ExampleThird(cap: nat, sent: seq<Packet>, ops: seq<Op>)
    requires Numbered(sent) && |sent| >= 5 && cap >= 7
    requires Leads(cap, ops, Deque(3, [Missing, Missing, Payload(sent[3])]), sent[..3])
    ensures Leads(cap, ops + Arrive(sent[3]), Deque(4, [Missing, Payload(sent[3])]), sent[..4])
  {
    hide Leads, Arrive;
    var slots := [Missing, Missing, Payload(sent[3])];
    ArriveGives(cap, ops, sent[..3], Deque(3, slots), sent[3], 1);
    assert slots[1..] == [Missing, Payload(sent[3])];
    assert sent[..3] + ([sent[3]] + Packets(slots[1..1])) == sent[..4];
  }

  lemma ExampleFourth(cap: nat, sent: seq<Packet>, ops: seq<Op>)
    requires Numbered(sent) && |sent| >= 5 && cap >= 7
    requires Leads(cap, ops, Deque(4, [Missing, Payload(sent[3])]), sent[..4])
    ensures Leads(cap, ops + Arrive(sent[4]), Deque(6, []), sent[..5] + [sent[3]])
  {
    hide Leads, Arrive;
    var slots := [Missing, Payload(sent[3])];
    ArriveGives(cap, ops, sent[..4], Deque(4, slots), sent[4], 2);
    assert slots[2..] == [];
    assert sent[..4] + ([sent[4]] + Packets(slots[1..2])) == sent[..5] + [sent[3]];
  }

  lemma TwoOutOfOrder(cap: nat, sent: seq<Packet>)
    requires Numbered(sent) && |sent| >= 5 && cap >= 7
    ensures Leads(cap, [PushOp(sent[1]), PushOp(sent[3])],
                  Deque(0, [Missing, Payload(sent[1]), Missing, Missing, Missing, Payload(sent[3])]), [])
  {
    var slots := [Missing, Payload(sent[1]), Missing, Missing, Missing, Payload(sent[3])];
    RunSnoc(Written, cap, EmptyDeque, [], PushOp(sent[1]));
    RunSnoc(Written, cap, EmptyDeque, [PushOp(sent[1])], PushOp(sent[3]));
    hide Run;
    assert [] + [PushOp(sent[1])] == [PushOp(sent[1])];
    assert [PushOp(sent[1])] + [PushOp(sent[3])] == [PushOp(sent[1]), PushOp(sent[3])];
    NothingRun(cap);
    assert Pushed(Written, cap, EmptyDeque, sent[1]) == Deque(0, slots[..2]);
    assert Pushed(Written, cap, Deque(0, slots[..2]), sent[3]) == Deque(0, slots);
  }

  lemma NothingRun(cap: nat)
    ensures Run(Written, cap, EmptyDeque, []).0 == EmptyDeque && Run(Written, cap, EmptyDeque, []).1 == []
  {
  }

  /** One arrival that fills the hole in front and releases `k` packets. */
  lemma ArriveGives(cap: nat, ops: seq<Op>, out: seq<Packet>, d: Deque, p: Packet, k: nat)
    requires Leads(cap, ops, d, out)
    requires d.slots != [] && d.slots[0].Missing? && p.seqno == d.cursor && |d.slots| < cap
    requires 0 < k <= |d.slots| && d.cursor + k < TWO32
    requires forall i :: 0 < i < k ==> d.slots[i].Payload?
    requires k < |d.slots| ==> d.slots[k].Missing?
    ensures Leads(cap, ops + Arrive(p), Deque(d.cursor + k, d.slots[k..]), out + ([p] + Packets(d.slots[1..k])))
  {
    hide Run, Arrive;
    RunAppend(Written, cap, EmptyDeque, ops, Arrive(p));
    RunArrive(Written, cap, d, p);
    HeadFilled(cap, d, p, k);
    hide Pushed, Drained;
  }

  lemma HeadFilled(cap: nat, d: Deque, p: Packet, k: nat)
    requires d.slots != [] && d.slots[0].Missing? && p.seqno == d.cursor && |d.slots| < cap
    requires 0 < k <= |d.slots| && d.cursor + k < TWO32
    requires forall i :: 0 < i < k ==> d.slots[i].Payload?
    requires k < |d.slots| ==> d.slots[k].Missing?
    ensures Drained(Pushed(Written, cap, d, p)) == (Deque(d.cursor + k, d.slots[k..]), [p] + Packets(d.slots[1..k]))
  {
    var filled := d.slots[0 := Payload(p)];
    ReadyIs(filled, k);
    assert filled[k..] == d.slots[k..];
    assert Packets(filled[..k]) == [p] + Packets(d.slots[1..k]);
  }
}
