/** The receiving half of a transfer: credit return and the two sinks (src/mani/transfer/recv.rs). */
module Receiving {
  import opened Types
  import opened Assembly

  /** What the sinks ask the stream task to send to the peer. */
  datatype SenderCommand = UpdateCredits(additionalCredits: nat) | Nack(sequenceNumbers: seq<u32>)

  /** The command channel; sends to a closed one are lost. */
  class CommandChannel {
    var open: bool
    var queue: seq<SenderCommand>

    constructor ()
      ensures open && queue == []
    {
      open, queue := true, [];
    }

    method Send(c: SenderCommand)
      modifies this
      ensures open == old(open) && queue == old(queue) + if open then [c] else []
    {
      if open {
        queue := queue + [c];
      }
    }
  }

  // ---------------------------------------------------------------- the coordinator

  datatype Coord = Coord(
    reliableDrained: nat,
    unreliableDrained: nat,
    lastEmitted: nat,
    hasReliable: bool,
    reliableClosed: bool,
    unreliableClosed: bool)

  function NewCoord(hasReliable: bool): Coord {
    Coord(0, 0, 0, hasReliable, false, false)
  }

  function SaturatingAdd(a: nat, b: nat): nat {
    if a + b < TWO64 then a + b else TWO64 - 1
  }

  predicate ReliableOpen(c: Coord) {
    c.hasReliable && !c.reliableClosed
  }

  /** The drained count credits are gated on: the slower of the open sinks. */
  function EffectiveCount(c: Coord): Option<nat> {
    if ReliableOpen(c) && !c.unreliableClosed then
      Some(if c.reliableDrained <= c.unreliableDrained then c.reliableDrained else c.unreliableDrained)
    else if ReliableOpen(c) then Some(c.reliableDrained)
    else if !c.unreliableClosed then Some(c.unreliableDrained)
    else None
  }

  /** `n` chunks have been drained by every sink that is still open, and there is one. */
  predicate AllDrained(c: Coord, n: nat) {
    && (c.hasReliable && !c.reliableClosed ==> n <= c.reliableDrained)
    && (!c.unreliableClosed ==> n <= c.unreliableDrained)
    && ((c.hasReliable && !c.reliableClosed) || !c.unreliableClosed)
  }

  /** The new state, and the credits to announce (0 for no announcement). */
  function MaybeEmit(bulk: nat, c: Coord, force: bool): (Coord, nat) {
    match EffectiveCount(c)
    case None => (c, 0)
    case Some(effective) =>
      if effective <= c.lastEmitted || (!force && effective - c.lastEmitted < bulk) then (c, 0)
      else (c.(lastEmitted := effective), effective - c.lastEmitted)
  }

  datatype Call = RecordReliable(n: nat) | RecordUnreliable(n: nat) | CloseReliable | CloseUnreliable

  function AfterCall(bulk: nat, c: Coord, call: Call): (Coord, nat) {
    match call
    case RecordReliable(n) =>
      if n == 0 then (c, 0) else MaybeEmit(bulk, c.(reliableDrained := SaturatingAdd(c.reliableDrained, n)), false)
    case RecordUnreliable(n) =>
      if n == 0 then (c, 0) else MaybeEmit(bulk, c.(unreliableDrained := SaturatingAdd(c.unreliableDrained, n)), false)
    case CloseReliable =>
      if c.reliableClosed then (c, 0) else MaybeEmit(bulk, c.(reliableClosed := true), true)
    case CloseUnreliable =>
      if c.unreliableClosed then (c, 0) else MaybeEmit(bulk, c.(unreliableClosed := true), true)
  }

  function Announce(credits: nat): seq<SenderCommand> {
    if credits == 0 then [] else [UpdateCredits(credits)]
  }

  class CreditCoordinator {
    const bulk: nat
    const commands: CommandChannel
    var state: Coord

    constructor (commands: CommandChannel, bulk: nat, hasReliable: bool)
      ensures this.commands == commands && this.bulk == (if bulk == 0 then 1 else bulk)
      ensures state == NewCoord(hasReliable)
    {
      this.commands := commands;
      this.bulk := if bulk == 0 then 1 else bulk;
      state := NewCoord(hasReliable);
    }

    /** `call` has happened: the new state, and its announcement on the channel. */
    twostate predicate Did(call: Call)
      reads this, commands
    {
      var (c, credits) := AfterCall(bulk, old(state), call);
      && state == c
      && commands.open == old(commands.open)
      && commands.queue == old(commands.queue) + if commands.open then Announce(credits) else []
    }

    /** Announces what is due, so that all but less than one batch of what every open sink has drained is
        returned, and all of it when forced. */
    method Emit(force: bool)
      modifies this, commands
      ensures bulk >= 1 ==>
                forall n: nat {:trigger AllDrained(state, n)} :: AllDrained(state, n) ==> n < state.lastEmitted + if force then 1 else bulk
      ensures var (c, credits) := MaybeEmit(bulk, old(state), force);
              && state == c
              && commands.open == old(commands.open)
              && commands.queue == old(commands.queue) + if commands.open then Announce(credits) else []
    {
      var effective := EffectiveCount(state);
      if effective == None || effective.value <= state.lastEmitted {
        return;
      }
      var pending := effective.value - state.lastEmitted;
      if !force && pending < bulk {
        return;
      }
      state := state.(lastEmitted := effective.value);
      commands.Send(UpdateCredits(pending));
    }

    method RecordReliable(n: nat)
      modifies this, commands
      ensures Did(Call.RecordReliable(n))
    {
      if n == 0 {
        return;
      }
      state := state.(reliableDrained := SaturatingAdd(state.reliableDrained, n));
      Emit(false);
    }

    method RecordUnreliable(n: nat)
      modifies this, commands
      ensures Did(Call.RecordUnreliable(n))
    {
      if n == 0 {
        return;
      }
      state := state.(unreliableDrained := SaturatingAdd(state.unreliableDrained, n));
      Emit(false);
    }

    method MarkReliableClosed()
      modifies this, commands
      ensures Did(CloseReliable)
    {
      if state.reliableClosed {
        return;
      }
      state := state.(reliableClosed := true);
      Emit(true);
    }

    method MarkUnreliableClosed()
      modifies this, commands
      ensures Did(CloseUnreliable)
    {
      if state.unreliableClosed {
        return;
      }
      state := state.(unreliableClosed := true);
      Emit(true);
    }
  }

  // ---------------------------------------------------------------- credit laws

  /** What has been announced is covered by every open sink, and of what every open sink has drained less
      than a batch is held back. */
  ghost predicate CoordInv(bulk: nat, c: Coord) {
    && (ReliableOpen(c) ==> c.lastEmitted <= c.reliableDrained)
    && (!c.unreliableClosed ==> c.lastEmitted <= c.unreliableDrained)
    && (forall n: nat {:trigger AllDrained(c, n)} :: AllDrained(c, n) ==> n < c.lastEmitted + bulk)
    && c.reliableDrained < TWO64 && c.unreliableDrained < TWO64
  }

  /** One call: the announcement is exactly the growth of `lastEmitted`, and the effective count does
      not fall while a sink is open. */
  lemma CallKeepsCoordInv(bulk: nat, c: Coord, call: Call)
    requires bulk >= 1 && CoordInv(bulk, c)
    ensures var (d, credits) := AfterCall(bulk, c, call);
            && CoordInv(bulk, d)
            && d.lastEmitted == c.lastEmitted + credits
            && d.hasReliable == c.hasReliable
            && (EffectiveCount(d).Some? ==> EffectiveCount(c).Some? && EffectiveCount(c).value <= EffectiveCount(d).value)
  {
    hide MaybeEmit;
    match call
    case RecordReliable(n) => EmitKeepsCoordInv(bulk, c.(reliableDrained := SaturatingAdd(c.reliableDrained, n)), false);
    case RecordUnreliable(n) => EmitKeepsCoordInv(bulk, c.(unreliableDrained := SaturatingAdd(c.unreliableDrained, n)),
        false);
    case CloseReliable => EmitKeepsCoordInv(bulk, c.(reliableClosed := true), true);
    case CloseUnreliable => EmitKeepsCoordInv(bulk, c.(unreliableClosed := true), true);
  }

  /** Emission brings the counters back within one batch. */
  lemma EmitKeepsCoordInv(bulk: nat, d: Coord, force: bool)
    requires bulk >= 1
    requires ReliableOpen(d) ==> d.lastEmitted <= d.reliableDrained
    requires !d.unreliableClosed ==> d.lastEmitted <= d.unreliableDrained
    requires d.reliableDrained < TWO64 && d.unreliableDrained < TWO64
    ensures var (e, credits) := MaybeEmit(bulk, d, force);
            && CoordInv(bulk, e) && e == d.(lastEmitted := e.lastEmitted) && e.lastEmitted == d.lastEmitted + credits
  {
  }

  function Sum(s: seq<nat>): nat {
    if s == [] then 0 else Sum(s[..|s| - 1]) + s[|s| - 1]
  }

  /** Any calls in any order: the state, and every announcement. */
  function RunCalls(bulk: nat, hasReliable: bool, calls: seq<Call>): (Coord, seq<nat>) {
    if calls == [] then (NewCoord(hasReliable), []) else
    var (c, out) := RunCalls(bulk, hasReliable, calls[..|calls| - 1]);
    var (d, credits) := AfterCall(bulk, c, calls[|calls| - 1]);
    (d, if credits == 0 then out else out + [credits])
  }

  lemma InvKeepsUp(bulk: nat, c: Coord, n: nat)
    requires CoordInv(bulk, c)
    ensures AllDrained(c, n) ==> n < c.lastEmitted + bulk
  {
  }

  /** Credits returned never run ahead of any open sink, and all but less than one batch of what every open
      sink has drained has been returned. */
  lemma {:induction false} CreditsTrackDrain(bulk: nat, hasReliable: bool, calls: seq<Call>)
    requires bulk >= 1
    ensures var (c, out) := RunCalls(bulk, hasReliable, calls);
            && c.hasReliable == hasReliable
            && CoordInv(bulk, c)
            && Sum(out) == c.lastEmitted
            && forall n: nat {:trigger AllDrained(c, n)} :: AllDrained(c, n) ==> n < Sum(out) + bulk
  {
    if calls != [] {
      var (c, out) := RunCalls(bulk, hasReliable, calls[..|calls| - 1]);
      CreditsTrackDrain(bulk, hasReliable, calls[..|calls| - 1]);
      CallKeepsCoordInv(bulk, c, calls[|calls| - 1]);
      var credits := AfterCall(bulk, c, calls[|calls| - 1]).1;
      hide AfterCall, CoordInv;
      assert (out + [credits])[..|out|] == out;
    }
    var c := RunCalls(bulk, hasReliable, calls).0;
    forall n: nat | AllDrained(c, n)
      ensures n < c.lastEmitted + bulk
    {
      InvKeepsUp(bulk, c, n);
    }
  }

  /** What the calls recorded for one of the sinks. */
  function Recorded(calls: seq<Call>, reliable: bool): nat {
    if calls == [] then 0 else
    Recorded(calls[..|calls| - 1], reliable) +
    match calls[|calls| - 1]
    case RecordReliable(n) => if reliable then n else 0
    case RecordUnreliable(n) => if reliable then 0 else n
    case _ => 0
  }

  function Saturated(n: nat): nat {
    if n < TWO64 then n else TWO64 - 1
  }

  /** The counters and flags are what the calls said: the recorded amounts, summed and saturated, and
      whether each sink was closed. */
  lemma {:induction false} CountsAreRecorded(bulk: nat, hasReliable: bool, calls: seq<Call>)
    ensures var c := RunCalls(bulk, hasReliable, calls).0;
            && c.hasReliable == hasReliable
            && c.reliableDrained == Saturated(Recorded(calls, true))
            && c.unreliableDrained == Saturated(Recorded(calls, false))
            && (c.reliableClosed <==> CloseReliable in calls)
            && (c.unreliableClosed <==> CloseUnreliable in calls)
  {
    if calls != [] {
      var rest, last := calls[..|calls| - 1], calls[|calls| - 1];
      CountsAreRecorded(bulk, hasReliable, rest);
      CallCountsExactly(bulk, RunCalls(bulk, hasReliable, rest).0, last);
      hide AfterCall;
      assert calls == rest + [last];
    }
  }

  lemma CallCountsExactly(bulk: nat, c: Coord, call: Call)
    requires c.reliableDrained < TWO64 && c.unreliableDrained < TWO64
    ensures var d := AfterCall(bulk, c, call).0;
            && d.hasReliable == c.hasReliable
            && d.reliableDrained == SaturatingAdd(c.reliableDrained, if call.RecordReliable? then call.n else 0)
            && d.unreliableDrained == SaturatingAdd(c.unreliableDrained, if call.RecordUnreliable? then call.n else 0)
            && d.reliableClosed == (c.reliableClosed || call.CloseReliable?)
            && d.unreliableClosed == (c.unreliableClosed || call.CloseUnreliable?)
  {
  }

  /** One call announces what is due: a record in whole batches only, a close everything. What every open
      sink has drained is returned but for less than one batch. */
  lemma CallKeepsUp(bulk: nat, c: Coord, call: Call, n: nat)
    requires bulk >= 1 && CoordInv(bulk, c)
    ensures var (d, credits) := AfterCall(bulk, c, call);
            && (AllDrained(d, n) ==> n < d.lastEmitted + bulk)
            && (AllDrained(d, n) && call.CloseReliable? && !c.reliableClosed ==> n <= d.lastEmitted)
            && (AllDrained(d, n) && call.CloseUnreliable? && !c.unreliableClosed ==> n <= d.lastEmitted)
            && (call.RecordReliable? || call.RecordUnreliable? ==> credits == 0 || credits >= bulk)
  {
  }

  // ---------------------------------------------------------------- the reliable sink

  datatype EndRequest = EndRequest(finalSequenceNumber: u32, reply: nat)

  /** What the select in `recv` can deliver. */
  datatype RecvEvent =
    | EndNotified
    | EndTransfer(request: EndRequest)
    | Arrived(packet: Packet)
    | ChannelClosed

  datatype RecvResult = Suspended | Eof | Chunks(packets: seq<Packet>)

  datatype RecvState = RecvState(
    deque: Deque,
    pendingEnd: Option<EndRequest>,
    closedSignaled: bool,
    coord: Coord,
    /** Commands sent by this call, oldest first. */
    commands: seq<SenderCommand>,
    /** End requests answered by this call. */
    replies: seq<nat>)

  datatype RecvConfig = RecvConfig(variant: Variant, cap: nat, bulk: nat)

  function SignalEof(cfg: RecvConfig, st: RecvState): RecvState {
    if st.closedSignaled then st else
    var (c, credits) := AfterCall(cfg.bulk, st.coord, CloseReliable);
    st.(closedSignaled := true, coord := c, commands := st.commands + Announce(credits))
  }

  function NackCommand(missing: seq<u32>): seq<SenderCommand> {
    if missing == [] then [] else [Nack(missing)]
  }

  /** One packet: push, NACK what is missing, hand out what is in order. */
  function OnPacket(cfg: RecvConfig, st: RecvState, p: Packet): (RecvState, RecvResult) {
    var pushed := Pushed(cfg.variant, cfg.cap, st.deque, p);
    var (deque, packets) := Drained(pushed);
    var (c, credits) := AfterCall(cfg.bulk, st.coord, Call.RecordReliable(|packets|));
    (st.(deque := deque, coord := c,
         commands := st.commands + NackCommand(MissingFrom(pushed, 0)) + Announce(credits)),
     if packets == [] then Suspended else Chunks(packets))
  }

  predicate EndReached(st: RecvState) {
    st.pendingEnd.Some? && st.deque.cursor > st.pendingEnd.value.finalSequenceNumber
  }

  function Finish(cfg: RecvConfig, st: RecvState): RecvState
    requires EndReached(st)
  {
    SignalEof(cfg, st.(pendingEnd := None, replies := st.replies + [st.pendingEnd.value.reply]))
  }

  /** One call of `recv` over the events its select sees. */
  function Recv(cfg: RecvConfig, st: RecvState, events: seq<RecvEvent>): (RecvState, RecvResult)
    decreases |events|
  {
    if EndReached(st) then (Finish(cfg, st), Eof)
    else if events == [] then (st, Suspended)
    else match events[0]
      case EndNotified => (SignalEof(cfg, st), Eof)
      case ChannelClosed => (SignalEof(cfg, st), Eof)
      case EndTransfer(request) => Recv(cfg, st.(pendingEnd := Some(request)), events[1..])
      case Arrived(p) =>
        var (after, r) := OnPacket(cfg, st, p);
        if r.Chunks? then (after, r) else Recv(cfg, after, events[1..])
  }

  class TransferReliableRecvStream {
    const assembler: Assembler
    const coord: CreditCoordinator
    var pendingEnd: Option<EndRequest>
    var closedSignaled: bool
    var replies: seq<nat>

    constructor (maxRetransmissionBufferSize: nat, coord: CreditCoordinator)
      ensures this.coord == coord && fresh(assembler)
      ensures assembler.maxRetransmissionBufferSize == maxRetransmissionBufferSize
      ensures assembler.Value() == EmptyDeque && pendingEnd == None && !closedSignaled && replies == []
    {
      assembler := new Assembler(maxRetransmissionBufferSize);
      this.coord := coord;
      pendingEnd, closedSignaled, replies := None, false, [];
    }

    function Value(): RecvState
      reads this, assembler, coord
    {
      RecvState(assembler.Value(), pendingEnd, closedSignaled, coord.state, [], [])
    }

    function Config(): RecvConfig {
      RecvConfig(Written, assembler.maxRetransmissionBufferSize, coord.bulk)
    }

    method SignalEnd()
      modifies this`closedSignaled, coord, coord.commands
      ensures var st := SignalEof(Config(), old(Value()));
              && Value() == st.(commands := [])
              && coord.commands.open == old(coord.commands.open)
              && coord.commands.queue == old(coord.commands.queue) + if coord.commands.open then st.commands else []
    {
      if !closedSignaled {
        closedSignaled := true;
        coord.MarkReliableClosed();
      }
    }

    method TakePacket(p: Packet) returns (r: RecvResult)
      modifies assembler, coord, coord.commands
      ensures var (st, result) := OnPacket(Config(), old(Value()), p);
              && Value() == st.(commands := []) && r == result
              && coord.commands.open == old(coord.commands.open)
              && coord.commands.queue == old(coord.commands.queue) + if coord.commands.open then st.commands else []
    {
      hide AfterCall, Pushed, Drained, MissingFrom;
      var _ := assembler.Push(p);
      var missing := assembler.MissingSequenceNumbers();
      SendNack(missing);
      var packets := assembler.ReadOrdered();
      RecordNothing(coord.bulk, coord.state);
      if packets != [] {
        coord.RecordReliable(|packets|);
      }
      ghost var nack, credits := NackCommand(missing), AfterCall(coord.bulk, old(coord.state),
          Call.RecordReliable(|packets|)).1;
      assert old(coord.commands.queue) + nack + Announce(credits) == old(coord.commands.queue)
          + ([] + nack + Announce(credits));
      r := if packets == [] then Suspended else Chunks(packets);
    }

    method SendNack(missing: seq<u32>)
      modifies coord.commands
      ensures coord.commands.open == old(coord.commands.open)
      ensures coord.commands.queue
           == old(coord.commands.queue) + if coord.commands.open && missing != [] then [Nack(missing)] else []
    {
      if missing != [] {
        coord.commands.Send(Nack(missing));
      }
    }

    /** Everything up to the announced number has been handed out. */
    method AnswerEnd()
      requires EndReached(Value())
      modifies this, coord, coord.commands
      ensures var st := Finish(Config(), old(Value()));
              && Value() == st.(commands := [], replies := []) && replies == old(replies) + st.replies
              && coord.commands.open == old(coord.commands.open)
              && coord.commands.queue == old(coord.commands.queue) + if coord.commands.open then st.commands else []
    {
      hide SignalEof, AfterCall;
      EofFrame(Config(), Value());
      replies := replies + [pendingEnd.value.reply];
      pendingEnd := None;
      SignalEnd();
    }

    /** `recv`: loops until there is something to return or nothing left to wait for. */
    method Receive(events: seq<RecvEvent>) returns (r: RecvResult)
      modifies this, assembler, coord, coord.commands
      ensures var (st, result) := Recv(Config(), old(Value()), events);
              && Value() == st.(commands := [], replies := []) && r == result
              && replies == old(replies) + st.replies
              && coord.commands.open == old(coord.commands.open)
              && coord.commands.queue == old(coord.commands.queue) + if coord.commands.open then st.commands else []
    {
      hide AfterCall, Pushed, Drained, MissingFrom, OnPacket, SignalEof, Finish;
      ghost var sent: seq<SenderCommand> := [];
      var i := 0;
      while true
        invariant i <= |events|
        invariant Recv(Config(), old(Value()), events) == Recv(Config(), Value().(commands := sent), events[i..])
        invariant replies == old(replies)
        invariant coord.commands.open == old(coord.commands.open)
        invariant coord.commands.queue == old(coord.commands.queue) + if coord.commands.open then sent else []
        decreases |events| - i
      {
        ghost var before := Value();
        SentFirst(Config(), before, sent);
        if pendingEnd.Some? && assembler.cursor > pendingEnd.value.finalSequenceNumber {
          AnswerEnd();
          return Eof;
        }
        if i == |events| {
          return Suspended;
        }
        assert events[i..][1..] == events[i + 1..];
        match events[i] {
          case EndNotified =>
            SignalEnd();
            return Eof;
          case ChannelClosed =>
            SignalEnd();
            return Eof;
          case EndTransfer(request) =>
            pendingEnd := Some(request);
          case Arrived(p) =>
            r := TakePacket(p);
            if r.Chunks? {
              return;
            }
            sent := sent + OnPacket(Config(), before, p).0.commands;
        }
        i := i + 1;
      }
    }
  }

  lemma RecordNothing(bulk: nat, c: Coord)
    ensures AfterCall(bulk, c, RecordReliable(0)) == (c, 0)
  {
  }

  /** What signalling the end does not depend on, and does not touch. */
  lemma EofFrame(cfg: RecvConfig, st: RecvState)
    requires st.commands == [] && st.replies == []
    ensures forall replies ::
              SignalEof(cfg, st.(pendingEnd := None, replies := replies))
              == SignalEof(cfg, st.(pendingEnd := None)).(replies := replies)
    ensures SignalEof(cfg, st).replies == []
  {
    hide AfterCall;
  }

  /** Commands sent by earlier turns of the loop stay in front. */
  lemma SentFirst(cfg: RecvConfig, st: RecvState, sent: seq<SenderCommand>)
    requires st.commands == []
    ensures SignalEof(cfg, st.(commands := sent)) == SignalEof(cfg, st).(commands := sent + SignalEof(cfg, st).commands)
    ensures SignalEof(cfg, st).replies == st.replies
    ensures EndReached(st) ==>
              Finish(cfg, st.(commands := sent)) == Finish(cfg, st).(commands := sent + Finish(cfg, st).commands)
    ensures forall p ::
      OnPacket(cfg, st.(commands := sent), p)
      == (OnPacket(cfg, st, p).0.(commands := sent + OnPacket(cfg, st, p).0.commands), OnPacket(cfg, st, p).1)
  {
    hide AfterCall, Pushed, Drained, MissingFrom;
    assert sent + [] == sent;
    forall p
      ensures OnPacket(cfg, st.(commands := sent), p)
           == (OnPacket(cfg, st, p).0.(commands := sent + OnPacket(cfg, st, p).0.commands), OnPacket(cfg, st, p).1)
    {
      var nack := NackCommand(MissingFrom(Pushed(cfg.variant, cfg.cap, st.deque, p), 0));
      var (deque, packets) := Drained(Pushed(cfg.variant, cfg.cap, st.deque, p));
      var credits := AfterCall(cfg.bulk, st.coord, Call.RecordReliable(|packets|)).1;
      assert sent + nack + Announce(credits) == sent + ([] + nack + Announce(credits));
    }
  }

  // ---------------------------------------------------------------- the unreliable sink

  class TransferUnreliableRecvStream {
    const coord: CreditCoordinator
    /** The channel from the reassembly task, and whether its sending side is gone. */
    var queue: seq<Packet>
    var channelClosed: bool
    var isEnd: bool
    var closedSignaled: bool

    constructor (coord: CreditCoordinator)
      ensures this.coord == coord
      ensures queue == [] && !channelClosed && !isEnd && !closedSignaled
    {
      this.coord := coord;
      queue, channelClosed, isEnd, closedSignaled := [], false, false, false;
    }

    /** One poll of `recv`.  `notified` is whether the end notification fires first.
        Nothing queued is ever dropped: end of file is reported only on an empty queue, and every packet
        handed out counts as one drained. */
    method Receive(notified: bool) returns (r: RecvResult)
      modifies this, coord, coord.commands
      ensures channelClosed == old(channelClosed) && isEnd == old(isEnd)
      ensures r == if old(queue) != [] then Chunks(old(queue)[..1]) else if isEnd || channelClosed then Eof else Suspended
      ensures queue == if r.Chunks? then old(queue)[1..] else old(queue)
      ensures closedSignaled == (old(closedSignaled) || r == Eof)
      ensures match r
              case Chunks(ps) => coord.Did(Call.RecordUnreliable(|ps|))
              case Eof => if old(closedSignaled) then unchanged(coord, coord.commands) else coord.Did(CloseUnreliable)
              case Suspended => unchanged(coord, coord.commands)
    {
      var pendingNotification := notified;
      while true
        invariant unchanged(this, coord, coord.commands)
        decreases pendingNotification
      {
        if isEnd && queue == [] {
          SignalEnd();
          return Eof;
        }
        if !pendingNotification {
          break;
        }
        pendingNotification := false;
      }
      if queue != [] {
        var p := queue[0];
        queue := queue[1..];
        coord.RecordUnreliable(1);
        return Chunks([p]);
      }
      if channelClosed {
        SignalEnd();
        return Eof;
      }
      r := Suspended;
    }

    method SignalEnd()
      modifies this`closedSignaled, coord, coord.commands
      ensures closedSignaled
      ensures if old(closedSignaled) then unchanged(coord, coord.commands) else coord.Did(CloseUnreliable)
    {
      if !closedSignaled {
        closedSignaled := true;
        coord.MarkUnreliableClosed();
      }
    }
  }

  // ---------------------------------------------------------------- what the reliable sink asks for

  /** The sink's treatment of packets one after the other. */
  function TakeAll(cfg: RecvConfig, st: RecvState, ps: seq<Packet>): RecvState {
    if ps == [] then st else OnPacket(cfg, TakeAll(cfg, st, ps[..|ps| - 1]), ps[|ps| - 1]).0
  }

  /** What that does to the deque: each packet is pushed, then read. */
  function OpsOf(ps: seq<Packet>): seq<Op> {
    if ps == [] then [] else OpsOf(ps[..|ps| - 1]) + Arrive(ps[|ps| - 1])
  }

  lemma {:induction false} TakeAllDeque(cfg: RecvConfig, st: RecvState, ps: seq<Packet>)
    requires st.deque == EmptyDeque
    ensures TakeAll(cfg, st, ps).deque == Run(cfg.variant, cfg.cap, EmptyDeque, OpsOf(ps)).0
  {
    hide Pushed, Drained, AfterCall, MissingFrom, NackCommand, Announce;
    if ps != [] {
      var rest, p := ps[..|ps| - 1], ps[|ps| - 1];
      TakeAllDeque(cfg, st, rest);
      RunAppend(cfg.variant, cfg.cap, EmptyDeque, OpsOf(rest), Arrive(p));
      RunArrive(cfg.variant, cfg.cap, Run(cfg.variant, cfg.cap, EmptyDeque, OpsOf(rest)).0, p);
      hide Run, Arrive;
    }
  }

  /** The commands ask once for exactly the numbers from `cursor` on that a higher received one overtook,
      in increasing order, and for nothing if there are none. */
  ghost predicate Asks(commands: seq<SenderCommand>, cursor: nat, received: set<u32>) {
    && ((exists i :: 0 <= i < |commands| && commands[i].Nack?) <==> exists n: int :: cursor <= n && Overtaken(n, received))
    && (forall i :: 0 <= i < |commands| && commands[i].Nack? ==>
          && i == 0 && Increasing(commands[i].sequenceNumbers)
          && forall n: int :: n in commands[i].sequenceNumbers <==> cursor <= n && Overtaken(n, received))
  }

  lemma AsksForMissing(m: seq<u32>, credits: nat, cursor: nat, received: set<u32>)
    requires Increasing(m) && forall n: int :: n in m <==> cursor <= n && Overtaken(n, received)
    ensures Asks(NackCommand(m) + Announce(credits), cursor, received)
  {
    hide Overtaken, Increasing;
    var out := NackCommand(m) + Announce(credits);
    if m != [] {
      assert out[0] == Nack(m) && m[0] in m;
    }
  }

  /** The holes of a deque that holds exactly the received numbers. */
  lemma MissingIsOvertaken(d: Deque, received: set<u32>)
    requires Tidy(d) && Tracks(d, received) && d.cursor + |d.slots| < TWO32
    ensures Increasing(MissingFrom(d, 0))
    ensures forall n: int :: n in MissingFrom(d, 0) <==> d.cursor <= n && Overtaken(n, received)
  {
    MissingFromLists(d, 0);
    hide Tidy, Tracks, MissingFrom, Increasing;
    forall n: int
      ensures n in MissingFrom(d, 0) <==> d.cursor <= n && Overtaken(n, received)
    {
      HolesAreOvertaken(d, received, n);
    }
  }

  /** A packet that does not complete the transfer is all that one call deals with. */
  lemma OnlyPacket(cfg: RecvConfig, st: RecvState, p: Packet)
    requires !EndReached(st) && Pushed(cfg.variant, cfg.cap, st.deque, p).cursor == st.deque.cursor
    ensures Recv(cfg, st, [Arrived(p)]).0.commands == OnPacket(cfg, st, p).0.commands
  {
    DrainedIs(Pushed(cfg.variant, cfg.cap, st.deque, p));
    hide Pushed, Drained, AfterCall, MissingFrom, NackCommand, Announce;
    assert [Arrived(p)][1..] == [];
  }

  /** What the sink asks for on one packet, `received` being the numbers it has stored by then. */
  lemma PacketAsks(cfg: RecvConfig, st: RecvState, p: Packet, received: set<u32>)
    requires st.commands == []
    requires var pushed := Pushed(cfg.variant, cfg.cap, st.deque, p);
             Tidy(pushed) && Tracks(pushed, received) && pushed.cursor + |pushed.slots| < TWO32 && pushed.cursor == st.deque.cursor
    ensures Asks(OnPacket(cfg, st, p).0.commands, st.deque.cursor, received)
    ensures !EndReached(st) ==> Asks(Recv(cfg, st, [Arrived(p)]).0.commands, st.deque.cursor, received)
  {
    hide Pushed, Drained, MissingFrom, Tracks, Tidy, Recv, AfterCall, Asks, Increasing, Overtaken, NackCommand, Announce, EndReached;
    var pushed := Pushed(cfg.variant, cfg.cap, st.deque, p);
    var m := MissingFrom(pushed, 0);
    var credits := AfterCall(cfg.bulk, st.coord, Call.RecordReliable(|Drained(pushed).1|)).1;
    MissingIsOvertaken(pushed, received);
    AsksForMissing(m, credits, st.deque.cursor, received);
    assert [] + NackCommand(m) + Announce(credits) == NackCommand(m) + Announce(credits);
    if !EndReached(st) {
      OnlyPacket(cfg, st, p);
    }
  }

  /** The reliable sink asks for what is missing: after any guarded run of arrivals, the call on the next
      packet sends a NACK if and only if, once that packet is stored and before the read, some number from
      the cursor on has been overtaken, and the NACK lists exactly those. */
  lemma SinkAsksForTheOvertaken(cfg: RecvConfig, st: RecvState, ps: seq<Packet>, p: Packet, sent: seq<Packet>)
    requires Numbered(sent) && st.deque == EmptyDeque
    requires Guarded(cfg.variant, cfg.cap, OpsOf(ps) + [PushOp(p)], sent)
    ensures var s := TakeAll(cfg, st, ps).(commands := []);
            var received := Received(cfg.variant, cfg.cap, OpsOf(ps) + [PushOp(p)]);
            && Asks(OnPacket(cfg, s, p).0.commands, s.deque.cursor, received)
            && (!EndReached(s) ==> Asks(Recv(cfg, s, [Arrived(p)]).0.commands, s.deque.cursor, received))
  {
    var s := TakeAll(cfg, st, ps).(commands := []);
    var ops := OpsOf(ps) + [PushOp(p)];
    hide Pushed, Tracks, Guarded, Received, OnPacket, Recv, Asks, EndReached, Arrive, OpsOf, TakeAll;
    TakeAllDeque(cfg, st, ps);
    RunSnoc(cfg.variant, cfg.cap, EmptyDeque, OpsOf(ps), PushOp(p));
    RunTracks(cfg.variant, cfg.cap, ops, sent);
    RunIsGood(cfg.variant, cfg.cap, ops, sent);
    var (d, out) := Run(cfg.variant, cfg.cap, EmptyDeque, ops);
    hide Run;
    GoodIsBounded(d, out, sent);
    PushLeavesCursor(cfg.variant, cfg.cap, s.deque, p);
    GoodIsTidy(d, out, sent);
    hide Good, Numbered, Tidy;
    PacketAsks(cfg, s, p, Received(cfg.variant, cfg.cap, ops));
  }

  lemma PushLeavesCursor(v: Variant, cap: nat, d: Deque, p: Packet)
    ensures Pushed(v, cap, d, p).cursor == d.cursor
  {
  }

  lemma GoodIsTidy(d: Deque, out: seq<Packet>, sent: seq<Packet>)
    requires Numbered(sent) && Good(d, out, sent)
    ensures Tidy(d) && d.cursor + |d.slots| < TWO32
  {
    GoodIsBounded(d, out, sent);
  }

  // ---------------------------------------------------------------- how a call of `recv` ends

  /** What each result of `recv` says: end of file only after everything notified, with the sink closed for
      the coordinator; packets only if there are some; suspension only if no end was signalled. */
  lemma {:induction false} RecvOutcome(cfg: RecvConfig, st: RecvState, events: seq<RecvEvent>)
    ensures var (after, r) := Recv(cfg, st, events);
            && (r.Suspended? ==> !EndReached(after) && EndNotified !in events && ChannelClosed !in events)
            && (r.Chunks? ==> r.packets != [])
            && (r.Eof? ==> after.closedSignaled && (st.closedSignaled || after.coord.reliableClosed))
            && (!r.Eof? ==> after.closedSignaled == st.closedSignaled && after.replies == st.replies)
    decreases |events|
  {
    hide AfterCall, Pushed, Drained, MissingFrom, NackCommand, Announce;
    CloseCloses(cfg.bulk, st.coord);
    if !EndReached(st) && events != [] {
      match events[0]
      case EndTransfer(request) => RecvOutcome(cfg, st.(pendingEnd := Some(request)), events[1..]);
      case Arrived(p) => RecvOutcome(cfg, OnPacket(cfg, st, p).0, events[1..]);
      case _ =>
    }
  }

  lemma CloseCloses(bulk: nat, c: Coord)
    ensures AfterCall(bulk, c, CloseReliable).0.reliableClosed
  {
  }

  /** One event that does not end the call: an end request is kept until its number is reached, the last one
      counting; a packet is stored and read. */
  function Taken(cfg: RecvConfig, st: RecvState, e: RecvEvent): RecvState {
    match e
    case EndTransfer(request) => st.(pendingEnd := Some(request))
    case Arrived(p) => OnPacket(cfg, st, p).0
    case _ => st
  }

  function TakenAll(cfg: RecvConfig, st: RecvState, events: seq<RecvEvent>): RecvState {
    if events == [] then st else Taken(cfg, TakenAll(cfg, st, events[..|events| - 1]), events[|events| - 1])
  }

  /** The first `n` events are dealt with and do not end the call. */
  ghost predicate GoesOn(cfg: RecvConfig, st: RecvState, events: seq<RecvEvent>, n: nat)
    requires n <= |events|
  {
    forall i :: 0 <= i < n ==>
      && !EndReached(TakenAll(cfg, st, events[..i]))
      && match events[i]
         case EndTransfer(_) => true
         case Arrived(p) => OnPacket(cfg, TakenAll(cfg, st, events[..i]), p).1.Suspended?
         case _ => false
  }

  /** A call of `recv` deals with event after event, none left out, until the pending end request is reached,
      packets can be handed out, an end is notified, or no event is left. */
  lemma {:induction false} RecvIsSteps(cfg: RecvConfig, st: RecvState, events: seq<RecvEvent>) returns (n: nat)
    ensures n <= |events| && GoesOn(cfg, st, events, n)
    ensures var mid := TakenAll(cfg, st, events[..n]);
            if EndReached(mid) then Recv(cfg, st, events) == (Finish(cfg, mid), Eof)
            else if n == |events| then Recv(cfg, st, events) == (mid, Suspended)
            else match events[n]
              case EndTransfer(_) => false
              case Arrived(p) => OnPacket(cfg, mid, p).1.Chunks? && Recv(cfg, st, events) == OnPacket(cfg, mid, p)
              case _ => Recv(cfg, st, events) == (SignalEof(cfg, mid), Eof)
    decreases |events|
  {
    hide OnPacket, Finish, SignalEof, EndReached, GoesOn, TakenAll;
    n := 0;
    NoneTaken(cfg, st, events);
    if !EndReached(st) && events != [] {
      var next := Taken(cfg, st, events[0]);
      var goesOn := events[0].EndTransfer? || (events[0].Arrived? && OnPacket(cfg, st, events[0].packet).1.Suspended?);
      if goesOn {
        var more := RecvIsSteps(cfg, next, events[1..]);
        n := more + 1;
        FirstTaken(cfg, st, events, more);
      } else {
        PacketOutcome(cfg, st, events[0]);
      }
    }
  }

  lemma PacketOutcome(cfg: RecvConfig, st: RecvState, e: RecvEvent)
    ensures e.Arrived? ==> OnPacket(cfg, st, e.packet).1.Suspended? || OnPacket(cfg, st, e.packet).1.Chunks?
  {
    hide Pushed, Drained, AfterCall, MissingFrom, NackCommand, Announce;
  }

  lemma NoneTaken(cfg: RecvConfig, st: RecvState, events: seq<RecvEvent>)
    ensures TakenAll(cfg, st, events[..0]) == st && GoesOn(cfg, st, events, 0)
  {
  }

  lemma {:induction false} TakenHead(cfg: RecvConfig, st: RecvState, events: seq<RecvEvent>, k: nat)
    requires k < |events|
    ensures TakenAll(cfg, st, events[..k + 1]) == TakenAll(cfg, Taken(cfg, st, events[0]), events[1..][..k])
  {
    hide Taken;
    if k == 0 {
      assert events[..1][..0] == [];
    } else {
      TakenHead(cfg, st, events, k - 1);
      assert events[..k + 1][..k] == events[..k];
      assert events[1..][..k][..k - 1] == events[1..][..k - 1];
    }
  }

  lemma FirstTaken(cfg: RecvConfig, st: RecvState, events: seq<RecvEvent>, more: nat)
    requires events != [] && more <= |events| - 1 && !EndReached(st)
    requires events[0].EndTransfer? || (events[0].Arrived? && OnPacket(cfg, st, events[0].packet).1.Suspended?)
    requires GoesOn(cfg, Taken(cfg, st, events[0]), events[1..], more)
    ensures GoesOn(cfg, st, events, more + 1)
    ensures TakenAll(cfg, st, events[..more + 1]) == TakenAll(cfg, Taken(cfg, st, events[0]), events[1..][..more])
  {
    hide OnPacket, EndReached, Taken, TakenAll;
    TakenHead(cfg, st, events, more);
    NoneTaken(cfg, st, events);
    forall i | 0 <= i < more + 1
      ensures !EndReached(TakenAll(cfg, st, events[..i]))
      ensures match events[i]
              case EndTransfer(_) => true
              case Arrived(p) => OnPacket(cfg, TakenAll(cfg, st, events[..i]), p).1.Suspended?
              case _ => false
    {
      if i > 0 {
        TakenHead(cfg, st, events, i - 1);
        assert events[1..][i - 1] == events[i];
      }
    }
  }
}
