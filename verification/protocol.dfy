/** One Dual transfer end to end: sender, lossy datagram path, control stream, reassembly, reliable and
    unreliable sink, credit loop and both stream tasks, as a step system. */
module Protocol {
  import opened Types
  import opened Messages
  import opened Backpressure
  import opened Sending
  import opened Reassembly
  import opened Assembly
  import opened Receiving
  import opened StreamTask

  datatype Config = Config(
    id: u64,
    limit: Option<nat>,
    compress: bytes -> bytes,
    decompress: bytes -> bytes,
    /** Size of the sender's retransmission map, and of the sink's reorder deque. */
    max: nat,
    cap: nat,
    groupCap: nat,
    initialCredits: nat,
    senderBulk: nat,
    bulk: nat,
    variant: Variant)

  ghost predicate ValidConfig(cfg: Config) {
    1 <= cfg.max < TWO32 && forall x :: cfg.decompress(cfg.compress(x)) == x
  }

  /** A chunk handed to `send`: what the application gave, and how it travels. */
  datatype Item = Item(content: bytes, chunk: Chunk)

  datatype Sys = Sys(
    /** Chunks whose `send` was started; the first `done` of them were sent. */
    items: seq<Item>,
    done: nat,
    snd: SendState,
    failed: bool,
    debited: nat,
    senderTask: Task,
    /** How many chunks the announced end covers: those sent when `end` was called, or those up to the
        number given to `end_transfer`; whether it has been acknowledged. */
    ended: Option<nat>,
    acked: bool,
    /** Every datagram that ever reached the network. */
    pool: set<Packet>,
    toReceiver: seq<ManiMessage>,
    toSender: seq<ManiMessage>,
    datagrams: seq<Packet>,
    groups: Groups,
    reliableQueue: seq<Packet>,
    unreliableQueue: seq<Packet>,
    deque: Deque,
    pendingEnd: Option<EndRequest>,
    closedSignaled: bool,
    reliableDropped: bool,
    /** What the two sinks have handed to the application. */
    delivered: seq<Packet>,
    shown: seq<Packet>,
    coord: Coord,
    commands: seq<SenderCommand>,
    /** End requests on their way to the sink, and answered ones on their way back. */
    endRequests: seq<EndRequest>,
    answered: nat,
    receiverTask: Task,
    /** Credits granted on request, and credits lost with a failed task. */
    solicited: nat,
    lost: nat)

  /** The state once TransferStart has been processed on both sides. */
  function Init(cfg: Config): Sys {
    Sys([], 0, SendState(0, None, cfg.initialCredits, false, map[]), false, 0,
        NewTask.(role := SenderRole(None)), None, false,
        {}, [], [], [], map[], [], [],
        EmptyDeque, None, false, false, [], [],
        NewCoord(true), [], [], 0,
        NewTask.(role := ReceiverRole(true, 0)), 0, 0)
  }

  /** `Init` is where the start of a transfer leads: `StartTransfer` in Dual mode from number 0 on a new
      task, and its message on the peer's, whatever the compression and the announced size. */
  lemma InitIsStarted(cfg: Config, entries: Entries, compression: CompressionType, size: Option<u64>, env: Env, there: Env)
    requires env.writes >= 1 && there.receiverThere
    ensures var (t, fx) := TakeStep(TaskConfig(cfg.id, cfg.senderBulk), entries, NewTask, StartTransfer(Dual, compression, 0, size), env);
            && t == Init(cfg).senderTask && |fx.written| == 1
            && fx.written[0].TransferStart? && fx.written[0].mode == Dual
            && TakeStep(TaskConfig(cfg.id, cfg.bulk), map[], NewTask, FromPeer(fx.written[0]), there)
               == (Init(cfg).receiverTask, Nothing)
  {
  }

  function CoordBulk(cfg: Config): nat {
    if cfg.bulk == 0 then 1 else cfg.bulk
  }

  datatype Action =
    | StartSend(timestamp: u64, content: bytes)
    | PollTheSend(accepted: nat)
    | EndTheTransfer(env: Env)
    | HandleEndsTheTransfer(final: u32, env: Env)
    | SenderTask(event: Event, env: Env)
    | SenderReads(env: Env)
    | SenderShutsDown
    | Deliver(packet: Packet)
    | Reassemble
    | SinkReads
    | SinkTakesEnd
    | SinkFinishes
    | SinkEof
    | SinkDropped
    | SinkCloses
    | UnreliableReads
    | UnreliableDrains
    | UnreliableCloses
    | ReceiverTask(event: Event, env: Env)
    | ReceiverSends(env: Env)
    | ReceiverReads(env: Env)
    | ReceiverAcks(env: Env)

  // ---------------------------------------------------------------- steps

  function Frames(cfg: Config): SendConfig {
    SendConfig(true, cfg.max)
  }

  function StartItem(cfg: Config, s: Sys, ts: u64, content: bytes): Sys
    requires s.done < TWO32 && Sendable(cfg.limit, cfg.compress(content))
  {
    var data := cfg.compress(content);
    s.(items := s.items + [Item(content, Cut(cfg.limit, ts, data))],
       snd := s.snd.(inFlight := Some(InFlight(PacketsFor(cfg.id, cfg.limit, s.done, ts, data), 0))))
  }

  function Polled(cfg: Config, s: Sys, accepted: nat): Sys
    requires s.snd.inFlight.Some? && s.snd.inFlight.value.acquired < |s.snd.inFlight.value.packets|
  {
    var (snd, poll, out) := PollSend(Frames(cfg), s.snd, accepted);
    s.(snd := snd,
       debited := s.debited + SaturatingSub(s.snd.permits, snd.permits),
       pool := s.pool + (set p | p in out),
       done := if poll == Ready(true) then s.done + 1 else s.done,
       failed := s.failed || poll == Ready(false))
  }

  /** The sender's task has handled an event with these effects. */
  function SenderShows(s: Sys, t: Task, fx: Effects): Sys {
    s.(senderTask := t, toReceiver := s.toReceiver + fx.written,
       snd := s.snd.(permits := s.snd.permits + fx.credits),
       acked := s.acked || fx.fired.Some?)
  }

  function ReceiverShows(s: Sys, t: Task, fx: Effects): Sys {
    s.(receiverTask := t, toSender := s.toSender + fx.written,
       endRequests := s.endRequests + (if fx.forwarded.Some? then [EndRequest(fx.forwarded.value, 0)] else []),
       datagrams := s.datagrams + OptionSeq(fx.injected))
  }

  /** What the receiver's task did, with the queues it took from. */
  function ReceiverNext(s: Sys, t: Task, fx: Effects, commands: seq<SenderCommand>, lost: nat, rest: seq<ManiMessage>,
                        solicited: nat, answered: nat): Sys {
    ReceiverShows(s, t, fx).(commands := commands, lost := lost, toReceiver := rest, solicited := solicited,
        answered := answered)
  }

  function CreditsInFrames(frames: seq<ManiMessage>): nat {
    if frames == [] then 0 else
    CreditsInFrames(frames[..|frames| - 1])
        + (if frames[|frames| - 1].CreditsUpdate? then frames[|frames| - 1].additionalCredits else 0)
  }

  function CreditsInCommands(commands: seq<SenderCommand>): nat {
    if commands == [] then 0 else
    CreditsInCommands(commands[..|commands| - 1])
      + (if commands[|commands| - 1].UpdateCredits? then commands[|commands| - 1].additionalCredits else 0)
  }

  /** Commands reach the receiver's task while it runs, and are lost afterwards. */
  function Commanded(s: Sys, commands: seq<SenderCommand>): Sys {
    if s.receiverTask.status.Running? then s.(commands := s.commands + commands)
    else s.(lost := s.lost + CreditsInCommands(commands))
  }

  function RecvStateOf(s: Sys): RecvState {
    RecvState(s.deque, s.pendingEnd, s.closedSignaled, s.coord, [], [])
  }

  function RecvConfigOf(cfg: Config): RecvConfig {
    RecvConfig(cfg.variant, cfg.cap, CoordBulk(cfg))
  }

  function AfterRecv(s: Sys, r: RecvState): Sys {
    Commanded(s, r.commands).(deque := r.deque, pendingEnd := r.pendingEnd, closedSignaled := r.closedSignaled,
                              coord := r.coord, answered := s.answered + |r.replies|)
  }

  function AfterCoord(cfg: Config, s: Sys, call: Call): Sys {
    var (c, credits) := AfterCall(CoordBulk(cfg), s.coord, call);
    Commanded(s, Announce(credits)).(coord := c)
  }

  /** Events of the two tasks that come neither from the peer nor from inside the pipeline. */
  predicate Local(ev: Event) {
    ev.HandleGone? || ev.SendPayload? || ev.PeerClosed? || ev.Tick?
  }

  ghost predicate Can(cfg: Config, s: Sys, a: Action) {
    match a
    case StartSend(ts, content) =>
      && s.snd.inFlight == None && !s.failed && |s.items| + 1 < TWO32 && s.done < TWO32
      && Sendable(cfg.limit, cfg.compress(content))
      && |PacketsFor(cfg.id, cfg.limit, s.done, ts, cfg.compress(content))| < TWO16
    case PollTheSend(_) => s.snd.inFlight.Some? && s.snd.inFlight.value.acquired < |s.snd.inFlight.value.packets|
    case EndTheTransfer(_) => s.ended == None && s.snd.inFlight == None && s.senderTask.status.Running?
    case HandleEndsTheTransfer(final, _) => s.ended == None && Enabled(s.senderTask, HandleEnds(final, 0))
    case SenderTask(ev, _) => Local(ev) && Enabled(s.senderTask, ev)
    case SenderReads(_) => s.toSender != [] && s.senderTask.status.Running?
    case SenderShutsDown => !s.senderTask.status.Running?
    case Deliver(p) => p in s.pool
    case Reassemble => s.datagrams != []
    case SinkReads => s.reliableQueue != [] && (s.reliableDropped || !EndReached(RecvStateOf(s)))
    case SinkTakesEnd => s.endRequests != [] && !s.reliableDropped && !EndReached(RecvStateOf(s))
    case SinkFinishes => EndReached(RecvStateOf(s)) && !s.reliableDropped
    case SinkEof => !s.reliableDropped
    case SinkDropped => true
    case SinkCloses => s.reliableDropped && !s.closedSignaled
    case UnreliableReads => s.unreliableQueue != []
    case UnreliableDrains => s.unreliableQueue != []
    case UnreliableCloses => true
    case ReceiverTask(ev, _) => Local(ev) && Enabled(s.receiverTask, ev)
    case ReceiverSends(_) => s.commands != [] && s.receiverTask.status.Running?
    case ReceiverReads(_) => s.toReceiver != [] && s.receiverTask.status.Running?
    case ReceiverAcks(_) => s.answered > 0 && s.receiverTask.status.Running?
  }

  /** The app-side packet of a reassembled chunk. */
  function Opened(cfg: Config, p: Packet): Packet {
    p.(content := cfg.decompress(p.content))
  }

  function Reassembled(s: Sys, groups: Groups, whole: seq<Packet>): Sys
    requires s.datagrams != []
  {
    s.(datagrams := s.datagrams[1..], groups := groups,
       reliableQueue := s.reliableQueue + whole, unreliableQueue := s.unreliableQueue + whole)
  }

  /** The reliable sink takes one packet off its queue. */
  function SinkRead(cfg: Config, s: Sys): Sys
    requires s.reliableQueue != []
  {
    var (r, result) := OnPacket(RecvConfigOf(cfg), RecvStateOf(s), s.reliableQueue[0]);
    AfterRecv(s, r).(reliableQueue := s.reliableQueue[1..],
                     delivered := s.delivered + if result.Chunks? then result.packets else [])
  }

  ghost function After(cfg: Config, s: Sys, a: Action): Sys
    requires Can(cfg, s, a)
  {
    match a
    case StartSend(ts, content) => StartItem(cfg, s, ts, content)
    case PollTheSend(accepted) => Polled(cfg, s, accepted)
    case EndTheTransfer(env) =>
      var final := FinalSequenceNumber(s.snd.counter);
      var (t, fx) := TakeStep(TaskConfig(cfg.id, cfg.senderBulk), s.snd.entries, s.senderTask, StreamEnds(final, 0), env);
      SenderShows(s, t, fx).(ended := Some(s.done))
    case HandleEndsTheTransfer(final, env) =>
      var (t, fx) := TakeStep(TaskConfig(cfg.id, cfg.senderBulk), s.snd.entries, s.senderTask, HandleEnds(final, 0), env);
      SenderShows(s, t, fx).(ended := Some(WrapAdd(final, 1)))
    case SenderTask(ev, env) =>
      var (t, fx) := TakeStep(TaskConfig(cfg.id, cfg.senderBulk), s.snd.entries, s.senderTask, ev, env);
      SenderShows(s, t, fx)
    case SenderReads(env) =>
      var (t, fx) := TakeStep(TaskConfig(cfg.id, cfg.senderBulk), s.snd.entries, s.senderTask, FromPeer(s.toSender[0]), env);
      SenderShows(s, t, fx).(toSender := s.toSender[1..])
    case SenderShutsDown => s.(snd := s.snd.(closed := true))
    case Deliver(p) => s.(datagrams := s.datagrams + [p])
    case Reassemble =>
      var (groups, out) := Receive(cfg.groupCap, s.groups, s.datagrams[0]);
      Reassembled(s, groups, if out.Some? then [Opened(cfg, out.value)] else [])
    case SinkReads => if s.reliableDropped then s.(reliableQueue := s.reliableQueue[1..]) else SinkRead(cfg, s)
    case SinkTakesEnd => s.(pendingEnd := Some(s.endRequests[0]), endRequests := s.endRequests[1..])
    case SinkFinishes => AfterRecv(s, Finish(RecvConfigOf(cfg), RecvStateOf(s)))
    case SinkEof => AfterRecv(s, SignalEof(RecvConfigOf(cfg), RecvStateOf(s)))
    case SinkDropped => s.(reliableDropped := true)
    case SinkCloses => AfterCoord(cfg, s, CloseReliable).(closedSignaled := true)
    case UnreliableReads =>
      AfterCoord(cfg, s, RecordUnreliable(1)).(shown := s.shown + [s.unreliableQueue[0]],
          unreliableQueue := s.unreliableQueue[1..])
    case UnreliableDrains => s.(unreliableQueue := s.unreliableQueue[1..])
    case UnreliableCloses => AfterCoord(cfg, s, CloseUnreliable)
    case ReceiverTask(ev, env) =>
      var (t, fx) := TakeStep(TaskConfig(cfg.id, cfg.bulk), map[], s.receiverTask, ev, env);
      ReceiverNext(s, t, fx, s.commands, s.lost, s.toReceiver, s.solicited, s.answered)
    case ReceiverSends(env) =>
      var (t, fx) := TakeStep(TaskConfig(cfg.id, cfg.bulk), map[], s.receiverTask, FromSink(s.commands[0]), env);
      var lost := if fx.written == [] then CreditsInCommands(s.commands[..1]) else 0;
      ReceiverNext(s, t, fx, s.commands[1..], s.lost + lost, s.toReceiver, s.solicited, s.answered)
    case ReceiverReads(env) =>
      var (t, fx) := TakeStep(TaskConfig(cfg.id, cfg.bulk), map[], s.receiverTask, FromPeer(s.toReceiver[0]), env);
      ReceiverNext(s, t, fx, s.commands, s.lost, s.toReceiver[1..], s.solicited + CreditsInFrames(fx.written), s.answered)
    case ReceiverAcks(env) =>
      var (t, fx) := TakeStep(TaskConfig(cfg.id, cfg.bulk), map[], s.receiverTask, SendTransferEndAck, env);
      ReceiverNext(s, t, fx, s.commands, s.lost, s.toReceiver, s.solicited, s.answered - 1)
  }

  /** A run: the actions taken, and the states before, between and after them. */
  datatype Execution = Execution(states: seq<Sys>, actions: seq<Action>)

  ghost predicate StepAt(cfg: Config, x: Execution, i: nat)
    requires i < |x.actions| && |x.states| == |x.actions| + 1
  {
    Can(cfg, x.states[i], x.actions[i]) && x.states[i + 1] == After(cfg, x.states[i], x.actions[i])
  }

  /** Any possible actions, one after the other. */
  ghost predicate IsExecution(cfg: Config, x: Execution) {
    && |x.states| == |x.actions| + 1 && x.states[0] == Init(cfg)
    && forall i: nat {:trigger StepAt(cfg, x, i)} :: i < |x.actions| ==> StepAt(cfg, x, i)
  }

  // ---------------------------------------------------------------- invariants

  /** The datagrams of chunk number `s`. */
  function PartsList(id: u64, s: u32, c: Chunk): (ps: seq<Packet>)
    ensures |ps| == PartCount(c)
  {
    seq(PartCount(c), i requires 0 <= i < PartCount(c) => Part(id, s, c, i))
  }

  function Sends(cfg: Config, items: seq<Item>, done: nat): (r: seq<seq<Packet>>)
    requires done <= |items| && done < TWO32
    ensures |r| == done
  {
    seq(done, i requires 0 <= i < done => PartsList(cfg.id, i, items[i].chunk))
  }

  function ChunksOf(items: seq<Item>): (cs: seq<Chunk>)
    ensures |cs| == |items|
  {
    seq(|items|, i requires 0 <= i < |items| => items[i].chunk)
  }

  function Src(cfg: Config, items: seq<Item>): Source {
    Source(cfg.id, ChunksOf(items))
  }

  /** What the application sent, in order: the first `done` chunks. */
  function Outs(cfg: Config, items: seq<Item>, done: nat): (r: seq<Packet>)
    requires done <= |items| && done < TWO32
    ensures |r| == done
  {
    seq(done, i requires 0 <= i < done => Packet(cfg.id, i, items[i].chunk.timestamp, items[i].content))
  }

  /** Datagrams of the first `n` chunks. */
  function Total(items: seq<Item>, n: nat): nat
    requires n <= |items|
  {
    if n == 0 then 0 else Total(items, n - 1) + PartCount(items[n - 1].chunk)
  }

  ghost predicate ItemOk(cfg: Config, it: Item) {
    ValidChunk(it.chunk) && cfg.decompress(it.chunk.data) == it.content
  }

  ghost predicate Bounded(items: seq<Item>, done: nat) {
    done <= |items| <= done + 1 && |items| < TWO32
  }

  ghost predicate FlightOk(cfg: Config, items: seq<Item>, done: nat, snd: SendState, failed: bool, debited: nat)
    requires Bounded(items, done)
  {
    && (snd.inFlight.Some? ==>
          && |items| == done + 1 && !failed
          && snd.inFlight.value.packets == PartsList(cfg.id, done, items[done].chunk)
          && snd.inFlight.value.acquired < |snd.inFlight.value.packets|)
    && (|items| == done + 1 ==> snd.inFlight.Some? || failed)
    && var taken := Total(items, done) + if snd.inFlight.Some? then snd.inFlight.value.acquired else 0;
       taken <= debited && (!failed ==> taken == debited)
  }

  ghost predicate SenderInv(cfg: Config, items: seq<Item>, done: nat, snd: SendState, failed: bool, debited: nat) {
    && Bounded(items, done)
    && (forall i :: 0 <= i < |items| ==> ItemOk(cfg, items[i]))
    && snd.counter == done
    && IsWindow(snd.entries, 0, cfg.max, Sends(cfg, items, done))
    && FlightOk(cfg, items, done, snd, failed, debited)
  }

  /** Everything on the network is a datagram of a started chunk; of finished chunks all, of an
      unfinished one never the last. */
  ghost predicate NetInv(cfg: Config, items: seq<Item>, done: nat, pool: set<Packet>)
    requires Bounded(items, done)
  {
    && (forall p :: p in pool ==> IsGenuine(Src(cfg, items), p))
    && (forall i, j :: 0 <= i < done && 0 <= j < PartCount(items[i].chunk) ==> Part(cfg.id, i, items[i].chunk, j) in pool)
    && (done < |items| ==> Part(cfg.id, done, items[done].chunk, PartCount(items[done].chunk) - 1) !in pool)
  }

  ghost predicate AllIn(ps: seq<Packet>, pool: set<Packet>) {
    forall i :: 0 <= i < |ps| ==> ps[i] in pool
  }

  ghost predicate RetransFrom(id: u64, frames: seq<ManiMessage>, pool: set<Packet>) {
    forall i :: 0 <= i < |frames| && frames[i].Retrans? ==>
      Packet(id, frames[i].sequenceNumber, frames[i].timestamp, frames[i].content) in pool
  }

  ghost predicate AllSent(ps: seq<Packet>, outs: seq<Packet>) {
    forall i :: 0 <= i < |ps| ==> Genuine(ps[i], outs)
  }

  ghost predicate SinkInv(cfg: Config, outs: seq<Packet>, deque: Deque, delivered: seq<Packet>, coord: Coord) {
    && Good(deque, delivered, outs)
    && CoordInv(CoordBulk(cfg), coord) && coord.hasReliable
    && coord.reliableDrained == |delivered|
  }

  ghost predicate Ledger(cfg: Config, permits: nat, debited: nat, toSender: seq<ManiMessage>, commands: seq<SenderCommand>,
                         lost: nat, lastEmitted: nat, solicited: nat) {
    permits + debited + CreditsInFrames(toSender) + CreditsInCommands(commands) + lost
      == cfg.initialCredits + lastEmitted + solicited
  }

  ghost predicate NacksSent(done: nat, commands: seq<SenderCommand>, toSender: seq<ManiMessage>) {
    && (forall i :: 0 <= i < |commands| && commands[i].Nack? ==> AllBelow(commands[i].sequenceNumbers, done))
    && (forall i :: 0 <= i < |toSender| && toSender[i].NackMessage? ==> AllBelow(toSender[i].sequenceNumbers, done))
  }

  ghost predicate AllBelow(numbers: seq<u32>, done: nat) {
    forall i :: 0 <= i < |numbers| ==> numbers[i] < done
  }

  /** The final sequence number announced after `n` chunks. */
  function FinalOf(n: nat): u32 {
    FinalSequenceNumber(n % TWO32)
  }

  /** Anything that says "acknowledged" is backed by what the sink has delivered. */
  ghost predicate EndInv(ended: Option<nat>, done: nat, toReceiver: seq<ManiMessage>, endRequests: seq<EndRequest>,
                         pendingEnd: Option<EndRequest>, answered: nat, toSender: seq<ManiMessage>, acked: bool,
                             delivered: nat) {
    && (ended.Some? ==> ended.value < TWO32) && done < TWO32
    && (forall i :: 0 <= i < |toReceiver| && toReceiver[i].TransferEnd? ==>
          ended.Some? && toReceiver[i].finalSequenceNumber == FinalOf(ended.value))
    && (forall i :: 0 <= i < |endRequests| ==> Announced(ended, endRequests[i].finalSequenceNumber))
    && (pendingEnd.Some? ==> Announced(ended, pendingEnd.value.finalSequenceNumber))
    && (answered > 0 || TransferEndAck in toSender || acked ==> ended.Some? && ended.value <= delivered)
  }

  ghost predicate Announced(ended: Option<nat>, final: u32) {
    ended.Some? && 0 < ended.value && final == ended.value - 1
  }

  /** Both sides keep the roles of the one transfer: no second TransferStart is on its way. */
  ghost predicate Roles(s: Sys) {
    && s.senderTask.role.SenderRole? && s.receiverTask.role == ReceiverRole(true, 0)
    && NoStart(s.toSender) && NoStart(s.toReceiver)
  }

  ghost predicate NoStart(frames: seq<ManiMessage>) {
    forall i :: 0 <= i < |frames| ==> !frames[i].TransferStart?
  }

  ghost predicate Inv(cfg: Config, s: Sys) {
    && SenderInv(cfg, s.items, s.done, s.snd, s.failed, s.debited)
    && NetInv(cfg, s.items, s.done, s.pool)
    && RetransFrom(cfg.id, s.toReceiver, s.pool)
    && AllIn(s.datagrams, s.pool)
    && GroupsFit(Src(cfg, s.items), s.pool, s.groups)
    && var outs := Outs(cfg, s.items, s.done);
    && AllSent(s.reliableQueue, outs) && AllSent(s.unreliableQueue, outs) && AllSent(s.shown, outs)
    && SinkInv(cfg, outs, s.deque, s.delivered, s.coord)
    && Ledger(cfg, s.snd.permits, s.debited, s.toSender, s.commands, s.lost, s.coord.lastEmitted, s.solicited)
    && NacksSent(s.done, s.commands, s.toSender)
    && EndInv(s.ended, s.done, s.toReceiver, s.endRequests, s.pendingEnd, s.answered, s.toSender, s.acked, |s.delivered|)
    && Roles(s)
  }

  /** Each read of the reliable sink meets the written assembler's guard. */
  ghost predicate ReadGuard(cfg: Config, s: Sys, a: Action) {
    a.SinkReads? && s.reliableQueue != [] && !s.reliableDropped ==>
      Guard(cfg.variant, cfg.cap, s.deque, s.reliableQueue[0].seqno)
  }

  ghost predicate GuardAt(cfg: Config, x: Execution, i: nat)
    requires i < |x.actions| && |x.states| == |x.actions| + 1
  {
    ReadGuard(cfg, x.states[i], x.actions[i])
  }

  /** Runs the assembler can take part in: all of them with the intended padding; with the written one
      those in which every read meets the guard. */
  ghost predicate Legal(cfg: Config, x: Execution) {
    && ValidConfig(cfg) && IsExecution(cfg, x)
    && (cfg.variant.Intended? || forall i: nat {:trigger GuardAt(cfg, x, i)} :: i < |x.actions| ==> GuardAt(cfg, x, i))
  }

  lemma InitInv(cfg: Config)
    requires ValidConfig(cfg)
    ensures Inv(cfg, Init(cfg))
  {
    EmptyWindow(0, cfg.max);
    hide IsWindow;
    assert Sends(cfg, [], 0) == [];
  }

  // ---------------------------------------------------------------- growth

  lemma SrcGrows(cfg: Config, items: seq<Item>, it: Item, pool: set<Packet>, groups: Groups)
    ensures forall p :: IsGenuine(Src(cfg, items), p) ==> IsGenuine(Src(cfg, items + [it]), p)
    ensures GroupsFit(Src(cfg, items), pool, groups) ==> GroupsFit(Src(cfg, items + [it]), pool, groups)
  {
    hide Part, FragsFit;
    var a, b := Src(cfg, items), Src(cfg, items + [it]);
    assert forall i :: 0 <= i < |items| ==> b.chunks[i] == a.chunks[i];
    forall p | IsGenuine(a, p)
      ensures IsGenuine(b, p)
    {
      var i: nat :| IsPart(a, p, i);
      assert IsPart(b, p, i);
    }
  }

  lemma PoolGrows(src: Source, pool: set<Packet>, more: set<Packet>, groups: Groups)
    requires GroupsFit(src, pool, groups) && pool <= more
    ensures GroupsFit(src, more, groups)
  {
    hide Part;
  }

  lemma OutsGrow(cfg: Config, items: seq<Item>, done: nat)
    requires done < |items| && done + 1 < TWO32
    ensures Outs(cfg, items, done + 1) ==
            Outs(cfg, items, done) + [Packet(cfg.id, done, items[done].chunk.timestamp, items[done].content)]
  {
  }

  lemma OutsStay(cfg: Config, items: seq<Item>, it: Item, done: nat)
    requires done <= |items| && done < TWO32
    ensures Outs(cfg, items + [it], done) == Outs(cfg, items, done)
    ensures Sends(cfg, items + [it], done) == Sends(cfg, items, done)
  {
    hide PartsList;
  }

  lemma SentGrows(ps: seq<Packet>, outs: seq<Packet>, p: Packet)
    requires AllSent(ps, outs)
    ensures AllSent(ps, outs + [p])
  {
  }

  lemma GoodGrows(d: Deque, out: seq<Packet>, outs: seq<Packet>, p: Packet)
    requires Good(d, out, outs)
    ensures Good(d, out, outs + [p])
  {
    assert (outs + [p])[..|out|] == outs[..|out|];
  }

  lemma OutsNumbered(cfg: Config, items: seq<Item>, done: nat)
    requires done <= |items| && done < TWO32
    ensures Numbered(Outs(cfg, items, done))
  {
  }

  lemma {:induction false} TotalStays(items: seq<Item>, it: Item, n: nat)
    requires n <= |items|
    ensures Total(items + [it], n) == Total(items, n)
  {
    if n > 0 {
      TotalStays(items, it, n - 1);
    }
  }

  lemma {:induction false} FramesAppend(a: seq<ManiMessage>, b: seq<ManiMessage>)
    ensures CreditsInFrames(a + b) == CreditsInFrames(a) + CreditsInFrames(b)
  {
    if b == [] {
      assert a + b == a;
    } else {
      FramesAppend(a, b[..|b| - 1]);
      assert (a + b)[..|a + b| - 1] == a + b[..|b| - 1];
    }
  }

  lemma {:induction false} CommandsAppend(a: seq<SenderCommand>, b: seq<SenderCommand>)
    ensures CreditsInCommands(a + b) == CreditsInCommands(a) + CreditsInCommands(b)
  {
    if b == [] {
      assert a + b == a;
    } else {
      CommandsAppend(a, b[..|b| - 1]);
      assert (a + b)[..|a + b| - 1] == a + b[..|b| - 1];
    }
  }

  lemma FramesHead(a: seq<ManiMessage>)
    requires a != []
    ensures CreditsInFrames(a) == CreditsInFrames(a[1..]) + (if a[0].CreditsUpdate? then a[0].additionalCredits else 0)
  {
    assert a == [a[0]] + a[1..];
    FramesAppend([a[0]], a[1..]);
    assert [a[0]][..0] == [];
    assert CreditsInFrames([a[0]]) == CreditsInFrames([]) + (if a[0].CreditsUpdate? then a[0].additionalCredits else 0);
  }

  lemma CommandsHead(a: seq<SenderCommand>)
    requires a != []
    ensures CreditsInCommands(a) == CreditsInCommands(a[1..]) + CreditsInCommands(a[..1])
    ensures CreditsInCommands(a[..1]) == if a[0].UpdateCredits? then a[0].additionalCredits else 0
  {
    assert a == a[..1] + a[1..];
    CommandsAppend(a[..1], a[1..]);
    assert a[..1][..0] == [];
  }

  // ---------------------------------------------------------------- sending

  lemma StartSendKeeps(cfg: Config, s: Sys, ts: u64, content: bytes)
    requires ValidConfig(cfg) && Inv(cfg, s) && Can(cfg, s, StartSend(ts, content))
    ensures Inv(cfg, StartItem(cfg, s, ts, content))
  {
    hide SenderInv, NetInv, GroupsFit, Outs, AllSent, SinkInv, Ledger, NacksSent, EndInv, Src, AllIn, RetransFrom;
    hide PacketsFor, Cut, Sendable, ValidConfig;
    var it := Item(content, Cut(cfg.limit, ts, cfg.compress(content)));
    StartKeepsSender(cfg, s, ts, content);
    SrcGrows(cfg, s.items, it, s.pool, s.groups);
    OutsStay(cfg, s.items, it, s.done);
    NetGrows(cfg, s.items, it, s.done, s.pool);
  }

  lemma StartKeepsSender(cfg: Config, s: Sys, ts: u64, content: bytes)
    requires ValidConfig(cfg) && SenderInv(cfg, s.items, s.done, s.snd, s.failed, s.debited)
    requires Can(cfg, s, StartSend(ts, content))
    ensures |s.items| == s.done
    ensures var t := StartItem(cfg, s, ts, content); SenderInv(cfg, t.items, t.done, t.snd, t.failed, t.debited)
  {
    hide PacketsFor, Cut, Sendable, PartCount, PartsList, ItemOk, IsWindow, Sends, Total, ValidConfig;
    var data := cfg.compress(content);
    var it := Item(content, Cut(cfg.limit, ts, data));
    MakesPartsList(cfg, s.done, ts, data);
    NewItem(cfg, ts, content);
    OutsStay(cfg, s.items, it, s.done);
    TotalStays(s.items, it, s.done);
  }

  lemma MakesPartsList(cfg: Config, s: u32, ts: u64, data: bytes)
    requires Sendable(cfg.limit, data)
    ensures PacketsFor(cfg.id, cfg.limit, s, ts, data) == PartsList(cfg.id, s, Cut(cfg.limit, ts, data))
    ensures |PacketsFor(cfg.id, cfg.limit, s, ts, data)| == |PacketsFor(cfg.id, cfg.limit, 0, ts, data)|
  {
    SenderMakesParts(cfg.id, cfg.limit, s, ts, data);
    SenderMakesParts(cfg.id, cfg.limit, 0, ts, data);
    hide PacketsFor, Cut, Part;
  }

  lemma NewItem(cfg: Config, ts: u64, content: bytes)
    requires ValidConfig(cfg) && Sendable(cfg.limit, cfg.compress(content))
    requires |PacketsFor(cfg.id, cfg.limit, 0, ts, cfg.compress(content))| < TWO16
    ensures ItemOk(cfg, Item(content, Cut(cfg.limit, ts, cfg.compress(content))))
  {
    CutIsValid(cfg.limit, ts, cfg.compress(content));
    hide ValidChunk;
  }

  lemma NetGrows(cfg: Config, items: seq<Item>, it: Item, done: nat, pool: set<Packet>)
    requires done == |items| && |items| + 1 < TWO32 && NetInv(cfg, items, done, pool)
    requires forall p :: IsGenuine(Src(cfg, items), p) ==> IsGenuine(Src(cfg, items + [it]), p)
    ensures NetInv(cfg, items + [it], done, pool)
  {
    var p := Part(cfg.id, done, it.chunk, PartCount(it.chunk) - 1);
    assert p.seqno == |items|;
    hide Part;
    assert !IsGenuine(Src(cfg, items), p);
    hide IsGenuine;
  }

  /** What depends on the pool only grows with it. */
  lemma PoolKeeps(cfg: Config, items: seq<Item>, pool: set<Packet>, more: set<Packet>, frames: seq<ManiMessage>,
                  datagrams: seq<Packet>, groups: Groups)
    requires pool <= more
    requires RetransFrom(cfg.id, frames, pool) && AllIn(datagrams, pool) && GroupsFit(Src(cfg, items), pool, groups)
    ensures RetransFrom(cfg.id, frames, more) && AllIn(datagrams, more) && GroupsFit(Src(cfg, items), more, groups)
  {
    PoolGrows(Src(cfg, items), pool, more, groups);
    hide GroupsFit;
  }

  lemma ListIsGenuine(cfg: Config, items: seq<Item>, s: nat, i: nat)
    requires s < |items| < TWO32 && i < PartCount(items[s].chunk)
    ensures IsGenuine(Src(cfg, items), PartsList(cfg.id, s, items[s].chunk)[i])
  {
    var p := PartsList(cfg.id, s, items[s].chunk)[i];
    assert p.seqno == s && p == Part(cfg.id, s, items[s].chunk, i);
    hide Part;
    assert IsPart(Src(cfg, items), p, i);
  }

  lemma PrefixIsNotLast(cfg: Config, items: seq<Item>, done: nat, i: nat)
    requires done < |items| < TWO32 && ItemOk(cfg, items[done]) && i + 1 < PartCount(items[done].chunk)
    ensures var c := items[done].chunk;
            var p := PartsList(cfg.id, done, c)[i];
            IsGenuine(Src(cfg, items), p) && p != Part(cfg.id, done, c, PartCount(c) - 1)
  {
    var c := items[done].chunk;
    ListIsGenuine(cfg, items, done, i);
    hide IsGenuine, Part;
    if PartsList(cfg.id, done, c)[i] == Part(cfg.id, done, c, PartCount(c) - 1) {
      PartsDiffer(cfg.id, done, c, i, PartCount(c) - 1);
    }
  }

  /** A failed send has put out some of its datagrams, but not the last. */
  lemma PrefixKeepsNet(cfg: Config, items: seq<Item>, done: nat, pool: set<Packet>, accepted: nat)
    requires Bounded(items, done) && done < |items| && NetInv(cfg, items, done, pool)
    requires forall i :: 0 <= i < |items| ==> ItemOk(cfg, items[i])
    requires accepted < PartCount(items[done].chunk)
    ensures NetInv(cfg, items, done, pool + set p | p in PartsList(cfg.id, done, items[done].chunk)[..accepted])
  {
    hide IsGenuine, Part, ItemOk, Src;
    var c := items[done].chunk;
    var list, last := PartsList(cfg.id, done, c), Part(cfg.id, done, c, PartCount(c) - 1);
    assert ItemOk(cfg, items[done]);
    forall i | 0 <= i < accepted
      ensures IsGenuine(Src(cfg, items), list[i]) && list[i] != last
    {
      PrefixIsNotLast(cfg, items, done, i);
    }
    hide PartsList;
  }

  lemma PartsDiffer(id: u64, s: u32, c: Chunk, i: nat, j: nat)
    requires ValidChunk(c) && i < PartCount(c) && j < PartCount(c) && Part(id, s, c, i) == Part(id, s, c, j)
    ensures i == j
  {
    hide PacketCodec.EncodeContent, PacketCodec.DecodeContent;
    assert PacketCodec.EncodeContent(PartContent(c, i)) == PacketCodec.EncodeContent(PartContent(c, j));
    hide Part;
    PacketCodec.ContentInverse(PacketCodec.EncodeContent(PartContent(c, i)), PartContent(c, i));
    PacketCodec.ContentInverse(PacketCodec.EncodeContent(PartContent(c, j)), PartContent(c, j));
  }

  lemma SuccessKeepsNet(cfg: Config, items: seq<Item>, done: nat, pool: set<Packet>)
    requires Bounded(items, done) && done < |items| && NetInv(cfg, items, done, pool)
    ensures NetInv(cfg, items, done + 1, pool + set p | p in PartsList(cfg.id, done, items[done].chunk))
  {
    var c := items[done].chunk;
    var list := PartsList(cfg.id, done, c);
    forall i | 0 <= i < |list|
      ensures IsGenuine(Src(cfg, items), list[i])
    {
      ListIsGenuine(cfg, items, done, i);
    }
    hide IsGenuine, Part;
    forall j | 0 <= j < PartCount(c)
      ensures Part(cfg.id, done, c, j) in pool + set p | p in list
    {
      assert list[j] == Part(cfg.id, done, c, j);
    }
  }

  /** A finished send: the window slides, and every chunk still needs no more than was debited. */
  lemma SuccessKeepsSender(cfg: Config, items: seq<Item>, done: nat, snd: SendState, debited: nat, after: SendState)
    requires ValidConfig(cfg) && SenderInv(cfg, items, done, snd, false, debited) && snd.inFlight.Some?
    requires snd.permits >= |snd.inFlight.value.packets| - snd.inFlight.value.acquired
    requires after.counter == WrapAdd(snd.counter, 1) && after.inFlight == None
    requires after.entries == Stored(snd.entries, cfg.max, snd.counter, snd.inFlight.value.packets)
    ensures SenderInv(cfg, items, done + 1, after, false,
                      debited + |snd.inFlight.value.packets| - snd.inFlight.value.acquired)
  {
    hide IsWindow, Stored, PartsList, Sends, ItemOk, PartCount;
    var packets := snd.inFlight.value.packets;
    assert WrapAdd(0, done) == done;
    SendsGrow(cfg, items, done);
    StoredKeepsWindow(snd.entries, 0, cfg.max, Sends(cfg, items, done), packets);
  }

  lemma SendsGrow(cfg: Config, items: seq<Item>, done: nat)
    requires done < |items| < TWO32
    ensures Sends(cfg, items, done + 1) == Sends(cfg, items, done) + [PartsList(cfg.id, done, items[done].chunk)]
  {
    hide PartsList;
  }

  lemma PollKeeps(cfg: Config, s: Sys, accepted: nat)
    requires ValidConfig(cfg) && Inv(cfg, s) && Can(cfg, s, PollTheSend(accepted))
    ensures Inv(cfg, Polled(cfg, s, accepted))
  {
    hide Polled, GroupsFit, AllSent, SinkInv, AllIn, RetransFrom, Outs, NetInv, SenderInv, NacksSent, EndInv, Src,
        Stored, PartCount, PartsList, Bounded;
    var t := Polled(cfg, s, accepted);
    PollFrame(cfg, s, accepted);
    PoolOfPoll(cfg, s, accepted);
    PoolKeeps(cfg, s.items, s.pool, t.pool, s.toReceiver, s.datagrams, s.groups);
    SenderAfterPoll(cfg, s, accepted);
    if t.done != s.done {
      MoreSentKeeps(cfg, s);
    }
  }

  lemma PollFrame(cfg: Config, s: Sys, accepted: nat)
    requires Can(cfg, s, PollTheSend(accepted))
    ensures var t := Polled(cfg, s, accepted);
            && t == s.(snd := t.snd, debited := t.debited, pool := t.pool, done := t.done, failed := t.failed)
            && t.snd.permits + t.debited == s.snd.permits + s.debited
            && (t.done == s.done || t.done == s.done + 1)
  {
    hide Stored;
  }

  /** The network after a poll. */
  lemma PoolOfPoll(cfg: Config, s: Sys, accepted: nat)
    requires ValidConfig(cfg) && Inv(cfg, s) && Can(cfg, s, PollTheSend(accepted))
    ensures var t := Polled(cfg, s, accepted);
            Bounded(t.items, t.done) && s.pool <= t.pool && NetInv(cfg, t.items, t.done, t.pool) && s.done < |s.items|
  {
    hide PartsList, GroupsFit, AllSent, SinkInv, AllIn, RetransFrom, Outs, ItemOk, NetInv, NacksSent, EndInv, Src,
        Stored, Ledger;
    var f := s.snd.inFlight.value;
    assert f.packets == PartsList(cfg.id, s.done, s.items[s.done].chunk);
    if s.snd.closed || s.snd.permits < |f.packets| - f.acquired {
      assert s.pool + (set p | p in []) == s.pool;
    } else if accepted < |f.packets| {
      PrefixKeepsNet(cfg, s.items, s.done, s.pool, accepted);
    } else {
      SuccessKeepsNet(cfg, s.items, s.done, s.pool);
    }
  }

  /** A send that failed: nothing is in flight any more, and the chunk stays unfinished. */
  lemma FailureKeepsSender(cfg: Config, items: seq<Item>, done: nat, snd: SendState, debited: nat, permits: nat, more: nat)
    requires SenderInv(cfg, items, done, snd, false, debited) && snd.inFlight.Some?
    requires more == debited || more == debited + |snd.inFlight.value.packets| - snd.inFlight.value.acquired
    ensures SenderInv(cfg, items, done, snd.(inFlight := None, permits := permits), true, more)
  {
    hide IsWindow, PartsList, Sends, ItemOk, PartCount, Total;
  }

  /** A send that waits for more credits keeps those it has. */
  lemma WaitKeepsSender(cfg: Config, items: seq<Item>, done: nat, snd: SendState, debited: nat)
    requires SenderInv(cfg, items, done, snd, false, debited) && snd.inFlight.Some?
    requires snd.permits < |snd.inFlight.value.packets| - snd.inFlight.value.acquired
    ensures var f := snd.inFlight.value;
            SenderInv(cfg, items, done, snd.(permits := 0, inFlight := Some(InFlight(f.packets, f.acquired + snd.permits))),
                      false, debited + snd.permits)
  {
    hide IsWindow, PartsList, Sends, ItemOk, PartCount, Total;
  }

  lemma SenderAfterPoll(cfg: Config, s: Sys, accepted: nat)
    requires ValidConfig(cfg) && SenderInv(cfg, s.items, s.done, s.snd, s.failed, s.debited)
    requires Can(cfg, s, PollTheSend(accepted))
    ensures var t := Polled(cfg, s, accepted); SenderInv(cfg, t.items, t.done, t.snd, t.failed, t.debited)
  {
    hide SenderInv, Stored, ValidConfig;
    var t := Polled(cfg, s, accepted);
    FlightIsOpen(cfg, s);
    var f := s.snd.inFlight.value;
    var need := |f.packets| - f.acquired;
    if s.snd.closed {
      FailureKeepsSender(cfg, s.items, s.done, s.snd, s.debited, s.snd.permits, s.debited);
    } else if s.snd.permits < need {
      WaitKeepsSender(cfg, s.items, s.done, s.snd, s.debited);
    } else if accepted < |f.packets| {
      FailureKeepsSender(cfg, s.items, s.done, s.snd, s.debited, s.snd.permits - need, s.debited + need);
    } else {
      SuccessKeepsSender(cfg, s.items, s.done, s.snd, s.debited, t.snd);
    }
  }

  lemma FlightIsOpen(cfg: Config, s: Sys)
    requires SenderInv(cfg, s.items, s.done, s.snd, s.failed, s.debited) && s.snd.inFlight.Some?
    ensures !s.failed
  {
  }

  /** What the receiver's side knows survives one more chunk being sent. */
  lemma MoreSentKeeps(cfg: Config, s: Sys)
    requires Inv(cfg, s) && s.done < |s.items|
    ensures var outs := Outs(cfg, s.items, s.done + 1);
            && AllSent(s.reliableQueue, outs) && AllSent(s.unreliableQueue, outs) && AllSent(s.shown, outs)
            && SinkInv(cfg, outs, s.deque, s.delivered, s.coord)
    ensures NacksSent(s.done + 1, s.commands, s.toSender)
    ensures EndInv(s.ended, s.done + 1, s.toReceiver, s.endRequests, s.pendingEnd, s.answered, s.toSender, s.acked,
        |s.delivered|)
  {
    var outs, p := Outs(cfg, s.items, s.done), Packet(cfg.id, s.done, s.items[s.done].chunk.timestamp,
        s.items[s.done].content);
    OutsGrow(cfg, s.items, s.done);
    assert Bounded(s.items, s.done);
    hide SenderInv, NetInv, GroupsFit, Ledger, Outs, AllSent, Good, CoordInv, AllIn, RetransFrom;
    SentGrows(s.reliableQueue, outs, p);
    SentGrows(s.unreliableQueue, outs, p);
    SentGrows(s.shown, outs, p);
    GoodGrows(s.deque, s.delivered, outs, p);
  }

  // ---------------------------------------------------------------- the sender's task

  /** An event of the sender's task: nothing leaves that is not a stored datagram, its end of transfer
      or a credit message, and credits and acknowledgements come from the peer's message alone. */
  ghost predicate SenderSays(cfg: Config, pool: set<Packet>, ended: Option<nat>, ev: Event, t: Task, fx: Effects) {
    && t.role.SenderRole?
    && RetransFrom(cfg.id, fx.written, pool)
    && NoStart(fx.written)
    && (forall i :: 0 <= i < |fx.written| && fx.written[i].TransferEnd? ==>
          ended.Some? && fx.written[i].finalSequenceNumber == FinalOf(ended.value))
    && fx.credits == (if ev.FromPeer? && ev.message.CreditsUpdate? then ev.message.additionalCredits else 0)
    && (fx.fired.Some? ==> ev == FromPeer(TransferEndAck))
  }

  /** Every datagram in the map is on the network. */
  ghost predicate EntriesIn(id: u64, entries: Entries, pool: set<Packet>) {
    forall n: u32 :: n in entries ==>
      forall i :: 0 <= i < |entries[n]| ==> entries[n][i] in pool && entries[n][i].streamId == id && entries[n][i].seqno == n
  }

  lemma EntriesOnNetwork(cfg: Config, items: seq<Item>, done: nat, snd: SendState, failed: bool, debited: nat,
      pool: set<Packet>)
    requires SenderInv(cfg, items, done, snd, failed, debited) && NetInv(cfg, items, done, pool)
    ensures EntriesIn(cfg.id, snd.entries, pool)
  {
    hide Part, IsGenuine, ItemOk, FlightOk, PartsList, Holds, NetInv;
    forall n: u32 | n in snd.entries
      ensures forall i :: 0 <= i < |snd.entries[n]| ==>
                snd.entries[n][i] in pool && snd.entries[n][i].streamId == cfg.id && snd.entries[n][i].seqno == n
    {
      EntryIs(cfg, items, done, snd.entries, n);
      ListInPool(cfg, items, done, pool, n);
    }
  }

  lemma EntryIs(cfg: Config, items: seq<Item>, done: nat, entries: Entries, n: u32)
    requires Bounded(items, done) && IsWindow(entries, 0, cfg.max, Sends(cfg, items, done)) && n in entries
    ensures n < done && entries[n] == PartsList(cfg.id, n, items[n].chunk)
  {
    hide PartsList, IsWindow;
    var j := EntryOfWindow(entries, 0, cfg.max, Sends(cfg, items, done), n);
    assert WrapAdd(0, j) == j;
  }

  lemma ListInPool(cfg: Config, items: seq<Item>, done: nat, pool: set<Packet>, n: u32)
    requires Bounded(items, done) && NetInv(cfg, items, done, pool) && n < done
    ensures forall i :: 0 <= i < PartCount(items[n].chunk) ==>
              var p := PartsList(cfg.id, n, items[n].chunk)[i]; p in pool && p.streamId == cfg.id && p.seqno == n
  {
    PartsAreNumbered(cfg.id, n, items[n].chunk);
    hide Part, IsGenuine;
  }

  lemma PartsAreNumbered(id: u64, s: u32, c: Chunk)
    ensures forall i :: 0 <= i < PartCount(c) ==> Part(id, s, c, i).streamId == id && Part(id, s, c, i).seqno == s
  {
  }

  lemma {:induction false} RetransmissionsFrom(id: u64, entries: Entries, numbers: seq<u32>, pool: set<Packet>)
    requires EntriesIn(id, entries, pool)
    ensures var frames := Retransmissions(entries, numbers);
            RetransFrom(id, frames, pool) && forall i :: 0 <= i < |frames| ==> frames[i].Retrans?
  {
    if numbers != [] {
      var last := numbers[|numbers| - 1];
      RetransmissionsFrom(id, entries, numbers[..|numbers| - 1], pool);
      var more := RetransmissionsOf(entries, last);
      forall i | 0 <= i < |more|
        ensures Packet(id, more[i].sequenceNumber, more[i].timestamp, more[i].content) in pool
      {
        assert entries[last][i] == Packet(id, last, entries[last][i].timestamp, entries[last][i].content);
      }
    }
  }

  lemma PrefixSays(cfg: Config, pool: set<Packet>, frames: seq<ManiMessage>, env: Env)
    requires RetransFrom(cfg.id, frames, pool) && forall i :: 0 <= i < |frames| ==> frames[i].Retrans?
    ensures RetransFrom(cfg.id, WrittenOf(env, frames), pool)
    ensures forall i :: 0 <= i < |WrittenOf(env, frames)| ==> WrittenOf(env, frames)[i].Retrans?
  {
  }

  lemma SenderAnswersNack(cfg: Config, entries: Entries, t: Task, numbers: seq<u32>, env: Env, pool: set<Packet>,
      ended: Option<nat>)
    requires EntriesIn(cfg.id, entries, pool) && t.role.SenderRole?
    ensures var (after, fx) := OnMessage(TaskConfig(cfg.id, cfg.senderBulk), entries, t, env, NackMessage(numbers));
            SenderSays(cfg, pool, ended, FromPeer(NackMessage(numbers)), after, fx)
  {
    hide EntriesIn, Retransmissions, RetransmissionsOf, FinalOf;
    RetransmissionsFrom(cfg.id, entries, numbers, pool);
    PrefixSays(cfg, pool, Retransmissions(entries, numbers), env);
    hide RetransFrom, WrittenOf;
  }

  lemma SenderHandlesMessage(cfg: Config, entries: Entries, t: Task, m: ManiMessage, env: Env, pool: set<Packet>,
      ended: Option<nat>)
    requires EntriesIn(cfg.id, entries, pool) && t.role.SenderRole? && !m.TransferStart?
    ensures var (after, fx) := OnMessage(TaskConfig(cfg.id, cfg.senderBulk), entries, t, env, m);
            SenderSays(cfg, pool, ended, FromPeer(m), after, fx)
  {
    hide EntriesIn, Retransmissions, FinalOf;
    if m.NackMessage? {
      SenderAnswersNack(cfg, entries, t, m.sequenceNumbers, env, pool, ended);
    }
    OneFrame(env, CreditsUpdate(cfg.senderBulk));
    hide WrittenOf;
  }

  lemma SenderHandles(cfg: Config, entries: Entries, t: Task, ev: Event, env: Env, pool: set<Packet>, ended: Option<nat>)
    requires EntriesIn(cfg.id, entries, pool) && t.role.SenderRole?
    requires Local(ev) || ev.StreamEnds? || ev.HandleEnds? || (ev.FromPeer? && !ev.message.TransferStart?)
    requires ev.StreamEnds? || ev.HandleEnds? ==> ended.Some? && ev.final == FinalOf(ended.value)
    requires Enabled(t, ev)
    ensures var (after, fx) := TakeStep(TaskConfig(cfg.id, cfg.senderBulk), entries, t, ev, env);
            SenderSays(cfg, pool, ended, ev, after, fx)
  {
    if ev.FromPeer? {
      SenderHandlesMessage(cfg, entries, t, ev.message, env, pool, ended);
    }
    hide EntriesIn, FinalOf, OnMessage;
  }

  lemma BankDoesNotMatter(cfg: Config, items: seq<Item>, done: nat, snd: SendState, failed: bool, debited: nat,
      permits: nat, closed: bool)
    requires SenderInv(cfg, items, done, snd, failed, debited)
    ensures SenderInv(cfg, items, done, snd.(permits := permits, closed := closed), failed, debited)
  {
    hide ItemOk, IsWindow, Sends, PartsList, Total;
  }

  lemma FramesFrom(id: u64, a: seq<ManiMessage>, b: seq<ManiMessage>, pool: set<Packet>)
    requires RetransFrom(id, a, pool) && RetransFrom(id, b, pool)
    ensures RetransFrom(id, a + b, pool)
    ensures NoStart(a) && NoStart(b) ==> NoStart(a + b)
  {
  }

  lemma LedgerAfterSender(cfg: Config, s: Sys, ev: Event, fx: Effects, rest: seq<ManiMessage>)
    requires Ledger(cfg, s.snd.permits, s.debited, s.toSender, s.commands, s.lost, s.coord.lastEmitted, s.solicited)
    requires if ev.FromPeer? then s.toSender != [] && ev.message == s.toSender[0]
        && rest == s.toSender[1..] else rest == s.toSender
    requires fx.credits == (if ev.FromPeer? && ev.message.CreditsUpdate? then ev.message.additionalCredits else 0)
    ensures Ledger(cfg, s.snd.permits + fx.credits, s.debited, rest, s.commands, s.lost, s.coord.lastEmitted, s.solicited)
  {
    hide CreditsInFrames, CreditsInCommands;
    if ev.FromPeer? {
      FramesHead(s.toSender);
    }
  }

  lemma SenderShowsKeeps(cfg: Config, s: Sys, ev: Event, t: Task, fx: Effects, rest: seq<ManiMessage>, ended: Option<nat>)
    requires Inv(cfg, s) && SenderSays(cfg, s.pool, ended, ev, t, fx)
    requires if ev.FromPeer? then s.toSender != [] && ev.message == s.toSender[0]
        && rest == s.toSender[1..] else rest == s.toSender
    requires ended == s.ended || (s.ended == None && ended.Some? && ended.value < TWO32)
    ensures Inv(cfg, SenderShows(s, t, fx).(toSender := rest, ended := ended))
  {
    assert s.done < TWO32;
    hide SenderInv, NetInv, GroupsFit, AllSent, SinkInv, AllIn, RetransFrom, Outs, Src, EndInv, NacksSent, NoStart,
        FinalOf, Ledger;
    BankDoesNotMatter(cfg, s.items, s.done, s.snd, s.failed, s.debited, s.snd.permits + fx.credits, s.snd.closed);
    FramesFrom(cfg.id, s.toReceiver, fx.written, s.pool);
    EndAfterSender(s, ev, fx, rest, ended);
    RestKeeps(s.done, s.commands, s.toSender, rest);
    LedgerAfterSender(cfg, s, ev, fx, rest);
  }

  lemma RestKeeps(done: nat, commands: seq<SenderCommand>, toSender: seq<ManiMessage>, rest: seq<ManiMessage>)
    requires NacksSent(done, commands, toSender) && NoStart(toSender)
    requires rest == toSender || (toSender != [] && rest == toSender[1..])
    ensures NacksSent(done, commands, rest) && NoStart(rest)
  {
    hide AllBelow;
  }

  lemma EndAfterSender(s: Sys, ev: Event, fx: Effects, rest: seq<ManiMessage>, ended: Option<nat>)
    requires EndInv(s.ended, s.done, s.toReceiver, s.endRequests, s.pendingEnd, s.answered, s.toSender, s.acked,
        |s.delivered|)
    requires s.done < TWO32 && (ended == s.ended || (s.ended == None && ended.Some? && ended.value < TWO32))
    requires if ev.FromPeer? then s.toSender != [] && ev.message == s.toSender[0]
        && rest == s.toSender[1..] else rest == s.toSender
    requires forall i :: 0 <= i < |fx.written| && fx.written[i].TransferEnd? ==>
               ended.Some? && fx.written[i].finalSequenceNumber == FinalOf(ended.value)
    requires fx.fired.Some? ==> ev == FromPeer(TransferEndAck)
    ensures EndInv(ended, s.done, s.toReceiver + fx.written, s.endRequests, s.pendingEnd, s.answered, rest,
                   s.acked || fx.fired.Some?, |s.delivered|)
  {
    hide FinalOf;
    assert TransferEndAck in rest ==> TransferEndAck in s.toSender;
  }

  lemma SenderFacts(cfg: Config, s: Sys)
    requires Inv(cfg, s)
    ensures EntriesIn(cfg.id, s.snd.entries, s.pool) && s.senderTask.role.SenderRole?
    ensures s.snd.counter == s.done && FinalOf(s.done) == FinalSequenceNumber(s.snd.counter)
    ensures s.toSender != [] ==> !s.toSender[0].TransferStart?
  {
    EntriesOnNetwork(cfg, s.items, s.done, s.snd, s.failed, s.debited, s.pool);
    hide EntriesIn, NetInv, GroupsFit, AllSent, SinkInv, AllIn, RetransFrom, Outs, Src, EndInv, NacksSent, Ledger;
    hide IsWindow, Sends, ItemOk, FlightOk;
  }

  lemma EndTheTransferKeeps(cfg: Config, s: Sys, env: Env)
    requires Inv(cfg, s) && Can(cfg, s, EndTheTransfer(env))
    ensures Inv(cfg, After(cfg, s, EndTheTransfer(env)))
  {
    hide Inv, TakeStep, FinalSequenceNumber, FinalOf;
    SenderFacts(cfg, s);
    var ev := StreamEnds(FinalSequenceNumber(s.snd.counter), 0);
    var (t, fx) := TakeStep(TaskConfig(cfg.id, cfg.senderBulk), s.snd.entries, s.senderTask, ev, env);
    SenderHandles(cfg, s.snd.entries, s.senderTask, ev, env, s.pool, Some(s.done));
    SenderShowsKeeps(cfg, s, ev, t, fx, s.toSender, Some(s.done));
  }

  lemma HandleEndsKeeps(cfg: Config, s: Sys, final: u32, env: Env)
    requires Inv(cfg, s) && Can(cfg, s, HandleEndsTheTransfer(final, env))
    ensures Inv(cfg, After(cfg, s, HandleEndsTheTransfer(final, env)))
  {
    hide Inv, TakeStep;
    SenderFacts(cfg, s);
    var ev := HandleEnds(final, 0);
    var ended := Some(WrapAdd(final, 1));
    assert FinalOf(WrapAdd(final, 1)) == final;
    hide FinalOf, WrapAdd;
    var (t, fx) := TakeStep(TaskConfig(cfg.id, cfg.senderBulk), s.snd.entries, s.senderTask, ev, env);
    SenderHandles(cfg, s.snd.entries, s.senderTask, ev, env, s.pool, ended);
    SenderShowsKeeps(cfg, s, ev, t, fx, s.toSender, ended);
  }

  lemma SenderTaskKeeps(cfg: Config, s: Sys, ev: Event, env: Env)
    requires Inv(cfg, s) && Can(cfg, s, SenderTask(ev, env))
    ensures Inv(cfg, After(cfg, s, SenderTask(ev, env)))
  {
    hide Inv, TakeStep;
    SenderFacts(cfg, s);
    var (t, fx) := TakeStep(TaskConfig(cfg.id, cfg.senderBulk), s.snd.entries, s.senderTask, ev, env);
    SenderHandles(cfg, s.snd.entries, s.senderTask, ev, env, s.pool, s.ended);
    SenderShowsKeeps(cfg, s, ev, t, fx, s.toSender, s.ended);
  }

  lemma SenderReadsKeeps(cfg: Config, s: Sys, env: Env)
    requires Inv(cfg, s) && Can(cfg, s, SenderReads(env))
    ensures Inv(cfg, After(cfg, s, SenderReads(env)))
  {
    hide Inv, TakeStep;
    SenderFacts(cfg, s);
    var ev := FromPeer(s.toSender[0]);
    var (t, fx) := TakeStep(TaskConfig(cfg.id, cfg.senderBulk), s.snd.entries, s.senderTask, ev, env);
    SenderHandles(cfg, s.snd.entries, s.senderTask, ev, env, s.pool, s.ended);
    SenderShowsKeeps(cfg, s, ev, t, fx, s.toSender[1..], s.ended);
  }

  lemma ShutdownKeeps(cfg: Config, s: Sys)
    requires Inv(cfg, s)
    ensures Inv(cfg, s.(snd := s.snd.(closed := true)))
  {
    hide SenderInv, NetInv, GroupsFit, AllSent, SinkInv, AllIn, RetransFrom, Outs, Src, EndInv, NacksSent;
    BankDoesNotMatter(cfg, s.items, s.done, s.snd, s.failed, s.debited, s.snd.permits, true);
  }

  // ---------------------------------------------------------------- datagrams and reassembly

  lemma DeliverKeeps(cfg: Config, s: Sys, p: Packet)
    requires Inv(cfg, s) && Can(cfg, s, Deliver(p))
    ensures Inv(cfg, After(cfg, s, Deliver(p)))
  {
    hide SenderInv, NetInv, GroupsFit, AllSent, SinkInv, RetransFrom, Outs, Src, EndInv, NacksSent, Ledger;
  }

  /** An emitted chunk has been sent: of an unfinished chunk the last datagram never reached the network. */
  lemma EmittedIsSent(cfg: Config, items: seq<Item>, done: nat, pool: set<Packet>, p: Packet)
    requires ValidConfig(cfg) && Bounded(items, done) && NetInv(cfg, items, done, pool)
    requires forall i :: 0 <= i < |items| ==> ItemOk(cfg, items[i])
    requires EmittedWhole(Src(cfg, items), pool, p)
    ensures Genuine(Opened(cfg, p), Outs(cfg, items, done))
  {
    hide Part, IsGenuine;
    var s := p.seqno;
    assert Src(cfg, items).chunks[s] == items[s].chunk && ItemOk(cfg, items[s]);
    assert Part(cfg.id, s, items[s].chunk, PartCount(items[s].chunk) - 1) in pool;
  }

  /** What one packet does to the groups, and that what it completes has been sent. */
  lemma Reassembles(cfg: Config, s: Sys)
    requires ValidConfig(cfg) && Inv(cfg, s) && s.datagrams != []
    ensures var (groups, out) := Receive(cfg.groupCap, s.groups, s.datagrams[0]);
            && GroupsFit(Src(cfg, s.items), s.pool, groups)
            && (out.Some? ==> Genuine(Opened(cfg, out.value), Outs(cfg, s.items, s.done)))
    ensures AllIn(s.datagrams[1..], s.pool)
  {
    var p := s.datagrams[0];
    var src := Src(cfg, s.items);
    var (groups, out) := Receive(cfg.groupCap, s.groups, p);
    SourceIsValid(cfg, s);
    GenuineOnNetwork(cfg, s, p);
    hide Inv, GroupsFit, NetInv, AllIn, Src, ItemOk, Outs, Receive, EmittedWhole, IsGenuine, Genuine;
    ReceiveIsSafe(src, s.pool, cfg.groupCap, s.groups, p);
    if out.Some? {
      EmittedIsSent(cfg, s.items, s.done, s.pool, out.value);
    }
  }

  lemma GenuineOnNetwork(cfg: Config, s: Sys, p: Packet)
    requires Inv(cfg, s) && s.datagrams != [] && p == s.datagrams[0]
    ensures p in s.pool && IsGenuine(Src(cfg, s.items), p) && Bounded(s.items, s.done)
    ensures GroupsFit(Src(cfg, s.items), s.pool, s.groups) && NetInv(cfg, s.items, s.done, s.pool)
    ensures forall i :: 0 <= i < |s.items| ==> ItemOk(cfg, s.items[i])
    ensures AllIn(s.datagrams[1..], s.pool)
  {
    hide GroupsFit, AllSent, SinkInv, RetransFrom, Outs, Src, EndInv, NacksSent, Ledger, ItemOk, IsGenuine, Part,
        FlightOk, IsWindow;
  }

  lemma ReassembleKeeps(cfg: Config, s: Sys)
    requires ValidConfig(cfg) && Inv(cfg, s) && Can(cfg, s, Reassemble)
    ensures Inv(cfg, After(cfg, s, Reassemble))
  {
    hide Receive, Inv, Reassembled, Outs, AllSent, Genuine, ValidConfig, Opened, Src, AllIn, GroupsFit;
    Reassembles(cfg, s);
    var (groups, out) := Receive(cfg.groupCap, s.groups, s.datagrams[0]);
    var whole := if out.Some? then [Opened(cfg, out.value)] else [];
    ReassembledKeeps(cfg, s, groups, whole);
  }

  lemma ReassembledKeeps(cfg: Config, s: Sys, groups: Groups, whole: seq<Packet>)
    requires Inv(cfg, s) && s.datagrams != []
    requires GroupsFit(Src(cfg, s.items), s.pool, groups) && AllIn(s.datagrams[1..], s.pool)
    requires forall i :: 0 <= i < |whole| ==> Genuine(whole[i], Outs(cfg, s.items, s.done))
    ensures Inv(cfg, Reassembled(s, groups, whole))
  {
    assert Bounded(s.items, s.done);
    hide SenderInv, NetInv, GroupsFit, AllIn, SinkInv, RetransFrom, EndInv, NacksSent, Ledger, Src, Outs, AllSent, Genuine;
    SentAppend(s.reliableQueue, whole, Outs(cfg, s.items, s.done));
    SentAppend(s.unreliableQueue, whole, Outs(cfg, s.items, s.done));
  }

  lemma SentAppend(ps: seq<Packet>, more: seq<Packet>, outs: seq<Packet>)
    requires AllSent(ps, outs) && forall i :: 0 <= i < |more| ==> Genuine(more[i], outs)
    ensures AllSent(ps + more, outs)
  {
  }

  lemma SourceIsValid(cfg: Config, s: Sys)
    requires Inv(cfg, s)
    ensures ValidSource(Src(cfg, s.items))
  {
    hide NetInv, GroupsFit, AllIn, SinkInv, RetransFrom, EndInv, NacksSent, Ledger, ValidChunk, AllSent;
    assert forall i :: 0 <= i < |s.items| ==> ItemOk(cfg, s.items[i]);
  }

  // ---------------------------------------------------------------- the sinks

  /** The reliable count moves only with what the reliable sink hands out. */
  lemma CallCounts(bulk: nat, c: Coord, call: Call)
    requires c.reliableDrained + (if call.RecordReliable? then call.n else 0) < TWO64
    ensures AfterCall(bulk, c, call).0.reliableDrained == c.reliableDrained + if call.RecordReliable? then call.n else 0
  {
  }

  /** Sending commands that announce exactly the growth of `lastEmitted` keeps the ledger. */
  lemma CommandedKeeps(cfg: Config, s: Sys, commands: seq<SenderCommand>, lastEmitted: nat)
    requires Ledger(cfg, s.snd.permits, s.debited, s.toSender, s.commands, s.lost, s.coord.lastEmitted, s.solicited)
    requires NacksSent(s.done, s.commands, s.toSender) && NacksSent(s.done, commands, [])
    requires lastEmitted == s.coord.lastEmitted + CreditsInCommands(commands)
    ensures var t := Commanded(s, commands);
            && t == s.(commands := t.commands, lost := t.lost)
            && Ledger(cfg, s.snd.permits, s.debited, s.toSender, t.commands, t.lost, lastEmitted, s.solicited)
            && NacksSent(s.done, t.commands, s.toSender)
  {
    CommandsAppend(s.commands, commands);
    hide AllBelow, CreditsInFrames, CreditsInCommands;
  }

  lemma AnnounceCredits(nack: seq<SenderCommand>, credits: nat)
    requires nack == [] || (|nack| == 1 && nack[0].Nack?)
    ensures CreditsInCommands(nack + Announce(credits)) == credits
  {
    CommandsAppend(nack, Announce(credits));
    assert nack != [] ==> nack[..0] == [];
    assert Announce(credits) != [] ==> Announce(credits)[..0] == [];
  }

  /** The sink's invariant after a coordinator call that hands nothing out. */
  lemma CallKeepsSink(cfg: Config, outs: seq<Packet>, d: Deque, delivered: seq<Packet>, coord: Coord, call: Call)
    requires SinkInv(cfg, outs, d, delivered, coord) && !call.RecordReliable?
    ensures var (c, credits) := AfterCall(CoordBulk(cfg), coord, call);
            SinkInv(cfg, outs, d, delivered, c) && c.lastEmitted == coord.lastEmitted + credits
  {
    hide Good;
    CallCounts(CoordBulk(cfg), coord, call);
    CallKeepsCoordInv(CoordBulk(cfg), coord, call);
    hide AfterCall, CoordInv;
  }

  lemma AnnouncedKeeps(cfg: Config, s: Sys, c: Coord, credits: nat)
    requires Inv(cfg, s) && SinkInv(cfg, Outs(cfg, s.items, s.done), s.deque, s.delivered, c)
    requires c.lastEmitted == s.coord.lastEmitted + credits
    ensures Inv(cfg, Commanded(s, Announce(credits)).(coord := c))
  {
    hide SenderInv, NetInv, GroupsFit, AllSent, AllIn, RetransFrom, Outs, Src, EndInv, SinkInv, Commanded, Ledger, NacksSent;
    AnnounceIsNoNack(s.done, credits);
    CommandedKeeps(cfg, s, Announce(credits), c.lastEmitted);
  }

  lemma AnnounceIsNoNack(done: nat, credits: nat)
    ensures NacksSent(done, Announce(credits), []) && CreditsInCommands(Announce(credits)) == credits
  {
    hide CreditsInCommands, AllBelow;
    OneCommand(UpdateCredits(credits));
    NoCommands();
  }

  lemma NoCommands()
    ensures CreditsInCommands([]) == 0
  {
  }

  /** A coordinator call by a sink, and what it leaves unchanged. */
  lemma CoordCallKeeps(cfg: Config, s: Sys, call: Call)
    requires Inv(cfg, s) && !call.RecordReliable?
    ensures Inv(cfg, AfterCoord(cfg, s, call))
    ensures var t := AfterCoord(cfg, s, call); t == s.(coord := t.coord, commands := t.commands, lost := t.lost)
  {
    hide Inv, AfterCall, SinkInv, Outs, Announce, CreditsInCommands;
    SinkOf(cfg, s);
    CallKeepsSink(cfg, Outs(cfg, s.items, s.done), s.deque, s.delivered, s.coord, call);
    var (c, credits) := AfterCall(CoordBulk(cfg), s.coord, call);
    AnnouncedKeeps(cfg, s, c, credits);
  }

  lemma UnreliableReadsKeeps(cfg: Config, s: Sys)
    requires Inv(cfg, s) && s.unreliableQueue != []
    ensures Inv(cfg, AfterCoord(cfg, s, RecordUnreliable(1)).(shown := s.shown + [s.unreliableQueue[0]],
        unreliableQueue := s.unreliableQueue[1..]))
    ensures Inv(cfg, s.(unreliableQueue := s.unreliableQueue[1..]))
  {
    CoordCallKeeps(cfg, s, RecordUnreliable(1));
    QueueHead(cfg, s);
    hide AfterCoord, SenderInv, NetInv, GroupsFit, AllSent, AllIn, RetransFrom, Outs, Src, EndInv, SinkInv, Ledger,
        NacksSent;
  }

  lemma QueueHead(cfg: Config, s: Sys)
    requires Inv(cfg, s)
    ensures Bounded(s.items, s.done)
    ensures var outs := Outs(cfg, s.items, s.done);
            && (s.unreliableQueue != [] ==>
                  AllSent(s.unreliableQueue[1..], outs) && AllSent(s.shown + [s.unreliableQueue[0]], outs))
            && (s.reliableQueue != [] ==> AllSent(s.reliableQueue[1..], outs) && Genuine(s.reliableQueue[0], outs))
  {
    assert Bounded(s.items, s.done);
    hide NetInv, GroupsFit, AllIn, RetransFrom, Outs, Src, EndInv, SinkInv, Ledger, NacksSent, Genuine, SenderInv;
  }

  lemma SinkEofKeeps(cfg: Config, s: Sys)
    requires Inv(cfg, s)
    ensures Inv(cfg, AfterRecv(s, SignalEof(RecvConfigOf(cfg), RecvStateOf(s))))
  {
    var call := CloseReliable;
    CoordCallKeeps(cfg, s, call);
    var credits := AfterCall(CoordBulk(cfg), s.coord, call).1;
    assert [] + Announce(credits) == Announce(credits);
    assert Commanded(s, []) == s by { assert s.commands + [] == s.commands; }
    hide AfterCall, SenderInv, NetInv, GroupsFit, AllSent, AllIn, RetransFrom, Outs, Src, EndInv, SinkInv, Ledger, NacksSent;
  }

  /** Answering an end request: the cursor has passed the final number, so everything was delivered. */
  lemma SinkFinishesKeeps(cfg: Config, s: Sys)
    requires Inv(cfg, s) && EndReached(RecvStateOf(s))
    ensures Inv(cfg, AfterRecv(s, Finish(RecvConfigOf(cfg), RecvStateOf(s))))
  {
    hide Inv, AfterRecv, SignalEof, Finish, RecvConfigOf, RecvStateOf, EndReached;
    EndReachedDelivered(cfg, s);
    SinkEofKeeps(cfg, s.(pendingEnd := None, answered := s.answered + 1));
    FinishIsEof(cfg, s);
  }

  lemma FinishIsEof(cfg: Config, s: Sys)
    requires EndReached(RecvStateOf(s))
    ensures var t := s.(pendingEnd := None, answered := s.answered + 1);
            AfterRecv(s, Finish(RecvConfigOf(cfg), RecvStateOf(s))) == AfterRecv(t, SignalEof(RecvConfigOf(cfg),
                RecvStateOf(t)))
  {
    var reply := s.pendingEnd.value.reply;
    hide AfterCall, Announce, CreditsInCommands, EndReached;
    var t := s.(pendingEnd := None, answered := s.answered + 1);
    var r := SignalEof(RecvConfigOf(cfg), RecvStateOf(t));
    FinishIs(cfg, s, t, r, reply);
    hide Finish, SignalEof, Commanded;
    CommandedFrame(s, t, r.commands);
  }

  lemma FinishIs(cfg: Config, s: Sys, t: Sys, r: RecvState, reply: nat)
    requires EndReached(RecvStateOf(s)) && reply == s.pendingEnd.value.reply
    requires t == s.(pendingEnd := None, answered := s.answered + 1)
    requires r == SignalEof(RecvConfigOf(cfg), RecvStateOf(t))
    ensures Finish(RecvConfigOf(cfg), RecvStateOf(s)) == r.(replies := [reply]) && r.replies == []
  {
    hide AfterCall, Announce, EndReached;
    assert [] + [reply] == [reply];
  }

  lemma CommandedFrame(s: Sys, t: Sys, commands: seq<SenderCommand>)
    requires t == s.(pendingEnd := None, answered := s.answered + 1)
    ensures Commanded(t, commands) == Commanded(s, commands).(pendingEnd := None, answered := s.answered + 1)
    ensures Commanded(s, commands).answered == s.answered
  {
    hide CreditsInCommands;
  }

  lemma EndReachedDelivered(cfg: Config, s: Sys)
    requires Inv(cfg, s) && EndReached(RecvStateOf(s))
    ensures Inv(cfg, s.(pendingEnd := None, answered := s.answered + 1))
  {
    assert s.deque.cursor == |s.delivered|;
    hide SenderInv, NetInv, GroupsFit, AllSent, AllIn, RetransFrom, Outs, Src, SinkInv, Ledger, NacksSent, FinalOf;
  }

  lemma SinkTakesEndKeeps(cfg: Config, s: Sys)
    requires Inv(cfg, s) && s.endRequests != []
    ensures Inv(cfg, s.(pendingEnd := Some(s.endRequests[0]), endRequests := s.endRequests[1..]))
  {
    hide SenderInv, NetInv, GroupsFit, AllSent, AllIn, RetransFrom, Outs, Src, SinkInv, Ledger, NacksSent, FinalOf;
  }

  /** The deque after one genuine packet, and what the NACK and the reads are. */
  lemma PacketKeepsSink(cfg: Config, outs: seq<Packet>, d: Deque, delivered: seq<Packet>, coord: Coord, p: Packet)
    requires SinkInv(cfg, outs, d, delivered, coord) && Numbered(outs)
    requires Genuine(p, outs) && Guard(cfg.variant, cfg.cap, d, p.seqno)
    ensures var pushed := Pushed(cfg.variant, cfg.cap, d, p);
            var (e, packets) := Drained(pushed);
            var (c, credits) := AfterCall(CoordBulk(cfg), coord, RecordReliable(|packets|));
            && SinkInv(cfg, outs, e, delivered + packets, c)
            && c.lastEmitted == coord.lastEmitted + credits
            && AllBelow(MissingFrom(pushed, 0), |outs|)
  {
    var pushed := Pushed(cfg.variant, cfg.cap, d, p);
    var (e, packets) := Drained(pushed);
    PushKeepsGood(cfg.variant, cfg.cap, d, delivered, p, outs);
    hide Pushed;
    ReadKeepsGood(pushed, delivered, outs);
    MissingIsBelow(pushed, delivered, outs);
    hide Drained, MissingFrom;
    var call := RecordReliable(|packets|);
    CallKeepsCoordInv(CoordBulk(cfg), coord, call);
    CallCounts(CoordBulk(cfg), coord, call);
    hide AfterCall, CoordInv, Numbered, AllBelow, Genuine;
  }

  lemma MissingIsBelow(d: Deque, delivered: seq<Packet>, outs: seq<Packet>)
    requires Numbered(outs) && Good(d, delivered, outs)
    ensures AllBelow(MissingFrom(d, 0), |outs|)
  {
    GoodIsBounded(d, delivered, outs);
    MissingFromLists(d, 0);
    var m := MissingFrom(d, 0);
    forall i | 0 <= i < |m|
      ensures m[i] < |outs|
    {
      assert m[i] in MissingFrom(d, 0);
    }
  }

  function HandedOut(s: Sys, d: Deque, packets: seq<Packet>, c: Coord, commands: seq<SenderCommand>): Sys
    requires s.reliableQueue != []
  {
    Commanded(s, commands).(deque := d, coord := c, reliableQueue := s.reliableQueue[1..],
        delivered := s.delivered + packets)
  }

  lemma SinkReadIs(cfg: Config, s: Sys)
    requires s.reliableQueue != []
    ensures var pushed := Pushed(cfg.variant, cfg.cap, s.deque, s.reliableQueue[0]);
            var (e, packets) := Drained(pushed);
            var (c, credits) := AfterCall(CoordBulk(cfg), s.coord, RecordReliable(|packets|));
            SinkRead(cfg, s) == HandedOut(s, e, packets, c, NackCommand(MissingFrom(pushed, 0)) + Announce(credits))
  {
    hide Pushed, Drained, MissingFrom, AfterCall, NackCommand, Announce, CreditsInCommands;
    var pushed := Pushed(cfg.variant, cfg.cap, s.deque, s.reliableQueue[0]);
    var (e, packets) := Drained(pushed);
    var (c, credits) := AfterCall(CoordBulk(cfg), s.coord, RecordReliable(|packets|));
    var nack := NackCommand(MissingFrom(pushed, 0));
    assert [] + nack + Announce(credits) == nack + Announce(credits);
  }

  lemma HandedOutKeeps(cfg: Config, s: Sys, d: Deque, packets: seq<Packet>, c: Coord, commands: seq<SenderCommand>)
    requires Inv(cfg, s) && s.reliableQueue != []
    requires SinkInv(cfg, Outs(cfg, s.items, s.done), d, s.delivered + packets, c)
    requires c.lastEmitted == s.coord.lastEmitted + CreditsInCommands(commands) && NacksSent(s.done, commands, [])
    ensures Inv(cfg, HandedOut(s, d, packets, c, commands))
  {
    QueueHead(cfg, s);
    hide SenderInv, NetInv, GroupsFit, AllSent, AllIn, RetransFrom, Outs, Src, SinkInv;
    CommandedKeeps(cfg, s, commands, c.lastEmitted);
    hide Commanded, Ledger, NacksSent;
  }

  lemma SinkReadKeeps(cfg: Config, s: Sys)
    requires Inv(cfg, s) && s.reliableQueue != [] && Guard(cfg.variant, cfg.cap, s.deque, s.reliableQueue[0].seqno)
    ensures Inv(cfg, SinkRead(cfg, s))
  {
    hide Inv, Outs, Pushed, Drained, MissingFrom, AfterCall, SinkRead, HandedOut, Genuine, Guard, SinkInv, AllSent,
        CreditsInCommands, Announce, AllBelow, Numbered;
    QueueHead(cfg, s);
    SinkOf(cfg, s);
    var outs, p := Outs(cfg, s.items, s.done), s.reliableQueue[0];
    PacketKeepsSink(cfg, outs, s.deque, s.delivered, s.coord, p);
    SinkReadIs(cfg, s);
    var pushed := Pushed(cfg.variant, cfg.cap, s.deque, p);
    var (e, packets) := Drained(pushed);
    var nack := NackCommand(MissingFrom(pushed, 0));
    var (c, credits) := AfterCall(CoordBulk(cfg), s.coord, RecordReliable(|packets|));
    AnnounceCredits(nack, credits);
    NackIsBelow(MissingFrom(pushed, 0), credits, s.done);
    hide NackCommand, NacksSent;
    HandedOutKeeps(cfg, s, e, packets, c, nack + Announce(credits));
  }

  lemma NackIsBelow(missing: seq<u32>, credits: nat, done: nat)
    requires AllBelow(missing, done)
    ensures NacksSent(done, NackCommand(missing) + Announce(credits), [])
  {
    hide AllBelow;
  }

  lemma SinkReadsKeeps(cfg: Config, s: Sys)
    requires Inv(cfg, s) && s.reliableQueue != [] && ReadGuard(cfg, s, SinkReads)
    ensures s.reliableDropped ==> Inv(cfg, s.(reliableQueue := s.reliableQueue[1..]))
    ensures !s.reliableDropped ==> Inv(cfg, SinkRead(cfg, s))
  {
    hide Inv, SinkRead, Guard;
    if s.reliableDropped {
      QueueTailKeeps(cfg, s);
    } else {
      SinkReadKeeps(cfg, s);
    }
  }

  lemma QueueTailKeeps(cfg: Config, s: Sys)
    requires Inv(cfg, s) && s.reliableQueue != []
    ensures Inv(cfg, s.(reliableQueue := s.reliableQueue[1..]))
  {
    QueueHead(cfg, s);
    hide SenderInv, NetInv, GroupsFit, AllSent, AllIn, RetransFrom, Outs, Src, EndInv, SinkInv, Ledger, NacksSent;
  }

  lemma SinkOf(cfg: Config, s: Sys)
    requires Inv(cfg, s)
    ensures Bounded(s.items, s.done)
    ensures var outs := Outs(cfg, s.items, s.done);
            |outs| == s.done && Numbered(outs) && SinkInv(cfg, outs, s.deque, s.delivered, s.coord)
  {
    OutsNumbered(cfg, s.items, s.done);
    assert Bounded(s.items, s.done);
    hide SenderInv, NetInv, GroupsFit, AllSent, AllIn, RetransFrom, Outs, Src, EndInv, SinkInv, Ledger, NacksSent, Numbered;
  }

  // ---------------------------------------------------------------- the receiver's task

  /** An event of the receiver's task: what leaves is the sink's command, a request or an answer to one,
      and an acknowledgement only for an answered end or for an empty transfer. */
  ghost predicate ReceiverSays(cfg: Config, ev: Event, t: Task, fx: Effects) {
    && t.role == ReceiverRole(true, 0)
    && NoStart(fx.written)
    && (forall i :: 0 <= i < |fx.written| && fx.written[i].NackMessage? ==>
          ev.FromSink? && ev.command == Nack(fx.written[i].sequenceNumbers))
    && (TransferEndAck in fx.written ==>
          ev.SendTransferEndAck? || (ev.FromPeer? && ev.message.TransferEnd?
            && IsEmptyTransfer(0, ev.message.finalSequenceNumber)))
    && (fx.forwarded.Some? ==>
          ev == FromPeer(TransferEnd(fx.forwarded.value)) && !IsEmptyTransfer(0, fx.forwarded.value))
    && (fx.injected.Some? ==>
          ev.FromPeer? && ev.message.Retrans?
          && fx.injected.value == Packet(cfg.id, ev.message.sequenceNumber, ev.message.timestamp, ev.message.content))
    && (!ev.FromPeer? ==>
          CreditsInFrames(fx.written) == if ev.FromSink? && fx.written != [] then CreditsInCommands([ev.command]) else 0)
  }

  lemma OneFrame(env: Env, m: ManiMessage)
    ensures WrittenOf(env, [m]) == if env.writes >= 1 then [m] else []
    ensures CreditsInFrames([m]) == if m.CreditsUpdate? then m.additionalCredits else 0
  {
    assert [m][..0] == [];
    assert CreditsInFrames([m]) == CreditsInFrames([]) + if m.CreditsUpdate? then m.additionalCredits else 0;
  }

  lemma NoFrames()
    ensures CreditsInFrames([]) == 0
  {
  }

  lemma OneCommand(c: SenderCommand)
    ensures CreditsInCommands([c]) == if c.UpdateCredits? then c.additionalCredits else 0
  {
    assert [c][..0] == [];
    assert CreditsInCommands([c]) == CreditsInCommands([]) + if c.UpdateCredits? then c.additionalCredits else 0;
  }

  lemma ReceiverHandlesMessage(cfg: Config, t: Task, m: ManiMessage, env: Env)
    requires t.role == ReceiverRole(true, 0) && !m.TransferStart?
    ensures var (after, fx) := OnMessage(TaskConfig(cfg.id, cfg.bulk), map[], t, env, m);
            ReceiverSays(cfg, FromPeer(m), after, fx)
  {
    OneFrame(env, TransferEndAck);
    OneFrame(env, CreditsUpdate(cfg.bulk));
    hide WrittenOf, IsEmptyTransfer, Retransmissions, CreditsInFrames, CreditsInCommands;
  }

  lemma ReceiverHandles(cfg: Config, t: Task, ev: Event, env: Env)
    requires t.role == ReceiverRole(true, 0) && Enabled(t, ev)
    requires Local(ev) || ev.SendTransferEndAck? || ev.FromSink? || (ev.FromPeer? && !ev.message.TransferStart?)
    ensures var (after, fx) := TakeStep(TaskConfig(cfg.id, cfg.bulk), map[], t, ev, env); ReceiverSays(cfg, ev, after, fx)
  {
    OneFrame(env, TransferEndAck);
    OneFrame(env, CreditsRequest);
    NoFrames();
    hide WrittenOf, IsEmptyTransfer, CreditsInFrames, CreditsInCommands, OnEndTransfer, OnMessage;
    match ev
    case FromSink(c) =>
      OneFrame(env, CommandFrame(c));
      OneCommand(c);
    case FromPeer(m) => ReceiverHandlesMessage(cfg, t, m, env);
    case SendPayload(payload) => OneFrame(env, PayloadMessage(payload));
    case _ =>
  }

  /** The end-of-transfer ledger after an event of the receiver's task. */
  lemma EndAfterReceiver(s: Sys, cfg: Config, ev: Event, t: Task, fx: Effects, rest: seq<ManiMessage>, answered: nat)
    requires EndInv(s.ended, s.done, s.toReceiver, s.endRequests, s.pendingEnd, s.answered, s.toSender, s.acked,
        |s.delivered|)
    requires ReceiverSays(cfg, ev, t, fx) && answered <= s.answered
    requires rest == s.toReceiver || (s.toReceiver != [] && rest == s.toReceiver[1..])
    requires ev.FromPeer? ==> s.toReceiver != [] && ev.message == s.toReceiver[0]
    requires ev.SendTransferEndAck? ==> s.answered > 0
    ensures var u := ReceiverShows(s, t, fx);
            EndInv(s.ended, s.done, rest, u.endRequests, s.pendingEnd, answered, u.toSender, s.acked, |s.delivered|)
  {
    hide CreditsInFrames, CreditsInCommands, NoStart;
    assert TransferEndAck in s.toSender + fx.written ==> TransferEndAck in s.toSender || TransferEndAck in fx.written;
  }

  lemma NacksAfterReceiver(s: Sys, cfg: Config, ev: Event, t: Task, fx: Effects, commands: seq<SenderCommand>)
    requires NacksSent(s.done, s.commands, s.toSender) && NoStart(s.toSender) && ReceiverSays(cfg, ev, t, fx)
    requires commands == s.commands || (s.commands != [] && commands == s.commands[1..])
    requires ev.FromSink? ==> s.commands != [] && ev.command == s.commands[0]
    ensures NacksSent(s.done, commands, s.toSender + fx.written) && NoStart(s.toSender + fx.written)
  {
    hide CreditsInFrames, CreditsInCommands, AllBelow;
  }

  lemma DatagramsAfterReceiver(s: Sys, cfg: Config, ev: Event, t: Task, fx: Effects, rest: seq<ManiMessage>)
    requires RetransFrom(cfg.id, s.toReceiver, s.pool) && AllIn(s.datagrams, s.pool) && NoStart(s.toReceiver)
    requires ReceiverSays(cfg, ev, t, fx)
    requires rest == s.toReceiver || (s.toReceiver != [] && rest == s.toReceiver[1..])
    requires ev.FromPeer? ==> s.toReceiver != [] && ev.message == s.toReceiver[0]
    ensures RetransFrom(cfg.id, rest, s.pool) && NoStart(rest)
    ensures AllIn(s.datagrams + OptionSeq(fx.injected), s.pool)
  {
    hide CreditsInFrames, CreditsInCommands, IsEmptyTransfer;
  }

  lemma ReceiverNextKeeps(cfg: Config, s: Sys, ev: Event, t: Task, fx: Effects, commands: seq<SenderCommand>, lost: nat,
                          rest: seq<ManiMessage>, solicited: nat, answered: nat)
    requires Inv(cfg, s) && ReceiverSays(cfg, ev, t, fx)
    requires commands == s.commands || (s.commands != [] && commands == s.commands[1..])
    requires ev.FromSink? ==> s.commands != [] && ev.command == s.commands[0]
    requires rest == s.toReceiver || (s.toReceiver != [] && rest == s.toReceiver[1..])
    requires ev.FromPeer? ==> s.toReceiver != [] && ev.message == s.toReceiver[0]
    requires answered <= s.answered && (ev.SendTransferEndAck? ==> s.answered > 0)
    requires CreditsInFrames(fx.written) + CreditsInCommands(commands) + lost + s.solicited
             == CreditsInCommands(s.commands) + s.lost + solicited
    ensures Inv(cfg, ReceiverNext(s, t, fx, commands, lost, rest, solicited, answered))
  {
    hide SenderInv, NetInv, GroupsFit, AllSent, SinkInv, AllIn, RetransFrom, Outs, Src;
    EndAfterReceiver(s, cfg, ev, t, fx, rest, answered);
    NacksAfterReceiver(s, cfg, ev, t, fx, commands);
    DatagramsAfterReceiver(s, cfg, ev, t, fx, rest);
    FramesAppend(s.toSender, fx.written);
    hide EndInv, NacksSent;
  }

  lemma ReceiverFacts(cfg: Config, s: Sys)
    requires Inv(cfg, s)
    ensures s.receiverTask.role == ReceiverRole(true, 0)
    ensures s.toReceiver != [] ==> !s.toReceiver[0].TransferStart?
  {
    hide SenderInv, NetInv, GroupsFit, AllSent, SinkInv, AllIn, RetransFrom, Outs, Src, EndInv, NacksSent, Ledger;
  }

  lemma ReceiverTaskKeeps(cfg: Config, s: Sys, ev: Event, env: Env)
    requires Inv(cfg, s) && Can(cfg, s, ReceiverTask(ev, env))
    ensures Inv(cfg, After(cfg, s, ReceiverTask(ev, env)))
  {
    hide Inv, TakeStep;
    ReceiverFacts(cfg, s);
    ReceiverHandles(cfg, s.receiverTask, ev, env);
    var (t, fx) := TakeStep(TaskConfig(cfg.id, cfg.bulk), map[], s.receiverTask, ev, env);
    ReceiverNextKeeps(cfg, s, ev, t, fx, s.commands, s.lost, s.toReceiver, s.solicited, s.answered);
  }

  lemma ReceiverSendsKeeps(cfg: Config, s: Sys, env: Env)
    requires Inv(cfg, s) && Can(cfg, s, ReceiverSends(env))
    ensures Inv(cfg, After(cfg, s, ReceiverSends(env)))
  {
    hide Inv, TakeStep;
    ReceiverFacts(cfg, s);
    var ev := FromSink(s.commands[0]);
    ReceiverHandles(cfg, s.receiverTask, ev, env);
    CommandsHead(s.commands);
    assert s.commands[..1] == [s.commands[0]];
    var (t, fx) := TakeStep(TaskConfig(cfg.id, cfg.bulk), map[], s.receiverTask, ev, env);
    var lost := if fx.written == [] then s.lost + CreditsInCommands(s.commands[..1]) else s.lost;
    ReceiverNextKeeps(cfg, s, ev, t, fx, s.commands[1..], lost, s.toReceiver, s.solicited, s.answered);
  }

  lemma ReceiverReadsKeeps(cfg: Config, s: Sys, env: Env)
    requires Inv(cfg, s) && Can(cfg, s, ReceiverReads(env))
    ensures Inv(cfg, After(cfg, s, ReceiverReads(env)))
  {
    hide Inv, TakeStep;
    ReceiverFacts(cfg, s);
    var ev := FromPeer(s.toReceiver[0]);
    ReceiverHandles(cfg, s.receiverTask, ev, env);
    var (t, fx) := TakeStep(TaskConfig(cfg.id, cfg.bulk), map[], s.receiverTask, ev, env);
    ReceiverNextKeeps(cfg, s, ev, t, fx, s.commands, s.lost, s.toReceiver[1..],
        s.solicited + CreditsInFrames(fx.written), s.answered);
  }

  lemma ReceiverAcksKeeps(cfg: Config, s: Sys, env: Env)
    requires Inv(cfg, s) && Can(cfg, s, ReceiverAcks(env))
    ensures Inv(cfg, After(cfg, s, ReceiverAcks(env)))
  {
    hide Inv, TakeStep;
    ReceiverFacts(cfg, s);
    ReceiverHandles(cfg, s.receiverTask, SendTransferEndAck, env);
    var (t, fx) := TakeStep(TaskConfig(cfg.id, cfg.bulk), map[], s.receiverTask, SendTransferEndAck, env);
    ReceiverNextKeeps(cfg, s, SendTransferEndAck, t, fx, s.commands, s.lost, s.toReceiver, s.solicited, s.answered - 1);
  }

  /** A dropped sink's coordinator call, or the drop itself. */
  lemma SinkGoneKeeps(cfg: Config, s: Sys)
    requires Inv(cfg, s)
    ensures Inv(cfg, s.(reliableDropped := true))
    ensures Inv(cfg, s.(closedSignaled := true))
  {
    hide SenderInv, NetInv, GroupsFit, AllSent, SinkInv, AllIn, RetransFrom, Outs, Src, EndInv, NacksSent, Ledger;
  }

  // ---------------------------------------------------------------- every run

  lemma SinkStepKeeps(cfg: Config, s: Sys, a: Action)
    requires ValidConfig(cfg) && Inv(cfg, s) && Can(cfg, s, a) && ReadGuard(cfg, s, a)
    requires a.SinkReads? || a.SinkTakesEnd? || a.SinkFinishes? || a.SinkEof? || a.SinkDropped? || a.SinkCloses?
             || a.UnreliableReads? || a.UnreliableDrains? || a.UnreliableCloses?
    ensures Inv(cfg, After(cfg, s, a))
  {
    hide Inv, SinkRead, AfterRecv, SignalEof, Finish, AfterCoord, ReadGuard, EndReached;
    match a
    case SinkReads => SinkReadsKeeps(cfg, s);
    case SinkTakesEnd => SinkTakesEndKeeps(cfg, s);
    case SinkFinishes => SinkFinishesKeeps(cfg, s);
    case SinkEof => SinkEofKeeps(cfg, s);
    case SinkDropped => SinkGoneKeeps(cfg, s);
    case SinkCloses =>
      CoordCallKeeps(cfg, s, CloseReliable);
      SinkGoneKeeps(cfg, AfterCoord(cfg, s, CloseReliable));
    case UnreliableReads => UnreliableReadsKeeps(cfg, s);
    case UnreliableDrains => UnreliableReadsKeeps(cfg, s);
    case UnreliableCloses => CoordCallKeeps(cfg, s, CloseUnreliable);
  }

  lemma StepKeepsInv(cfg: Config, s: Sys, a: Action)
    requires ValidConfig(cfg) && Inv(cfg, s) && Can(cfg, s, a) && ReadGuard(cfg, s, a)
    ensures Inv(cfg, After(cfg, s, a))
  {
    hide Inv, Can, ReadGuard, ValidConfig, TakeStep, StartItem, Polled, Receive, Reassembled, SinkRead;
    match a
    case StartSend(ts, content) => StartSendKeeps(cfg, s, ts, content);
    case PollTheSend(accepted) => PollKeeps(cfg, s, accepted);
    case EndTheTransfer(env) => EndTheTransferKeeps(cfg, s, env);
    case HandleEndsTheTransfer(final, env) => HandleEndsKeeps(cfg, s, final, env);
    case SenderTask(ev, env) => SenderTaskKeeps(cfg, s, ev, env);
    case SenderReads(env) => SenderReadsKeeps(cfg, s, env);
    case SenderShutsDown => ShutdownKeeps(cfg, s);
    case Deliver(p) => DeliverKeeps(cfg, s, p);
    case Reassemble => ReassembleKeeps(cfg, s);
    case ReceiverTask(ev, env) => ReceiverTaskKeeps(cfg, s, ev, env);
    case ReceiverSends(env) => ReceiverSendsKeeps(cfg, s, env);
    case ReceiverReads(env) => ReceiverReadsKeeps(cfg, s, env);
    case ReceiverAcks(env) => ReceiverAcksKeeps(cfg, s, env);
    case _ => SinkStepKeeps(cfg, s, a);
  }

  lemma GuardHolds(cfg: Config, x: Execution, i: nat)
    requires Legal(cfg, x) && i < |x.actions|
    ensures ReadGuard(cfg, x.states[i], x.actions[i]) && StepAt(cfg, x, i)
  {
    hide StepAt;
    assert StepAt(cfg, x, i);
    if cfg.variant.Written? {
      assert GuardAt(cfg, x, i);
    }
  }

  /** The invariant holds at every point of a run: any actions, in any order, with any loss, duplication
      and failure. */
  lemma {:induction false} RunKeepsInv(cfg: Config, x: Execution, k: nat)
    requires Legal(cfg, x) && k <= |x.actions|
    ensures Inv(cfg, x.states[k])
  {
    hide Inv, Can, After, ReadGuard, ValidConfig;
    if k == 0 {
      InitInv(cfg);
    } else {
      RunKeepsInv(cfg, x, k - 1);
      GuardHolds(cfg, x, k - 1);
      StepKeepsInv(cfg, x.states[k - 1], x.actions[k - 1]);
    }
  }

  lemma AckedIsDelivered(cfg: Config, s: Sys)
    requires Inv(cfg, s)
    ensures s.acked ==> s.ended.Some? && s.ended.value <= |s.delivered|
  {
    hide SenderInv, NetInv, GroupsFit, AllSent, SinkInv, AllIn, RetransFrom, Outs, Src, NacksSent, Ledger;
  }
}
