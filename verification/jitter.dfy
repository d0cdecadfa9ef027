/** The playout state machine of the Opus jitter buffer (src/mani/transfer/jitter.rs). Decoding is left
    symbolic: an output names the timestamp it stands for and the frame it was decoded from. */
module Jitter {
  import opened Types

  datatype JitterConfig = JitterConfig(frameSize: u64, playoutDelay: u64)

  /** What `recv` under the stall watchdog returns. */
  datatype Input = Arrives(timestamp: u64, content: bytes) | Ends | TimesOut

  type FrameBuffer = map<u64, bytes>

  /** `inbox` is what `recv` is still going to return. */
  datatype JitterState = JitterState(buffer: FrameBuffer, nextPlayTs: Option<u64>, isEof: bool, inbox: seq<Input>)

  /** `Pcm` without content is concealment; `Waiting` is a pending future. */
  datatype Outcome = Pcm(at: u64, content: Option<bytes>) | NoMore | DecoderFailed | Stalled | Waiting

  ghost predicate IsLeast(s: set<u64>, m: u64) {
    m in s && forall x :: x in s ==> m <= x
  }

  ghost predicate IsMost(s: set<u64>, m: u64) {
    m in s && forall x :: x in s ==> x <= m
  }

  lemma {:induction false} BoundsExist(s: set<u64>) returns (least: u64, most: u64)
    requires s != {}
    ensures IsLeast(s, least) && IsMost(s, most)
    decreases |s|
  {
    var a: u64 :| a in s;
    least, most := a, a;
    if s != {a} {
      var lo, hi := BoundsExist(s - {a});
      forall x | x in s
        ensures x == a || lo <= x <= hi
      {
        assert x == a || x in s - {a};
      }
      least, most := if a <= lo then a else lo, if a <= hi then hi else a;
    }
  }

  lemma HasBounds(s: set<u64>)
    requires s != {}
    ensures exists m :: m in s && forall x :: x in s ==> m <= x
    ensures exists m :: m in s && forall x :: x in s ==> x <= m
  {
    var least, most := BoundsExist(s);
    assert least in s && most in s;
  }

  function FirstKey(s: set<u64>): (m: u64)
    requires s != {}
    ensures m in s && forall x :: x in s ==> m <= x
  {
    HasBounds(s);
    var m: u64 :| m in s && forall x :: x in s ==> m <= x;
    m
  }

  /** The greatest buffered timestamp, 0 when there is none. */
  function LastKeyOr0(s: set<u64>): (m: u64)
    ensures s == {} ==> m == 0
    ensures s != {} ==> m in s
    ensures forall x :: x in s ==> x <= m
  {
    if s == {} then 0 else
    HasBounds(s);
    var m: u64 :| m in s && forall x :: x in s ==> x <= m;
    m
  }

  function Advance(cfg: JitterConfig, at: u64): u64 {
    (at + cfg.frameSize) % TWO64
  }

  /** One turn of the loop in `yield_pcm`. */
  datatype Turn = Return(state: JitterState, outcome: Outcome) | Again(state: JitterState)

  predicate FarAhead(cfg: JitterConfig, buffer: FrameBuffer, at: u64) {
    var max := LastKeyOr0(buffer.Keys);
    (if max >= at then max - at else 0) >= cfg.playoutDelay
  }

  function OnInput(st: JitterState): Turn {
    if st.inbox == [] then Return(st, Waiting) else
    var rest := st.(inbox := st.inbox[1..]);
    match st.inbox[0]
    case TimesOut => Return(rest, Stalled)
    case Arrives(ts, content) =>
      Again(rest.(nextPlayTs := if st.nextPlayTs == None then Some(ts) else st.nextPlayTs,
          buffer := st.buffer[ts := content]))
    case Ends =>
      if st.nextPlayTs == None then Return(rest.(isEof := true), NoMore) else Again(rest.(isEof := true))
  }

  function Iterate(cfg: JitterConfig, st: JitterState, decodes: bool): Turn {
    if st.nextPlayTs == None then OnInput(st) else
    var at := st.nextPlayTs.value;
    if at in st.buffer then
      var rest := st.(buffer := st.buffer - {at});
      if decodes then Return(rest.(nextPlayTs := Some(Advance(cfg, at))), Pcm(at, Some(st.buffer[at])))
      else Return(rest, DecoderFailed)
    else if st.isEof then
      if st.buffer == map[] then Return(st, NoMore)
      else Again(st.(nextPlayTs := Some(FirstKey(st.buffer.Keys))))
    else if FarAhead(cfg, st.buffer, at) then
      if decodes then Return(st.(nextPlayTs := Some(Advance(cfg, at))), Pcm(at, None)) else Return(st, DecoderFailed)
    else OnInput(st)
  }

  /** A skip to a buffered frame is due. */
  predicate MustSkip(st: JitterState) {
    st.isEof && st.nextPlayTs.Some? && st.nextPlayTs.value !in st.buffer && st.buffer != map[]
  }

  function Yield(cfg: JitterConfig, st: JitterState, decodes: bool): (JitterState, Outcome)
    decreases |st.inbox|, MustSkip(st)
  {
    match Iterate(cfg, st, decodes)
    case Return(after, outcome) => (after, outcome)
    case Again(after) => Yield(cfg, after, decodes)
  }

  class OpusJitterBuffer {
    const config: JitterConfig
    var buffer: FrameBuffer
    var nextPlayTs: Option<u64>
    var isEof: bool
    /** The unreliable sink it reads from. */
    var inbox: seq<Input>

    constructor (config: JitterConfig, inbox: seq<Input>)
      ensures this.config == config && Value() == Fresh(inbox)
    {
      this.config := config;
      buffer, nextPlayTs, isEof, this.inbox := map[], None, false, inbox;
    }

    function Value(): JitterState
      reads this
    {
      JitterState(buffer, nextPlayTs, isEof, inbox)
    }

    method YieldPcm(decodes: bool) returns (r: Outcome)
      modifies this
      ensures (Value(), r) == Yield(config, old(Value()), decodes)
    {
      while true
        invariant Yield(config, Value(), decodes) == Yield(config, old(Value()), decodes)
        decreases |inbox|, MustSkip(Value())
      {
        if nextPlayTs.Some? {
          var at := nextPlayTs.value;
          if at in buffer {
            var chunk := buffer[at];
            buffer := buffer - {at};
            if !decodes {
              return DecoderFailed;
            }
            nextPlayTs := Some(Advance(config, at));
            return Pcm(at, Some(chunk));
          } else if isEof {
            if buffer == map[] {
              return NoMore;
            }
            nextPlayTs := Some(FirstKey(buffer.Keys));
            continue;
          } else if FarAhead(config, buffer, at) {
            if !decodes {
              return DecoderFailed;
            }
            nextPlayTs := Some(Advance(config, at));
            return Pcm(at, None);
          }
        }
        if inbox == [] {
          return Waiting;
        }
        var input := inbox[0];
        inbox := inbox[1..];
        match input {
          case TimesOut => return Stalled;
          case Arrives(ts, content) =>
            if nextPlayTs == None {
              nextPlayTs := Some(ts);
            }
            buffer := buffer[ts := content];
          case Ends =>
            isEof := true;
            if nextPlayTs == None {
              return NoMore;
            }
        }
      }
    }
  }

  function Fresh(inbox: seq<Input>): JitterState {
    JitterState(map[], None, false, inbox)
  }

  /** The state after one call for each of `fates`, which says whether the decoder succeeds if it is
      used, and the outcomes. */
  function Calls(cfg: JitterConfig, st: JitterState, fates: seq<bool>): (JitterState, seq<Outcome>) {
    if fates == [] then (st, []) else
    var (before, outs) := Calls(cfg, st, fates[..|fates| - 1]);
    var (after, o) := Yield(cfg, before, fates[|fates| - 1]);
    (after, outs + [o])
  }

  /** How many of the outcomes are outputs. */
  function Outputs(outs: seq<Outcome>): nat {
    if outs == [] then 0 else Outputs(outs[..|outs| - 1]) + if outs[|outs| - 1].Pcm? then 1 else 0
  }

  /** Whether the decoder has failed since the last output. */
  function FailedHere(outs: seq<Outcome>): bool {
    outs != [] && !outs[|outs| - 1].Pcm? && (outs[|outs| - 1].DecoderFailed? || FailedHere(outs[..|outs| - 1]))
  }

  // ---------------------------------------------------------------- before the end of the stream

  /** The latest frame of each timestamp. */
  function Received(inputs: seq<Input>): FrameBuffer {
    if inputs == [] then map[] else
    var rest := Received(inputs[..|inputs| - 1]);
    match inputs[|inputs| - 1]
    case Arrives(ts, content) => rest[ts := content]
    case _ => rest
  }

  /** The timestamp of the first frame. */
  function FirstTs(inputs: seq<Input>): Option<u64> {
    if inputs == [] then None else
    var first := FirstTs(inputs[..|inputs| - 1]);
    if first == None && inputs[|inputs| - 1].Arrives? then Some(inputs[|inputs| - 1].timestamp) else first
  }

  /** No timestamp so late that the play point could wrap. */
  ghost predicate Fits(cfg: JitterConfig, inputs: seq<Input>) {
    forall i :: 0 <= i < |inputs| && inputs[i].Arrives? ==> inputs[i].timestamp + cfg.frameSize < TWO64
  }

  /** Before the end: the play point is where the `k`th output belongs, at most one frame past the
      highest timestamp, and from it on the buffer is what was received; except that a frame for the
      play point itself may be gone if the decoder `failed` there. */
  ghost predicate Playing(cfg: JitterConfig, inputs: seq<Input>, st: JitterState, k: nat, failed: bool) {
    var got := Received(inputs);
    && !st.isEof && (forall i :: 0 <= i < |inputs| ==> !inputs[i].Ends?)
    && (st.nextPlayTs == None <==> FirstTs(inputs) == None)
    && (st.nextPlayTs == None ==> k == 0 && got == map[] && st.buffer == map[])
    && (st.nextPlayTs.Some? ==>
          var at := st.nextPlayTs.value;
          && at == FirstTs(inputs).value + k * cfg.frameSize
          && got.Keys != {} && FirstTs(inputs).value in got.Keys
          && at <= LastKeyOr0(got.Keys) + (if k == 0 then 0 else cfg.frameSize)
          && st.buffer.Keys <= got.Keys && Covers(got, st.buffer, at, failed))
  }

  /** The buffer holds what was received from the play point on. */
  ghost predicate Covers(got: FrameBuffer, buffer: FrameBuffer, at: u64, failed: bool) {
    && (forall t {:trigger t in buffer} :: at <= t && t in buffer ==> t in got && buffer[t] == got[t])
    && (forall t {:trigger t in got} :: at <= t && t in got && (t == at ==> !failed) ==> t in buffer)
  }

  /** The highest timestamp received. */
  function Highest(inputs: seq<Input>): u64 {
    LastKeyOr0(Received(inputs).Keys)
  }

  /** An outcome at position `k` given everything received by then: the frame for that position if it has
      arrived, concealment only if it has not, or the decoder failed on it, and a frame `playoutDelay` or
      more ahead has arrived; without output while neither holds. */
  ghost predicate Right(cfg: JitterConfig, inputs: seq<Input>, k: nat, failed: bool, o: Outcome) {
    var got := Received(inputs);
    FirstTs(inputs).Some? ==>
      var at := FirstTs(inputs).value + k * cfg.frameSize;
      match o
      case Pcm(stands, Some(content)) => stands == at && at in got && content == got[at]
      case Pcm(stands, None) => stands == at && (at !in got.Keys || failed) && Highest(inputs) >= at + cfg.playoutDelay
      case NoMore => false
      case DecoderFailed => at in got.Keys || Highest(inputs) >= at + cfg.playoutDelay
      case _ => (at !in got.Keys || failed) && Highest(inputs) < at + cfg.playoutDelay
  }

  lemma FarAheadIs(cfg: JitterConfig, got: FrameBuffer, buffer: FrameBuffer, at: u64, failed: bool)
    requires 1 <= cfg.playoutDelay && got != map[] && Covers(got, buffer, at, failed)
    ensures FarAhead(cfg, buffer, at) <==> LastKeyOr0(got.Keys) >= at + cfg.playoutDelay
  {
    var high, max := LastKeyOr0(got.Keys), LastKeyOr0(buffer.Keys);
    assert high in got;
    if high > at {
      assert high in buffer.Keys;
    }
    if max in buffer.Keys && max >= at {
      assert max in got.Keys;
    }
  }

  lemma ArrivalGrows(inputs: seq<Input>, input: Input)
    ensures Received(inputs + [input]) ==
            if input.Arrives? then Received(inputs)[input.timestamp := input.content] else Received(inputs)
    ensures FirstTs(inputs + [input]) ==
            if FirstTs(inputs) == None && input.Arrives? then Some(input.timestamp) else FirstTs(inputs)
  {
    assert (inputs + [input])[..|inputs|] == inputs;
  }

  /** One more input while waiting. */
  lemma InputKeepsPlaying(cfg: JitterConfig, inputs: seq<Input>, st: JitterState, k: nat, failed: bool)
    requires Playing(cfg, inputs, st, k, failed) && st.inbox != []
    ensures var turn := OnInput(st);
            turn.state.inbox == st.inbox[1..]
            && (!st.inbox[0].Ends? ==> Playing(cfg, inputs + [st.inbox[0]], turn.state, k, failed))
            && (st.inbox[0].Ends? ==> turn.state.isEof)
  {
    var input := st.inbox[0];
    ArrivalGrows(inputs, input);
    if input.Arrives? {
      var got, more := Received(inputs), Received(inputs)[input.timestamp := input.content];
      assert more.Keys == got.Keys + {input.timestamp};
    }
  }

  /** One output, or one failure of the decoder. */
  lemma OutputKeepsPlaying(cfg: JitterConfig, inputs: seq<Input>, st: JitterState, k: nat, failed: bool, decodes: bool)
    requires 1 <= cfg.frameSize && 1 <= cfg.playoutDelay
    requires Playing(cfg, inputs, st, k, failed) && st.nextPlayTs.Some? && Highest(inputs) + cfg.frameSize < TWO64
    requires st.nextPlayTs.value in st.buffer || FarAhead(cfg, st.buffer, st.nextPlayTs.value)
    ensures var turn := Iterate(cfg, st, decodes);
            && turn.Return? && turn.state.inbox == st.inbox && Right(cfg, inputs, k, failed, turn.outcome)
            && (if decodes then turn.outcome.Pcm? && Playing(cfg, inputs, turn.state, k + 1, false)
                else turn.outcome == DecoderFailed && Playing(cfg, inputs, turn.state, k, true))
  {
    hide Covers, LastKeyOr0, Received, FirstTs, FarAhead;
    var at, got := st.nextPlayTs.value, Received(inputs);
    FarAheadIs(cfg, got, st.buffer, at, failed);
    assert at <= Highest(inputs);
    CoversLater(cfg, got, st.buffer, at, failed);
    if decodes {
      NextPoint(k, cfg.frameSize);
      PlayingNext(cfg, inputs, st, st.(buffer := st.buffer - {at}, nextPlayTs := Some(Advance(cfg, at))), k, failed);
      PlayingNext(cfg, inputs, st, st.(nextPlayTs := Some(Advance(cfg, at))), k, failed);
    }
  }

  lemma PlayingNext(cfg: JitterConfig, inputs: seq<Input>, st: JitterState, next: JitterState, k: nat, failed: bool)
    requires 1 <= cfg.frameSize && Playing(cfg, inputs, st, k, failed) && st.nextPlayTs.Some?
    requires next.nextPlayTs == Some(Advance(cfg, st.nextPlayTs.value)) && !next.isEof && next.buffer.Keys <= st.buffer.Keys
    requires st.nextPlayTs.value <= Highest(inputs) && Highest(inputs) + cfg.frameSize < TWO64
    requires Covers(Received(inputs), next.buffer, Advance(cfg, st.nextPlayTs.value), false)
    ensures Playing(cfg, inputs, next, k + 1, false)
  {
    hide Covers, LastKeyOr0, Received, FirstTs;
    NextPoint(k, cfg.frameSize);
  }

  lemma NextPoint(k: nat, f: nat)
    ensures (k + 1) * f == k * f + f
  {
  }

  lemma CoversLater(cfg: JitterConfig, got: FrameBuffer, buffer: FrameBuffer, at: u64, failed: bool)
    requires 1 <= cfg.frameSize && at + cfg.frameSize < TWO64 && Covers(got, buffer, at, failed)
    ensures Covers(got, buffer - {at}, at + cfg.frameSize, false) && Covers(got, buffer, at + cfg.frameSize, false)
    ensures Covers(got, buffer - {at}, at, true) && Covers(got, buffer, at, true)
    ensures at in buffer ==> at in got && buffer[at] == got[at]
    ensures at !in buffer ==> at !in got.Keys || failed
  {
  }

  /** What a call that returned `o` took off the stream: no end; a timeout exactly if it stalled, and then
      last; and all there was if it is still waiting. */
  ghost predicate Consumed(o: Outcome, taken: seq<Input>, rest: seq<Input>) {
    && (forall i :: 0 <= i < |taken| ==> !taken[i].Ends? && (taken[i].TimesOut? ==> o == Stalled && i == |taken| - 1))
    && (o == Stalled ==> taken != [] && taken[|taken| - 1] == TimesOut)
    && (o == Waiting ==> rest == [])
  }

  lemma ConsumedMore(o: Outcome, input: Input, taken: seq<Input>, rest: seq<Input>)
    requires input.Arrives? && Consumed(o, taken, rest)
    ensures Consumed(o, [input] + taken, rest)
  {
  }

  /** What the flags become after an outcome. */
  function Next(k: nat, o: Outcome): nat {
    if o.Pcm? then k + 1 else k
  }

  function StillFailed(failed: bool, o: Outcome): bool {
    !o.Pcm? && (o.DecoderFailed? || failed)
  }

  /** One call, from a state that has taken `inputs` off the stream. */
  lemma {:induction false} YieldIsRight(cfg: JitterConfig, inputs: seq<Input>, st: JitterState, k: nat, failed: bool,
                                        decodes: bool) returns (taken: nat)
    requires 1 <= cfg.frameSize && 1 <= cfg.playoutDelay && Fits(cfg, inputs + st.inbox)
    requires Playing(cfg, inputs, st, k, failed)
    ensures taken <= |st.inbox|
    ensures var (after, o) := Yield(cfg, st, decodes);
            && after.inbox == st.inbox[taken..]
            && (!after.isEof ==>
                  && Consumed(o, st.inbox[..taken], after.inbox)
                  && Right(cfg, inputs + st.inbox[..taken], k, failed, o)
                  && Playing(cfg, inputs + st.inbox[..taken], after, Next(k, o), StillFailed(failed, o)))
    decreases |st.inbox|
  {
    hide Playing, Right, Iterate, Next, StillFailed, Consumed;
    var turn := Iterate(cfg, st, decodes);
    IterateIs(cfg, inputs, st, k, failed, decodes);
    if turn.Return? {
      taken := |st.inbox| - |turn.state.inbox|;
    } else if turn.state.isEof {
      YieldStaysEof(cfg, turn.state, decodes);
      taken := |st.inbox| - |Yield(cfg, turn.state, decodes).0.inbox|;
    } else {
      var input, rest := st.inbox[0], st.inbox[1..];
      assert inputs + st.inbox == (inputs + [input]) + rest;
      var more := YieldIsRight(cfg, inputs + [input], turn.state, k, failed, decodes);
      taken := more + 1;
      assert st.inbox[..taken] == [input] + rest[..more];
      if !Yield(cfg, st, decodes).0.isEof {
        ConsumedMore(Yield(cfg, st, decodes).1, input, rest[..more], rest[more..]);
      }
      assert inputs + st.inbox[..taken] == (inputs + [input]) + rest[..more];
    }
  }

  /** One turn of the loop while playing. */
  lemma IterateIs(cfg: JitterConfig, inputs: seq<Input>, st: JitterState, k: nat, failed: bool, decodes: bool)
    requires 1 <= cfg.frameSize && 1 <= cfg.playoutDelay && Fits(cfg, inputs + st.inbox)
    requires Playing(cfg, inputs, st, k, failed)
    ensures var turn := Iterate(cfg, st, decodes);
            match turn
            case Return(after, o) =>
              var taken := |st.inbox| - |after.inbox|;
              && 0 <= taken <= |st.inbox| && after.inbox == st.inbox[taken..]
              && (!after.isEof ==>
                    && Consumed(o, st.inbox[..taken], after.inbox)
                    && Right(cfg, inputs + st.inbox[..taken], k, failed, o)
                    && Playing(cfg, inputs + st.inbox[..taken], after, Next(k, o), StillFailed(failed, o)))
            case Again(after) =>
              st.inbox != [] && after.inbox == st.inbox[1..]
              && (!after.isEof ==> st.inbox[0].Arrives? && Playing(cfg, inputs + [st.inbox[0]], after, k, failed))
              && (after.isEof ==> after.nextPlayTs.Some?)
  {
    hide Playing, Right, FarAhead, Received, FirstTs, Iterate;
    if st.nextPlayTs.Some? && (st.nextPlayTs.value in st.buffer || FarAhead(cfg, st.buffer, st.nextPlayTs.value)) {
      HighestFits(cfg, inputs, st.inbox);
      OutputKeepsPlaying(cfg, inputs, st, k, failed, decodes);
      assert inputs + st.inbox[..0] == inputs;
    } else {
      NothingDue(cfg, inputs, st, k, failed, decodes);
      InputIs(cfg, inputs, st, k, failed);
    }
  }

  lemma InputIs(cfg: JitterConfig, inputs: seq<Input>, st: JitterState, k: nat, failed: bool)
    requires Playing(cfg, inputs, st, k, failed) && Right(cfg, inputs, k, failed, Waiting)
    requires forall input :: input == TimesOut ==> Right(cfg, inputs + [input], k, failed, Stalled)
    ensures match OnInput(st)
            case Return(after, o) =>
              var taken := |st.inbox| - |after.inbox|;
              && 0 <= taken <= |st.inbox| && after.inbox == st.inbox[taken..]
              && (!after.isEof ==>
                    && Consumed(o, st.inbox[..taken], after.inbox)
                    && Right(cfg, inputs + st.inbox[..taken], k, failed, o)
                    && Playing(cfg, inputs + st.inbox[..taken], after, Next(k, o), StillFailed(failed, o)))
            case Again(after) =>
              st.inbox != [] && after.inbox == st.inbox[1..]
              && (!after.isEof ==> st.inbox[0].Arrives? && Playing(cfg, inputs + [st.inbox[0]], after, k, failed))
              && (after.isEof ==> after.nextPlayTs.Some?)
  {
    StillPlaying(cfg, inputs, st, k, failed);
    hide Playing, Right;
    if st.inbox == [] {
      assert inputs + st.inbox[..0] == inputs;
    } else {
      assert st.inbox[..1] == [st.inbox[0]];
      InputKeepsPlaying(cfg, inputs, st, k, failed);
    }
  }

  lemma StillPlaying(cfg: JitterConfig, inputs: seq<Input>, st: JitterState, k: nat, failed: bool)
    requires Playing(cfg, inputs, st, k, failed)
    ensures !st.isEof
  {
  }

  /** Nothing to play yet: whatever comes of the next input, an outcome without output is right. */
  lemma NothingDue(cfg: JitterConfig, inputs: seq<Input>, st: JitterState, k: nat, failed: bool, decodes: bool)
    requires 1 <= cfg.playoutDelay && Playing(cfg, inputs, st, k, failed)
    requires st.nextPlayTs.Some? ==> st.nextPlayTs.value !in st.buffer && !FarAhead(cfg, st.buffer, st.nextPlayTs.value)
    ensures Iterate(cfg, st, decodes) == OnInput(st)
    ensures Right(cfg, inputs, k, failed, Waiting)
    ensures forall input :: input == TimesOut ==> Right(cfg, inputs + [input], k, failed, Stalled)
  {
    if st.nextPlayTs.Some? {
      FarAheadIs(cfg, Received(inputs), st.buffer, st.nextPlayTs.value, failed);
    }
    ArrivalGrows(inputs, TimesOut);
  }

  lemma {:induction false} HighestFits(cfg: JitterConfig, inputs: seq<Input>, rest: seq<Input>)
    requires Fits(cfg, inputs + rest)
    ensures forall t :: t in Received(inputs) ==> t + cfg.frameSize < TWO64
    ensures Highest(inputs) + cfg.frameSize < TWO64
  {
    if inputs != [] {
      var init, last := inputs[..|inputs| - 1], inputs[|inputs| - 1];
      assert inputs + rest == init + ([last] + rest);
      HighestFits(cfg, init, [last] + rest);
      assert (inputs + rest)[|inputs| - 1] == last;
    }
  }

  lemma {:induction false} EofStays(cfg: JitterConfig, st: JitterState, decodes: bool)
    requires st.isEof
    ensures Yield(cfg, st, decodes).0.isEof
    decreases |st.inbox|, MustSkip(st)
  {
    var turn := Iterate(cfg, st, decodes);
    if turn.Again? {
      EofStays(cfg, turn.state, decodes);
    }
  }

  /** The state after any number of calls before the end of the stream, and the inputs taken by then. */
  lemma {:induction false} CallsKeepPlaying(cfg: JitterConfig, inbox: seq<Input>, fates: seq<bool>) returns (taken: nat)
    requires 1 <= cfg.frameSize && 1 <= cfg.playoutDelay && Fits(cfg, inbox)
    ensures var (st, outs) := Calls(cfg, Fresh(inbox), fates);
            !st.isEof ==>
              && taken <= |inbox| && st.inbox == inbox[taken..]
              && Playing(cfg, inbox[..taken], st, Outputs(outs), FailedHere(outs))
  {
    if fates == [] {
      taken := 0;
      hide Fits;
    } else {
      var init, last := fates[..|fates| - 1], fates[|fates| - 1];
      var before := CallsKeepPlaying(cfg, inbox, init);
      var (st, outs) := Calls(cfg, Fresh(inbox), init);
      if st.isEof {
        EofStays(cfg, st, last);
        taken := 0;
      } else {
        taken := OneMoreCall(cfg, inbox, before, st, Outputs(outs), FailedHere(outs), last);
        var o := Yield(cfg, st, last).1;
        OneMoreOutcome(outs, o);
      }
      hide Playing, Right, Fits, Yield, Outputs, FailedHere, Next, StillFailed, Consumed;
    }
  }

  lemma OneMoreOutcome(outs: seq<Outcome>, o: Outcome)
    ensures Outputs(outs + [o]) == Next(Outputs(outs), o) && FailedHere(outs + [o]) == StillFailed(FailedHere(outs), o)
  {
    assert (outs + [o])[..|outs|] == outs;
  }

  lemma OneMoreCall(cfg: JitterConfig, inbox: seq<Input>, before: nat, st: JitterState, k: nat, failed: bool,
                    decodes: bool) returns (taken: nat)
    requires 1 <= cfg.frameSize && 1 <= cfg.playoutDelay && Fits(cfg, inbox)
    requires before <= |inbox| && st.inbox == inbox[before..] && Playing(cfg, inbox[..before], st, k, failed)
    ensures before <= taken <= |inbox|
    ensures var (after, o) := Yield(cfg, st, decodes);
            !after.isEof ==>
              && after.inbox == inbox[taken..]
              && Consumed(o, inbox[before..taken], inbox[taken..])
              && Right(cfg, inbox[..taken], k, failed, o)
              && Playing(cfg, inbox[..taken], after, Next(k, o), StillFailed(failed, o))
  {
    hide Playing, Right, Yield, Fits, Next, StillFailed, Consumed;
    assert inbox[..before] + inbox[before..] == inbox;
    var more := YieldIsRight(cfg, inbox[..before], st, k, failed, decodes);
    taken := before + more;
    assert inbox[before..][..more] == inbox[before..taken];
    assert inbox[..before] + inbox[before..taken] == inbox[..taken];
  }

  /** Playout before the end of the stream, at every call, for every sequence of arrivals and decoder
      failures: the `k`th output stands for the first timestamp plus `k` frames; it is the frame with that
      timestamp if that has arrived, and concealment only if not, or if the decoder failed there, and a
      frame `playoutDelay` ahead has arrived. The outputs made never reach past the highest timestamp
      received, so concealment ends unless frames arrive. A call stalls exactly on a timeout. */
  lemma PlayoutBeforeEof(cfg: JitterConfig, inbox: seq<Input>, fates: seq<bool>, decodes: bool)
    returns (before: nat, taken: nat)
    requires 1 <= cfg.frameSize && 1 <= cfg.playoutDelay && Fits(cfg, inbox)
    ensures before <= taken <= |inbox|
    ensures var (st, outs) := Calls(cfg, Fresh(inbox), fates);
            var (after, o) := Yield(cfg, st, decodes);
            !after.isEof ==>
              && st.inbox == inbox[before..] && after.inbox == inbox[taken..]
              && Consumed(o, inbox[before..taken], inbox[taken..])
              && Right(cfg, inbox[..taken], Outputs(outs), FailedHere(outs), o)
              && (o.Pcm? ==> FirstTs(inbox[..taken]).Some? && o.at <= Highest(inbox[..taken])
                             && o.at == FirstTs(inbox[..taken]).value + Outputs(outs) * cfg.frameSize)
  {
    hide Calls, Yield, Fits, Playing, Right, Outputs, FailedHere, Consumed;
    var (st, outs) := Calls(cfg, Fresh(inbox), fates);
    before := CallsKeepPlaying(cfg, inbox, fates);
    if st.isEof {
      EofStays(cfg, st, decodes);
      before, taken := 0, 0;
    } else {
      taken := OneMoreCall(cfg, inbox, before, st, Outputs(outs), FailedHere(outs), decodes);
      var (after, o) := Yield(cfg, st, decodes);
      if !after.isEof {
        PlayPointBound(cfg, inbox[..taken], after, Outputs(outs), FailedHere(outs), o);
      }
    }
  }

  lemma PlayPointBound(cfg: JitterConfig, inputs: seq<Input>, after: JitterState, k: nat, failed: bool, o: Outcome)
    requires Playing(cfg, inputs, after, Next(k, o), StillFailed(failed, o)) && Right(cfg, inputs, k, failed, o)
    ensures o.Pcm? ==>
              FirstTs(inputs).Some? && o.at == FirstTs(inputs).value + k * cfg.frameSize && o.at <= Highest(inputs)
  {
    assert (k + 1) * cfg.frameSize == k * cfg.frameSize + cfg.frameSize;
    hide LastKeyOr0, Received, FirstTs, Covers;
  }

  /** With a delay of 0 the bound is lost: once a first frame has arrived and its slot was played, every
      further call conceals without ever receiving again. */
  lemma {:induction false} ZeroDelayConcealsForever(cfg: JitterConfig, st: JitterState, fates: seq<bool>)
    requires cfg.playoutDelay == 0 && !st.isEof && st.buffer == map[] && st.nextPlayTs.Some?
    ensures var (after, outs) := Calls(cfg, st, fates);
            && after == st.(nextPlayTs := after.nextPlayTs) && after.nextPlayTs.Some?
            && |outs| == |fates|
            && forall k :: 0 <= k < |outs| ==> if fates[k] then outs[k].Pcm? && outs[k].content == None else outs[k] == DecoderFailed
  {
    if fates != [] {
      ZeroDelayConcealsForever(cfg, st, fates[..|fates| - 1]);
    }
  }

  // ---------------------------------------------------------------- one frame, over any calls

  ghost predicate NoArrival(inbox: seq<Input>, t: u64) {
    forall i :: 0 <= i < |inbox| && inbox[i].Arrives? ==> inbox[i].timestamp != t
  }

  /** The outcome is the frame with timestamp `t`. */
  predicate Plays(o: Outcome, t: u64) {
    o.Pcm? && o.at == t && o.content.Some?
  }

  /** A frame leaves the buffer in one call, and is played if that call decodes. */
  lemma {:induction false} CallOnFrame(cfg: JitterConfig, st: JitterState, decodes: bool, t: u64)
    requires NoArrival(st.inbox, t)
    ensures var (after, o) := Yield(cfg, st, decodes);
            && NoArrival(after.inbox, t)
            && (t in after.buffer ==> t in st.buffer && after.buffer[t] == st.buffer[t] && !Plays(o, t))
            && (t !in st.buffer ==> !Plays(o, t))
            && (t in st.buffer && t !in after.buffer ==>
                  o == if decodes then Pcm(t, Some(st.buffer[t])) else DecoderFailed)
    decreases |st.inbox|, MustSkip(st)
  {
    var turn := Iterate(cfg, st, decodes);
    if turn.Again? {
      CallOnFrame(cfg, turn.state, decodes, t);
      hide Yield;
    }
  }

  lemma {:induction false} CallsOnFrame(cfg: JitterConfig, st: JitterState, fates: seq<bool>, t: u64)
    requires NoArrival(st.inbox, t)
    ensures var (after, outs) := Calls(cfg, st, fates);
            && |outs| == |fates| && NoArrival(after.inbox, t)
            && (t in after.buffer ==>
                  t in st.buffer && after.buffer[t] == st.buffer[t] && forall i :: 0 <= i < |outs| ==> !Plays(outs[i], t))
    decreases |fates|
  {
    hide Yield, NoArrival, Plays;
    if fates != [] {
      var init := fates[..|fates| - 1];
      CallsOnFrame(cfg, st, init, t);
      CallOnFrame(cfg, Calls(cfg, st, init).0, fates[|fates| - 1], t);
    }
  }

  /** The first `k` calls leave the frame `t` in the buffer, the next one removes it. */
  ghost predicate RemovedBy(cfg: JitterConfig, st: JitterState, fates: seq<bool>, t: u64, k: nat) {
    k < |fates| && t in Calls(cfg, st, fates[..k]).0.buffer && t !in Calls(cfg, st, fates[..k + 1]).0.buffer
  }

  /** Before the end of the stream and after it, whatever the decoder does: a buffered frame that leaves
      the buffer, and is not replaced by a later arrival, is played if and only if the one call that
      removes it decodes, and then in that call and no other. */
  lemma {:induction false} PlayedIffDecoded(cfg: JitterConfig, st: JitterState, fates: seq<bool>, t: u64) returns (k: nat)
    requires t in st.buffer && NoArrival(st.inbox, t) && t !in Calls(cfg, st, fates).0.buffer
    ensures RemovedBy(cfg, st, fates, t, k)
    ensures var outs := Calls(cfg, st, fates).1;
            && |outs| == |fates|
            && (forall i :: 0 <= i < |outs| ==> (Plays(outs[i], t) <==> i == k && fates[k]))
            && outs[k] == if fates[k] then Pcm(t, Some(st.buffer[t])) else DecoderFailed
    decreases |fates|
  {
    var init, last := fates[..|fates| - 1], fates[|fates| - 1];
    CallsOnFrame(cfg, st, init, t);
    CallOnFrame(cfg, Calls(cfg, st, init).0, last, t);
    hide Yield, NoArrival;
    if t in Calls(cfg, st, init).0.buffer {
      k := |fates| - 1;
      assert fates[..k + 1] == fates;
    } else {
      k := PlayedIffDecoded(cfg, st, init, t);
      assert init[..k] == fates[..k] && init[..k + 1] == fates[..k + 1];
    }
  }

  // ---------------------------------------------------------------- after the end of the stream

  /** After the end of the stream nothing more is received. */
  lemma {:induction false} YieldStaysEof(cfg: JitterConfig, st: JitterState, decodes: bool)
    requires st.isEof && st.nextPlayTs.Some?
    ensures var after := Yield(cfg, st, decodes).0; after.isEof && after.nextPlayTs.Some? && after.inbox == st.inbox
  {
    if MustSkip(st) {
      var skipped := st.(nextPlayTs := Some(FirstKey(st.buffer.Keys)));
      assert Yield(cfg, st, decodes) == Yield(cfg, skipped, decodes);
    }
  }

  /** Where the play point is after the frame `t` was decoded or not. */
  function PointAfter(cfg: JitterConfig, t: u64, decodes: bool): u64 {
    if decodes then Advance(cfg, t) else t
  }

  /** The order in which the buffered timestamps are taken out after the end. */
  function DrainOrder(cfg: JitterConfig, keys: set<u64>, at: u64, fates: seq<bool>): seq<u64>
    requires |keys| <= |fates|
    decreases |fates|
  {
    if keys == {} then [] else
    var t := if at in keys then at else FirstKey(keys);
    [t] + DrainOrder(cfg, keys - {t}, PointAfter(cfg, t, fates[0]), fates[1..])
  }

  /** Each timestamp exactly once. */
  lemma {:induction false} DrainIsPermutation(cfg: JitterConfig, keys: set<u64>, at: u64, fates: seq<bool>)
    requires |keys| <= |fates|
    ensures multiset(DrainOrder(cfg, keys, at, fates)) == multiset(keys)
    decreases |fates|
  {
    if keys != {} {
      var t := if at in keys then at else FirstKey(keys);
      DrainIsPermutation(cfg, keys - {t}, PointAfter(cfg, t, fates[0]), fates[1..]);
      assert multiset(keys) == multiset{t} + multiset(keys - {t});
    }
  }

  lemma {:induction false} CallsHead(cfg: JitterConfig, st: JitterState, fates: seq<bool>)
    requires fates != []
    ensures var (first, o) := Yield(cfg, st, fates[0]);
            && Calls(cfg, st, fates).0 == Calls(cfg, first, fates[1..]).0
            && Calls(cfg, st, fates).1 == [o] + Calls(cfg, first, fates[1..]).1
    decreases |fates|
  {
    hide Yield;
    if |fates| > 1 {
      var init := fates[..|fates| - 1];
      CallsHead(cfg, st, init);
      assert init[1..] == fates[1..][..|fates| - 2];
    }
  }

  /** What comes of taking out the frames in this order, and of the calls after that. */
  function Results(buffer: FrameBuffer, order: seq<u64>, fates: seq<bool>): seq<Outcome>
    requires |order| <= |fates| && forall i :: 0 <= i < |order| ==> order[i] in buffer
  {
    seq(|fates|, i requires 0 <= i < |fates| =>
      if i >= |order| then NoMore
      else if fates[i] then Pcm(order[i], Some(buffer[order[i]]))
      else DecoderFailed)
  }

  lemma {:induction false} OrderFromKeys(cfg: JitterConfig, keys: set<u64>, at: u64, fates: seq<bool>)
    requires |keys| <= |fates|
    ensures |DrainOrder(cfg, keys, at, fates)| == |keys|
    ensures forall i :: 0 <= i < |keys| ==> DrainOrder(cfg, keys, at, fates)[i] in keys
  {
    DrainIsPermutation(cfg, keys, at, fates);
    var order := DrainOrder(cfg, keys, at, fates);
    assert |multiset(order)| == |order|;
    forall i | 0 <= i < |keys|
      ensures order[i] in keys
    {
      assert order[i] in multiset(order);
    }
  }

  lemma {:induction false} DrainOutputs(cfg: JitterConfig, st: JitterState, fates: seq<bool>)
    requires st.isEof && st.nextPlayTs.Some? && |st.buffer.Keys| <= |fates|
    ensures var order := DrainOrder(cfg, st.buffer.Keys, st.nextPlayTs.value, fates);
            && |order| == |st.buffer.Keys| && (forall i :: 0 <= i < |order| ==> order[i] in st.buffer)
            && Calls(cfg, st, fates).1 == Results(st.buffer, order, fates)
    decreases |fates|
  {
    hide DrainOrder, Yield, Calls, Results, PointAfter;
    var keys, at := st.buffer.Keys, st.nextPlayTs.value;
    OrderFromKeys(cfg, keys, at, fates);
    if keys == {} {
      DrainEmpty(cfg, st, fates);
    } else {
      var t := if at in keys then at else FirstKey(keys);
      var point := PointAfter(cfg, t, fates[0]);
      var next := st.(buffer := st.buffer - {t}, nextPlayTs := Some(point));
      var rest := DrainOrder(cfg, keys - {t}, point, fates[1..]);
      OrderHead(cfg, keys, at, fates, t, rest);
      assert next.buffer.Keys == keys - {t};
      DrainOutputs(cfg, next, fates[1..]);
      DrainHead(cfg, st, next, t, rest, fates);
    }
  }

  lemma DrainEmpty(cfg: JitterConfig, st: JitterState, fates: seq<bool>)
    requires st.isEof && st.nextPlayTs.Some? && st.buffer.Keys == {}
    ensures DrainOrder(cfg, st.buffer.Keys, st.nextPlayTs.value, fates) == []
    ensures Calls(cfg, st, fates).1 == Results(st.buffer, [], fates)
  {
    EmptyStays(cfg, st, fates);
  }

  /** After the end of the stream: every buffered frame is taken out exactly once, without concealment in
      between, and played if the decoder succeeds on it; then None for ever. */
  lemma DrainPlaysEveryFrame(cfg: JitterConfig, st: JitterState, fates: seq<bool>)
    requires st.isEof && st.nextPlayTs.Some? && |st.buffer.Keys| <= |fates|
    ensures var order := DrainOrder(cfg, st.buffer.Keys, st.nextPlayTs.value, fates);
            && multiset(order) == multiset(st.buffer.Keys)
            && |order| <= |fates| && (forall i :: 0 <= i < |order| ==> order[i] in st.buffer)
            && Calls(cfg, st, fates).1 == Results(st.buffer, order, fates)
  {
    DrainOutputs(cfg, st, fates);
    DrainIsPermutation(cfg, st.buffer.Keys, st.nextPlayTs.value, fates);
    hide DrainOrder, Yield, Calls, Results;
  }

  lemma OrderHead(cfg: JitterConfig, keys: set<u64>, at: u64, fates: seq<bool>, t: u64, rest: seq<u64>)
    requires keys != {} && |keys| <= |fates| && t == if at in keys then at else FirstKey(keys)
    requires rest == DrainOrder(cfg, keys - {t}, PointAfter(cfg, t, fates[0]), fates[1..])
    ensures DrainOrder(cfg, keys, at, fates) == [t] + rest
  {
  }

  lemma DrainHead(cfg: JitterConfig, st: JitterState, next: JitterState, t: u64, rest: seq<u64>, fates: seq<bool>)
    requires st.isEof && st.nextPlayTs.Some? && st.buffer.Keys != {} && |rest| < |fates|
    requires t == if st.nextPlayTs.value in st.buffer then st.nextPlayTs.value else FirstKey(st.buffer.Keys)
    requires next == st.(buffer := st.buffer - {t}, nextPlayTs := Some(PointAfter(cfg, t, fates[0])))
    requires forall i :: 0 <= i < |rest| ==> rest[i] in next.buffer
    requires Calls(cfg, next, fates[1..]).1 == Results(next.buffer, rest, fates[1..])
    ensures Calls(cfg, st, fates).1 == Results(st.buffer, [t] + rest, fates)
  {
    hide Yield, Calls, Results, PointAfter, DrainOrder;
    DrainStep(cfg, st, t, fates[0]);
    CallsHead(cfg, st, fates);
    ResultsTail(st.buffer, t, rest, fates);
  }

  lemma ResultsTail(buffer: FrameBuffer, t: u64, rest: seq<u64>, fates: seq<bool>)
    requires t in buffer && |rest| < |fates| && forall i :: 0 <= i < |rest| ==> rest[i] in buffer - {t}
    ensures Results(buffer, [t] + rest, fates) ==
            [if fates[0] then Pcm(t, Some(buffer[t])) else DecoderFailed] + Results(buffer - {t}, rest, fates[1..])
  {
  }

  lemma DrainStep(cfg: JitterConfig, st: JitterState, t: u64, decodes: bool)
    requires st.isEof && st.nextPlayTs.Some? && st.buffer.Keys != {}
    requires t == if st.nextPlayTs.value in st.buffer then st.nextPlayTs.value else FirstKey(st.buffer.Keys)
    ensures Yield(cfg, st, decodes) ==
            (st.(buffer := st.buffer - {t}, nextPlayTs := Some(PointAfter(cfg, t, decodes))),
             if decodes then Pcm(t, Some(st.buffer[t])) else DecoderFailed)
  {
    if st.nextPlayTs.value !in st.buffer {
      var skipped := st.(nextPlayTs := Some(t));
      assert Yield(cfg, st, decodes) == Yield(cfg, skipped, decodes);
    }
  }

  lemma {:induction false} EmptyStays(cfg: JitterConfig, st: JitterState, fates: seq<bool>)
    requires st.isEof && st.nextPlayTs.Some? && st.buffer.Keys == {}
    ensures Calls(cfg, st, fates).0 == st
    ensures Calls(cfg, st, fates).1 == seq(|fates|, _ => NoMore)
    ensures forall decodes :: Yield(cfg, st, decodes) == (st, NoMore)
    decreases |fates|
  {
    assert st.buffer == map[];
    assert forall decodes :: Iterate(cfg, st, decodes) == Return(st, NoMore);
    if fates != [] {
      EmptyStays(cfg, st, fates[..|fates| - 1]);
    }
  }

  // ---------------------------------------------------------------- order of the drain

  /** All frames on one grid of frame-sized steps, the play point too. */
  ghost predicate Congruent(cfg: JitterConfig, keys: set<u64>, at: u64) {
    1 <= cfg.frameSize && forall t :: t in keys ==> t % cfg.frameSize == at % cfg.frameSize && t + cfg.frameSize < TWO64
  }

  ghost function Descents(s: seq<u64>): nat {
    if |s| < 2 then 0 else (if s[0] > s[1] then 1 else 0) + Descents(s[1..])
  }

  lemma MulSigns(f: nat, d: int)
    requires 1 <= f
    ensures d >= 1 ==> f * d >= f
    ensures d <= 0 ==> f * d <= 0
    ensures d <= -1 ==> f * d + f <= 0
  {
    if d >= 1 {
      assert f * d == f + f * (d - 1);
    }
  }

  /** On the grid, a timestamp above another is a whole frame above it. */
  lemma GridGap(f: nat, a: nat, b: nat)
    requires 1 <= f && a % f == b % f && a < b
    ensures a + f <= b
  {
    var d := b / f - a / f;
    assert b - a == f * d;
    MulSigns(f, d);
  }

  lemma GridStep(f: nat, a: nat)
    requires 1 <= f
    ensures (a + f) % f == a % f
  {
    var d := (a + f) / f - a / f - 1;
    assert f * d == a % f - (a + f) % f by {
      assert a + f == f * ((a + f) / f) + (a + f) % f;
      assert a == f * (a / f) + a % f;
      assert f * d == f * ((a + f) / f) - f * (a / f) - f;
    }
    MulSigns(f, d);
  }

  /** What is left of a grid set above `t` starts a frame later. */
  lemma RestOnGrid(cfg: JitterConfig, keys: set<u64>, at: u64, t: u64)
    requires Congruent(cfg, keys, at) && t in keys
    ensures Congruent(cfg, keys - {t}, Advance(cfg, t)) && Advance(cfg, t) == t + cfg.frameSize
    ensures forall x :: x in keys && t < x ==> t + cfg.frameSize <= x
  {
    GridStep(cfg.frameSize, t);
    forall x | x in keys && t < x
      ensures t + cfg.frameSize <= x
    {
      GridGap(cfg.frameSize, t, x);
    }
  }

  /** After a failure, what is left of a grid set is still on the grid of the play point. */
  lemma SameGrid(cfg: JitterConfig, keys: set<u64>, at: u64, t: u64, decodes: bool)
    requires Congruent(cfg, keys, at) && t in keys
    ensures Congruent(cfg, keys - {t}, PointAfter(cfg, t, decodes))
    ensures t <= PointAfter(cfg, t, decodes) && forall x :: x in keys && t < x ==> PointAfter(cfg, t, decodes) <= x
  {
    RestOnGrid(cfg, keys, at, t);
  }

  /** Frames on the grid and none of them late: taken out in increasing order. */
  lemma {:induction false} NoLateFrameNoDescent(cfg: JitterConfig, keys: set<u64>, at: u64, fates: seq<bool>)
    requires |keys| <= |fates| && Congruent(cfg, keys, at) && forall t :: t in keys ==> at <= t
    ensures Descents(DrainOrder(cfg, keys, at, fates)) == 0
    decreases |fates|
  {
    hide PointAfter, Congruent, DrainOrder;
    OrderFromKeys(cfg, keys, at, fates);
    if keys != {} {
      var t := if at in keys then at else FirstKey(keys);
      var point := PointAfter(cfg, t, fates[0]);
      var rest := DrainOrder(cfg, keys - {t}, point, fates[1..]);
      OrderHead(cfg, keys, at, fates, t, rest);
      SameGrid(cfg, keys, at, t, fates[0]);
      NoLateFrameNoDescent(cfg, keys - {t}, point, fates[1..]);
      OrderFromKeys(cfg, keys - {t}, point, fates[1..]);
      DescentsHead(t, rest);
    }
  }

  /** Frames on the grid: the order goes back at most once, to the earliest late frame. */
  lemma {:induction false} AtMostOneDescent(cfg: JitterConfig, keys: set<u64>, at: u64, fates: seq<bool>)
    requires |keys| <= |fates| && Congruent(cfg, keys, at)
    ensures Descents(DrainOrder(cfg, keys, at, fates)) <= 1
    decreases |fates|
  {
    if keys != {} {
      if at in keys {
        var left, next := keys - {at}, PointAfter(cfg, at, fates[0]);
        var rest := DrainOrder(cfg, left, next, fates[1..]);
        OrderHead(cfg, keys, at, fates, at, rest);
        SameGrid(cfg, keys, at, at, fates[0]);
        hide DrainOrder, PointAfter, Congruent;
        DescentsHead(at, rest);
        if next in left {
          AtMostOneDescent(cfg, left, next, fates[1..]);
          OrderHead(cfg, left, next, fates[1..], next,
                    DrainOrder(cfg, left - {next}, PointAfter(cfg, next, fates[1..][0]), fates[1..][1..]));
        } else if left != {} {
          FromFirst(cfg, left, next, fates[1..]);
        }
      } else {
        FromFirst(cfg, keys, at, fates);
      }
    }
  }

  lemma DescentsHead(t: u64, rest: seq<u64>)
    ensures Descents([t] + rest) == (if rest != [] && t > rest[0] then 1 else 0) + Descents(rest)
  {
    assert ([t] + rest)[1..] == rest;
  }

  /** Skipping to the earliest frame, all that follows is in order. */
  lemma FromFirst(cfg: JitterConfig, keys: set<u64>, at: u64, fates: seq<bool>)
    requires Congruent(cfg, keys, at) && keys != {} && at !in keys && |keys| <= |fates|
    ensures Descents(DrainOrder(cfg, keys, at, fates)) == 0
  {
    hide PointAfter, Congruent, DrainOrder;
    var m := FirstKey(keys);
    var point := PointAfter(cfg, m, fates[0]);
    var rest := DrainOrder(cfg, keys - {m}, point, fates[1..]);
    OrderHead(cfg, keys, at, fates, m, rest);
    SameGrid(cfg, keys, at, m, fates[0]);
    NoLateFrameNoDescent(cfg, keys - {m}, point, fates[1..]);
    OrderFromKeys(cfg, keys - {m}, point, fates[1..]);
    DescentsHead(m, rest);
  }

  /** The timestamps of the frames the decoder succeeded on. */
  ghost function Played(order: seq<u64>, fates: seq<bool>): seq<u64>
    requires |order| <= |fates|
  {
    if order == [] then [] else (if fates[0] then [order[0]] else []) + Played(order[1..], fates[1..])
  }

  /** What is heard goes back no more often than the order in which frames are taken out. */
  lemma {:induction false} PlayedDescendsNoMore(order: seq<u64>, fates: seq<bool>)
    requires |order| <= |fates|
    ensures Descents(Played(order, fates)) <= Descents(order)
  {
    if order != [] {
      var rest := order[1..];
      assert order == [order[0]] + rest;
      DescentsHead(order[0], rest);
      if fates[0] {
        PlayedBehind(order[0], rest, fates[1..]);
      } else {
        PlayedDescendsNoMore(rest, fates[1..]);
        assert Played(order, fates) == Played(rest, fates[1..]);
      }
    }
  }

  lemma {:induction false} PlayedBehind(t: u64, order: seq<u64>, fates: seq<bool>)
    requires |order| <= |fates|
    ensures Descents([t] + Played(order, fates)) <= Descents([t] + order)
    decreases |order|
  {
    DescentsHead(t, order);
    if order != [] {
      var u, rest := order[0], order[1..];
      assert order == [u] + rest;
      DescentsHead(u, rest);
      if fates[0] {
        PlayedBehind(u, rest, fates[1..]);
        DescentsHead(t, [u] + Played(rest, fates[1..]));
      } else {
        PlayedBehind(t, rest, fates[1..]);
        DescentsHead(t, rest);
        assert Played(order, fates) == Played(rest, fates[1..]);
      }
    }
  }
}
