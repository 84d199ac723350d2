/**
 * Decoding the command stream: the loop over packets, for any decoders.
 *
 * A decoder is handed the buffer from its packet's first word on, as in the source, and the packet's length.
 */
module Decode {
  import opened Machine
  import opened Protocol

  // --- the packet loop -----------------------------------------------------------------------

  function LengthOf(w: Word): (r: nat)
    ensures r <= 0xffff
  {
    ((w >> 16) as bv16) as nat
  }

  function CommandOf(w: Word): (r: nat)
    ensures r <= 0xff
  {
    ((w & 0xff) as bv8) as nat
  }

  /** A packet: where its header is and how many words follow it. */
  datatype Frame = Frame(at: nat, len: nat)

  /** What a decoder did: the new context, its return code, and whether the context is free of errors. */
  datatype Effect<S> = Effect(state: S, ret: int, clean: bool)

  type Handler<!S> = (S, nat, seq<Word>, nat) -> Effect<S>

  /** The decode table, and what reporting a buffer error does to the context. */
  datatype Decoders<!S> = Decoders(handle: Handler<S>, report: (S, Word) -> S)

  datatype Outcome<S> = Outcome(state: S, ret: int, trace: seq<Frame>)

  function Code<S>(e: Effect<S>): int {
    if !e.clean && e.ret == 0 then EINVAL else e.ret
  }

  /** The context after a failing decoder: EINVAL is reported with the packet's header. */
  function Reported<S>(d: Decoders<S>, e: Effect<S>, header: Word): S {
    if Code(e) == EINVAL then d.report(e.state, header) else e.state
  }

  /** There is a packet at `at` that is dispatched: its command is known and it ends inside the buffer. */
  predicate IsPacket(buf: seq<Word>, at: nat) {
    at < |buf| && CommandOf(buf[at]) < MAX_COMMANDS && at + LengthOf(buf[at]) + 1 <= |buf|
  }

  /** The packets from `at` on. */
  ghost function Frames(buf: seq<Word>, at: nat): (r: seq<Frame>)
    decreases |buf| - at
  {
    if !IsPacket(buf, at) then [] else [Frame(at, LengthOf(buf[at]))] + Frames(buf, at + LengthOf(buf[at]) + 1)
  }

  ghost function Run<S>(d: Decoders<S>, s: S, buf: seq<Word>, at: nat): (r: Outcome<S>)
    decreases |buf| - at
  {
    if at >= |buf| then Outcome(s, 0, [])
    else if CommandOf(buf[at]) >= MAX_COMMANDS then Outcome(s, EINVAL, [])
    else if at + LengthOf(buf[at]) + 1 > |buf| then Outcome(d.report(s, 0), 0, [])
    else
      var len := LengthOf(buf[at]);
      var e := d.handle(s, CommandOf(buf[at]), buf[at..], len);
      if Code(e) != 0 then Outcome(Reported(d, e, buf[at]), Code(e), [Frame(at, len)])
      else
        var rest := Run(d, e.state, buf, at + len + 1);
        Outcome(rest.state, rest.ret, [Frame(at, len)] + rest.trace)
  }

  /** What dispatching a packet does. */
  function EffectOf<S>(d: Decoders<S>, s: S, buf: seq<Word>, f: Frame): Effect<S>
    requires f.at < |buf|
  {
    d.handle(s, CommandOf(buf[f.at]), buf[f.at..], f.len)
  }

  /** One turn of the loop at a packet that is dispatched. */
  lemma RunTurn<S>(d: Decoders<S>, s: S, buf: seq<Word>, at: nat)
    requires IsPacket(buf, at)
    ensures var f := Frame(at, LengthOf(buf[at]));
      var e, r := EffectOf(d, s, buf, f), Run(d, s, buf, at);
      && (Code(e) != 0 ==> r == Outcome(Reported(d, e, buf[at]), Code(e), [f]))
      && (Code(e) == 0 ==>
            var rest := Run(d, e.state, buf, at + f.len + 1); r == Outcome(rest.state, rest.ret, [f] + rest.trace))
  {
  }

  lemma RunStops<S>(d: Decoders<S>, s: S, buf: seq<Word>, at: nat)
    ensures at >= |buf| ==> Run(d, s, buf, at) == Outcome(s, 0, [])
    ensures at < |buf| && CommandOf(buf[at]) >= MAX_COMMANDS ==> Run(d, s, buf, at) == Outcome(s, EINVAL, [])
    ensures at < |buf| && CommandOf(buf[at]) < MAX_COMMANDS && at + LengthOf(buf[at]) + 1 > |buf| ==>
      Run(d, s, buf, at) == Outcome(d.report(s, 0), 0, [])
  {
  }

  /** What is still to come, after `trace`, completes the whole run. */
  ghost predicate Pending<S(!new)>(d: Decoders<S>, s: S, buf: seq<Word>, at: nat, trace: seq<Frame>,
                                   whole: Outcome<S>) {
    var rest := Run(d, s, buf, at);
    whole == Outcome(rest.state, rest.ret, trace + rest.trace)
  }

  lemma PendingTurn<S(!new)>(d: Decoders<S>, s: S, buf: seq<Word>, at: nat, trace: seq<Frame>, whole: Outcome<S>)
    requires Pending(d, s, buf, at, trace, whole) && IsPacket(buf, at)
    ensures var f := Frame(at, LengthOf(buf[at]));
      var e, t := EffectOf(d, s, buf, f), trace + [f];
      && (Code(e) != 0 ==> whole == Outcome(Reported(d, e, buf[at]), Code(e), t))
      && (Code(e) == 0 ==> Pending(d, e.state, buf, at + f.len + 1, t, whole))
  {
    hide Run, LengthOf, CommandOf;
    RunTurn(d, s, buf, at);
    var f := Frame(at, LengthOf(buf[at]));
    var rest := Run(d, EffectOf(d, s, buf, f).state, buf, at + f.len + 1);
    assert trace + ([f] + rest.trace) == (trace + [f]) + rest.trace;
  }

  /** The loop over the submitted words, with its 32-bit offset. */
  method DecodeWords<S(!new)>(d: Decoders<S>, s: S, words: seq<Word>)
    returns (state: S, ret: int, ghost trace: seq<Frame>)
    requires |words| < U32 / 4
    ensures state == Run(d, s, words, 0).state && ret == Run(d, s, words, 0).ret
    ensures trace == Run(d, s, words, 0).trace
  {
    hide Run, LengthOf, CommandOf;
    state, ret, trace := s, 0, [];
    var offset := 0;
    ghost var whole := Run(d, s, words, 0);
    assert trace + whole.trace == whole.trace;
    while offset < |words|
      invariant 0 <= offset <= |words| && ret == 0
      invariant Pending(d, state, words, offset, trace, whole)
      decreases |words| - offset
    {
      RunStops(d, state, words, offset);
      var len := LengthOf(words[offset]);
      var cmd := CommandOf(words[offset]);
      if cmd >= MAX_COMMANDS {
        ret := EINVAL;
        assert trace + [] == trace;
        return;
      }
      var at := offset;
      offset := (offset + len + 1) % U32;
      if offset > |words| {
        state := d.report(state, 0);
        assert trace + [] == trace;
        return;
      }
      PendingTurn(d, state, words, at, trace, whole);
      var e := d.handle(state, cmd, words[at..], len);
      state := e.state;
      ret := e.ret;
      if !e.clean && ret == 0 {
        ret := EINVAL;
      }
      trace := trace + [Frame(at, len)];
      if ret != 0 {
        if ret == EINVAL {
          state := d.report(state, words[at]);
        }
        return;
      }
    }
    RunStops(d, state, words, offset);
    assert trace + [] == trace;
  }

  /** The entry points' checks, and then the loop. `found` and `switched` are the context lookup and the GL switch. */
  method Submit<S(!new)>(d: Decoders<S>, s: S, buffer: array<Word>, found: bool, ndw: int, switched: bool)
    returns (state: S, ret: int, ghost trace: seq<Frame>)
    requires 0 <= ndw < U32 / 4 ==> ndw <= buffer.Length
    ensures found && 0 <= ndw < U32 / 4 && switched ==>
      state == Run(d, s, buffer[..ndw], 0).state && ret == Run(d, s, buffer[..ndw], 0).ret
    ensures !(found && 0 <= ndw < U32 / 4 && switched) ==> state == s && ret == EINVAL
    ensures trace == if found && 0 <= ndw < U32 / 4 && switched then Run(d, s, buffer[..ndw], 0).trace else []
  {
    state, ret, trace := s, EINVAL, [];
    if !found {
      return;
    }
    if ndw < 0 || ndw > (U32 - 1) / 4 {
      return;
    }
    var size := ndw * 4;
    if !switched {
      return;
    }
    var total := (size / 4) % U32;
    state, ret, trace := DecodeWords(d, s, buffer[..total]);
  }

  // --- what the loop dispatches --------------------------------------------------------------

  /** Consecutive packets: each starts where the one before it ends, and all lie inside the buffer. */
  ghost predicate Tiles(frames: seq<Frame>, from: nat, size: nat)
    decreases |frames|
  {
    frames != [] ==>
      && frames[0].at == from && from + frames[0].len + 1 <= size
      && Tiles(frames[1..], from + frames[0].len + 1, size)
  }

  ghost function EndOf(frames: seq<Frame>, from: nat): (r: nat) {
    if frames == [] then from else frames[|frames| - 1].at + frames[|frames| - 1].len + 1
  }

  lemma {:induction false} FramesTile(buf: seq<Word>, at: nat)
    ensures Tiles(Frames(buf, at), at, |buf|)
    decreases |buf| - at
  {
    var f := Frames(buf, at);
    if f != [] {
      FramesTile(buf, at + LengthOf(buf[at]) + 1);
      assert f[1..] == Frames(buf, at + LengthOf(buf[at]) + 1);
    }
  }

  lemma {:induction false} TilesPrefix(a: seq<Frame>, b: seq<Frame>, from: nat, size: nat)
    requires a <= b && Tiles(b, from, size)
    ensures Tiles(a, from, size)
    decreases |a|
  {
    if a != [] {
      assert a[0] == b[0] && a[1..] <= b[1..];
      TilesPrefix(a[1..], b[1..], from + a[0].len + 1, size);
    }
  }

  /** Dispatching the packets in order, each decoder succeeds, and the context is `t` in the end. */
  ghost predicate Succeed<S(!new)>(d: Decoders<S>, s: S, buf: seq<Word>, frames: seq<Frame>, t: S)
    decreases |frames|
  {
    if frames == [] then t == s
    else
      && frames[0].at < |buf|
      && var e := EffectOf(d, s, buf, frames[0]);
         Code(e) == 0 && Succeed(d, e.state, buf, frames[1..], t)
  }

  /** Why a run ended where it did. */
  datatype Stop = End | Unknown | Overrun | Failed

  /**
   * The run ended for the reason given, and no earlier: every packet of the trace succeeded, except that the last one
   * failed where that is the reason.  `t` is the context before the reason was acted on.
   */
  ghost predicate StoppedBy<S(!new)>(d: Decoders<S>, s: S, buf: seq<Word>, from: nat, r: Outcome<S>, stop: Stop, t: S) {
    var end := EndOf(r.trace, from);
    match stop
    case End => end >= |buf| && Succeed(d, s, buf, r.trace, t) && r.ret == 0 && r.state == t
    case Unknown =>
      && end < |buf| && CommandOf(buf[end]) >= MAX_COMMANDS
      && Succeed(d, s, buf, r.trace, t) && r.ret == EINVAL && r.state == t
    case Overrun =>
      && end < |buf| && CommandOf(buf[end]) < MAX_COMMANDS && end + LengthOf(buf[end]) + 1 > |buf|
      && Succeed(d, s, buf, r.trace, t) && r.ret == 0 && r.state == d.report(t, 0)
    case Failed =>
      && r.trace != []
      && var last := r.trace[|r.trace| - 1];
         && last.at < |buf| && Succeed(d, s, buf, r.trace[..|r.trace| - 1], t)
         && var e := EffectOf(d, t, buf, last);
            Code(e) != 0 && r.ret == Code(e) && r.state == Reported(d, e, buf[last.at])
  }

  lemma {:induction false} TracePrefix<S(!new)>(d: Decoders<S>, s: S, buf: seq<Word>, at: nat)
    ensures Run(d, s, buf, at).trace <= Frames(buf, at)
    decreases |buf| - at
  {
    hide LengthOf, CommandOf, Run, EffectOf, Reported;
    RunStops(d, s, buf, at);
    if IsPacket(buf, at) {
      RunTurn(d, s, buf, at);
      var e := EffectOf(d, s, buf, Frame(at, LengthOf(buf[at])));
      if Code(e) == 0 {
        TracePrefix(d, e.state, buf, at + LengthOf(buf[at]) + 1);
      }
    }
  }

  /** Putting a succeeding packet in front keeps the reason. */
  lemma StopLater<S(!new)>(d: Decoders<S>, s: S, buf: seq<Word>, at: nat, rest: Outcome<S>, stop: Stop, t: S)
    requires IsPacket(buf, at)
    requires var e := EffectOf(d, s, buf, Frame(at, LengthOf(buf[at])));
      Code(e) == 0 && StoppedBy(d, e.state, buf, at + LengthOf(buf[at]) + 1, rest, stop, t)
    ensures StoppedBy(d, s, buf, at, rest.(trace := [Frame(at, LengthOf(buf[at]))] + rest.trace), stop, t)
  {
    hide LengthOf, CommandOf;
    var f := Frame(at, LengthOf(buf[at]));
    var all := [f] + rest.trace;
    assert all[1..] == rest.trace;
    assert EndOf(all, at) == EndOf(rest.trace, at + f.len + 1);
    if stop.Failed? {
      var n := |rest.trace|;
      assert all[..n] == [f] + rest.trace[..n - 1] && all[..n][1..] == rest.trace[..n - 1];
    }
  }

  lemma StopHere<S(!new)>(d: Decoders<S>, s: S, buf: seq<Word>, at: nat) returns (stop: Stop)
    requires !IsPacket(buf, at)
    ensures !stop.Failed? && StoppedBy(d, s, buf, at, Run(d, s, buf, at), stop, s) && Run(d, s, buf, at).trace == []
  {
    hide LengthOf, CommandOf, Run;
    RunStops(d, s, buf, at);
    stop := if at >= |buf| then End else if CommandOf(buf[at]) >= MAX_COMMANDS then Unknown else Overrun;
  }

  lemma StopNow<S(!new)>(d: Decoders<S>, s: S, buf: seq<Word>, at: nat, f: Frame)
    requires IsPacket(buf, at) && f == Frame(at, LengthOf(buf[at])) && Code(EffectOf(d, s, buf, f)) != 0
    ensures StoppedBy(d, s, buf, at, Run(d, s, buf, at), Failed, s)
  {
    hide LengthOf, CommandOf, Run, EffectOf, Reported, Code;
    RunTurn(d, s, buf, at);
    assert [f][..0] == [];
  }

  lemma {:induction false} RunStop<S(!new)>(d: Decoders<S>, s: S, buf: seq<Word>, at: nat) returns (stop: Stop, t: S)
    ensures var r := Run(d, s, buf, at);
      StoppedBy(d, s, buf, at, r, stop, t) && (!stop.Failed? ==> r.trace == Frames(buf, at))
    decreases |buf| - at
  {
    hide LengthOf, CommandOf, Run;
    RunStops(d, s, buf, at);
    hide StoppedBy, EffectOf, Reported, Code;
    if !IsPacket(buf, at) {
      stop := StopHere(d, s, buf, at);
      t := s;
    } else {
      RunTurn(d, s, buf, at);
      var f := Frame(at, LengthOf(buf[at]));
      var e := EffectOf(d, s, buf, f);
      if Code(e) != 0 {
        stop, t := Failed, s;
        StopNow(d, s, buf, at, f);
      } else {
        stop, t := RunStop(d, e.state, buf, at + f.len + 1);
        StopLater(d, s, buf, at, Run(d, e.state, buf, at + f.len + 1), stop, t);
      }
    }
  }

  /**
   * For every buffer and whatever the decoders do: the packets dispatched are the first ones of the buffer's framing,
   * consecutive and each exactly once; the loop ends exactly at the first unknown command, overrunning packet or
   * failing decoder, or at the end, with the result and the context that this gives; nothing after it is dispatched.
   */
  lemma RunDispatchesPrefix<S(!new)>(d: Decoders<S>, s: S, buf: seq<Word>) returns (stop: Stop, t: S)
    ensures var r := Run(d, s, buf, 0);
      && r.trace <= Frames(buf, 0) && (!stop.Failed? ==> r.trace == Frames(buf, 0))
      && Tiles(r.trace, 0, |buf|)
      && StoppedBy(d, s, buf, 0, r, stop, t)
  {
    hide Run, Frames, StoppedBy;
    TracePrefix(d, s, buf, 0);
    FramesTile(buf, 0);
    TilesPrefix(Run(d, s, buf, 0).trace, Frames(buf, 0), 0, |buf|);
    stop, t := RunStop(d, s, buf, 0);
  }
}
