/**
 * The SSE encoder of agentic step events (src/supervisor/openai_compat.py:319-446): framing for
 * every event sequence, and what a client sees of a run of the streaming loop.
 */
module SseEncoder {
  import opened Basics
  import opened Transcript
  import opened ContextView
  import opened AgenticLoop
  import opened StreamingLoop

  /** A frame, tagged with why it was sent; TraceOpen, TraceStep, TraceClose and Delta all go out
      as content deltas. */
  datatype Frame =
    | Prelude
    | TraceOpen
    | TraceStep(event: Event)
    | TraceClose
    | Delta(text: string)
    | Finish(reason: string)
    | DoneMark

  // ----- the encoder as a fold -----

  /** The frames sent so far after the prelude, and whether the trace block is open or closed. */
  datatype Encoder = Encoder(frames: seq<Frame>, isOpen: bool, isClosed: bool)

  const IDLE := Encoder([], false, false)

  function Closing(encoder: Encoder): Encoder
  {
    if encoder.isOpen && !encoder.isClosed then Encoder(encoder.frames + [TraceClose], true, true) else encoder
  }

  function Emit(encoder: Encoder, event: Event, traceOff: bool): Encoder
  {
    if IsTrace(event) then
      if traceOff then encoder
      else
        var open := if encoder.isOpen then encoder else Encoder(encoder.frames + [TraceOpen], true, encoder.isClosed);
        open.(frames := open.frames + [TraceStep(event)])
    else if event.FinalChunk? then
      var closed := Closing(encoder);
      closed.(frames := closed.frames + [Delta(event.text)])
    else encoder
  }

  function Encoding(events: seq<Event>, traceOff: bool): Encoder
  {
    if events == [] then IDLE else Emit(Encoding(events[..|events| - 1], traceOff), events[|events| - 1], traceOff)
  }

  /** The events before the first Done. */
  function Cut(events: seq<Event>): seq<Event>
  {
    if events == [] || events[0].Done? then [] else [events[0]] + Cut(events[1..])
  }

  /** The reason of the first Done, or "stop" when the events end without one. */
  function Reason(events: seq<Event>): string
  {
    var n := |Cut(events)|;
    if n < |events| && events[n].Done? then events[n].reason else "stop"
  }

  function Encoded(events: seq<Event>, traceOff: bool): seq<Frame>
  {
    [Prelude] + Closing(Encoding(Cut(events), traceOff)).frames + [Finish(Reason(events)), DoneMark]
  }

  lemma {:induction false} CutAt(events: seq<Event>, n: nat)
    requires n <= |events| && (forall i :: 0 <= i < n ==> !events[i].Done?) && (n < |events| ==> events[n].Done?)
    ensures Cut(events) == events[..n]
  {
    if n == 0 {
    } else {
      CutAt(events[1..], n - 1);
      assert events[..n] == [events[0]] + events[1..][..n - 1];
    }
  }

  /** The stream ends with the first Done, and for its reason; without one, with "stop". */
  lemma ReasonIs(before: seq<Event>, reason: string, after: seq<Event>)
    requires forall e :: e in before ==> !e.Done?
    ensures Cut(before + [Done(reason)] + after) == before && Reason(before + [Done(reason)] + after) == reason
    ensures Cut(before) == before && Reason(before) == "stop"
  {
    CutAt(before + [Done(reason)] + after, |before|);
    CutAt(before, |before|);
    assert before[..|before|] == before && (before + [Done(reason)] + after)[..|before|] == before;
  }

  lemma {:induction false} CutHasNoDone(events: seq<Event>)
    ensures forall e :: e in Cut(events) ==> !e.Done?
  {
    if events == [] {
    } else {
      CutHasNoDone(events[1..]);
    }
  }

  lemma EncodingGrows(events: seq<Event>, event: Event, traceOff: bool)
    ensures Encoding(events + [event], traceOff) == Emit(Encoding(events, traceOff), event, traceOff)
  {
  }

  /** The frames of one event depend only on the two flags. */
  lemma EmitAfter(frames: seq<Frame>, isOpen: bool, isClosed: bool, event: Event, traceOff: bool)
    ensures var alone := Emit(Encoder([], isOpen, isClosed), event, traceOff);
      Emit(Encoder(frames, isOpen, isClosed), event, traceOff) == alone.(frames := frames + alone.frames)
  {
  }

  /** The frames of one event: a step of the trace goes out unless the trace is off, behind an opening
      frame if it is the first; a piece of the answer goes out behind a closing frame if a trace
      block is open. */
  lemma EmitIs(isOpen: bool, isClosed: bool, event: Event, traceOff: bool)
    requires !event.Done?
    ensures !event.FinalChunk? ==>
      Emit(Encoder([], isOpen, isClosed), event, traceOff) ==
        if traceOff then Encoder([], isOpen, isClosed)
        else Encoder(if isOpen then [TraceStep(event)] else [TraceOpen, TraceStep(event)], true, isClosed)
    ensures event.FinalChunk? ==>
      Emit(Encoder([], isOpen, isClosed), event, traceOff) ==
        if isOpen && !isClosed then Encoder([TraceClose, Delta(event.text)], true, true)
        else Encoder([Delta(event.text)], isOpen, isClosed)
  {
  }

  /** The branches for trace events and answer chunks. */
  method EmitFrames(event: Event, traceOff: bool, detailsOpened: bool, detailsClosed: bool)
    returns (frames: seq<Frame>, nowOpened: bool, nowClosed: bool)
    requires !event.Done?
    ensures Encoder(frames, nowOpened, nowClosed) == Emit(Encoder([], detailsOpened, detailsClosed), event, traceOff)
  {
    frames, nowOpened, nowClosed := [], detailsOpened, detailsClosed;
    if IsTrace(event) {
      if traceOff {
        return;
      }
      if !nowOpened {
        frames := frames + [TraceOpen];
        nowOpened := true;
      }
      frames := frames + [TraceStep(event)];
    } else {
      if nowOpened && !nowClosed {
        frames := frames + [TraceClose];
        nowClosed := true;
      }
      frames := frames + [Delta(event.text)];
    }
  }

  lemma EncodesNext(events: seq<Event>, k: nat, traceOff: bool, frames: seq<Frame>, state: Encoder, more: seq<Frame>,
                    isOpen: bool, isClosed: bool)
    requires k < |events| && state == Encoding(events[..k], traceOff) && frames == [Prelude] + state.frames
    requires Encoder(more, isOpen, isClosed) == Emit(Encoder([], state.isOpen, state.isClosed), events[k], traceOff)
    ensures var next := Emit(state, events[k], traceOff);
      && next == Encoding(events[..k + 1], traceOff) && frames + more == [Prelude] + next.frames
      && next.isOpen == isOpen && next.isClosed == isClosed
  {
    EncodingGrows(events[..k], events[k], traceOff);
    assert events[..k + 1] == events[..k] + [events[k]];
    EmitAfter(state.frames, state.isOpen, state.isClosed, events[k], traceOff);
  }

  /** `sse_stream_agentic` over a finite sequence of events. */
  method Encode(events: seq<Event>, traceOff: bool) returns (frames: seq<Frame>)
    ensures frames == Encoded(events, traceOff)
  {
    frames := [Prelude];
    var detailsOpened, detailsClosed, reason := false, false, "stop";
    ghost var state, seen := IDLE, events;
    for k := 0 to |events|
      invariant forall i :: 0 <= i < k ==> !events[i].Done?
      invariant state == Encoding(events[..k], traceOff) && state.isOpen == detailsOpened
        && state.isClosed == detailsClosed
      invariant frames == [Prelude] + state.frames && reason == "stop" && seen == events
    {
      if events[k].Done? {
        CutAt(events, k);
        reason, seen := events[k].reason, events[..k];
        break;
      }
      var more;
      more, detailsOpened, detailsClosed := EmitFrames(events[k], traceOff, detailsOpened, detailsClosed);
      EncodesNext(events, k, traceOff, frames, state, more, detailsOpened, detailsClosed);
      frames := frames + more;
      state := Emit(state, events[k], traceOff);
    }
    if seen == events {
      CutAt(events, |events|);
      assert events[..|events|] == events;
    }
    if detailsOpened && !detailsClosed {
      frames := frames + [TraceClose];
    }
    assert frames == [Prelude] + Closing(state).frames;
    frames := frames + [Finish(reason), DoneMark];
  }

  // ----- framing for every event sequence -----

  predicate IsBody(frame: Frame) { frame.TraceOpen? || frame.TraceStep? || frame.TraceClose? || frame.Delta? }

  function CountOpen(frames: seq<Frame>): nat
  {
    if frames == [] then 0 else CountOpen(frames[..|frames| - 1]) + if frames[|frames| - 1].TraceOpen? then 1 else 0
  }

  function CountClose(frames: seq<Frame>): nat
  {
    if frames == [] then 0 else CountClose(frames[..|frames| - 1]) + if frames[|frames| - 1].TraceClose? then 1 else 0
  }

  /** The text of the answer frames, in order. */
  function AnswerOf(frames: seq<Frame>): string
  {
    if frames == [] then ""
    else AnswerOf(frames[..|frames| - 1]) + if frames[|frames| - 1].Delta? then frames[|frames| - 1].text else ""
  }

  lemma FrameAppended(frames: seq<Frame>, frame: Frame)
    ensures CountOpen(frames + [frame]) == CountOpen(frames) + if frame.TraceOpen? then 1 else 0
    ensures CountClose(frames + [frame]) == CountClose(frames) + if frame.TraceClose? then 1 else 0
    ensures AnswerOf(frames + [frame]) == AnswerOf(frames) + if frame.Delta? then frame.text else ""
  {
  }

  /** Nothing is closed that is not open: every prefix has at least as many opens as closes. */
  ghost predicate OpensFirst(frames: seq<Frame>)
  {
    forall k :: 0 <= k <= |frames| ==> CountClose(frames[..k]) <= CountOpen(frames[..k])
  }

  lemma OpensFirstAppended(frames: seq<Frame>, frame: Frame)
    requires OpensFirst(frames) && (frame.TraceClose? ==> CountClose(frames) < CountOpen(frames))
    ensures OpensFirst(frames + [frame])
  {
    var more := frames + [frame];
    FrameAppended(frames, frame);
    assert frames[..|frames|] == frames && more[..|more|] == more;
    forall k | 0 <= k <= |more|
      ensures CountClose(more[..k]) <= CountOpen(more[..k])
    {
      if k <= |frames| {
        assert more[..k] == frames[..k];
      }
    }
  }

  /** The invariant of the encoder: only body frames, one open per opened block, one close per
      closed block, and nothing closed that was not opened. */
  ghost predicate Bracketed(encoder: Encoder)
  {
    && (forall f :: f in encoder.frames ==> IsBody(f))
    && CountOpen(encoder.frames) == (if encoder.isOpen then 1 else 0)
    && CountClose(encoder.frames) == (if encoder.isClosed then 1 else 0)
    && (encoder.isClosed ==> encoder.isOpen)
    && OpensFirst(encoder.frames)
  }

  lemma ClosingKeeps(encoder: Encoder)
    requires Bracketed(encoder)
    ensures Bracketed(Closing(encoder)) && AnswerOf(Closing(encoder).frames) == AnswerOf(encoder.frames)
  {
    FrameAppended(encoder.frames, TraceClose);
    if encoder.isOpen && !encoder.isClosed {
      OpensFirstAppended(encoder.frames, TraceClose);
    }
  }

  lemma AppendKeeps(encoder: Encoder, frame: Frame)
    requires Bracketed(encoder) && (frame.TraceStep? || frame.Delta?)
    ensures Bracketed(encoder.(frames := encoder.frames + [frame]))
    ensures AnswerOf(encoder.frames + [frame]) == AnswerOf(encoder.frames) + if frame.Delta? then frame.text else ""
  {
    FrameAppended(encoder.frames, frame);
    OpensFirstAppended(encoder.frames, frame);
  }

  lemma OpenKeeps(encoder: Encoder)
    requires Bracketed(encoder) && !encoder.isOpen
    ensures Bracketed(Encoder(encoder.frames + [TraceOpen], true, encoder.isClosed))
    ensures AnswerOf(encoder.frames + [TraceOpen]) == AnswerOf(encoder.frames)
  {
    FrameAppended(encoder.frames, TraceOpen);
    OpensFirstAppended(encoder.frames, TraceOpen);
  }

  lemma EmitKeeps(encoder: Encoder, event: Event, traceOff: bool)
    requires Bracketed(encoder) && !event.Done?
    ensures Bracketed(Emit(encoder, event, traceOff))
    ensures AnswerOf(Emit(encoder, event, traceOff).frames)
      == AnswerOf(encoder.frames) + if event.FinalChunk? then event.text else ""
  {
    if IsTrace(event) {
      if !traceOff {
        if !encoder.isOpen {
          OpenKeeps(encoder);
        }
        var open := if encoder.isOpen then encoder else Encoder(encoder.frames + [TraceOpen], true, encoder.isClosed);
        AppendKeeps(open, TraceStep(event));
      }
    } else {
      ClosingKeeps(encoder);
      AppendKeeps(Closing(encoder), Delta(event.text));
    }
  }

  lemma {:induction false} EncodingIsBracketed(events: seq<Event>, traceOff: bool)
    requires forall e :: e in events ==> !e.Done?
    ensures Bracketed(Encoding(events, traceOff))
    ensures AnswerOf(Encoding(events, traceOff).frames) == FinalText(events)
  {
    if events == [] {
    } else {
      var n := |events| - 1;
      EncodingIsBracketed(events[..n], traceOff);
      assert events[n] in events;
      EmitKeeps(Encoding(events[..n], traceOff), events[n], traceOff);
    }
  }

  /** For every finite event sequence: one prelude first, one finish frame and then [DONE] last
      and nowhere else, at most one trace block, opened before it is closed and always closed,
      and the answer text in order up to the first Done. */
  lemma StreamIsWellFramed(events: seq<Event>, traceOff: bool) returns (body: seq<Frame>)
    ensures Encoded(events, traceOff) == [Prelude] + body + [Finish(Reason(events)), DoneMark]
    ensures forall f :: f in body ==> IsBody(f)
    ensures CountOpen(body) == CountClose(body) <= 1 && OpensFirst(body)
    ensures AnswerOf(body) == FinalText(Cut(events))
  {
    CutHasNoDone(events);
    EncodingIsBracketed(Cut(events), traceOff);
    ClosingKeeps(Encoding(Cut(events), traceOff));
    body := Closing(Encoding(Cut(events), traceOff)).frames;
  }

  // ----- composed with the streaming loop -----

  function Steps(trace: seq<Event>): seq<Frame> { seq(|trace|, i requires 0 <= i < |trace| => TraceStep(trace[i])) }

  function Deltas(chunks: seq<Event>): seq<Frame>
    requires forall e :: e in chunks ==> e.FinalChunk?
  {
    seq(|chunks|, i requires 0 <= i < |chunks| => assert chunks[i] in chunks; Delta(chunks[i].text))
  }

  /** One bracketed block around a trace, or nothing. */
  function Block(trace: seq<Event>, traceOff: bool): seq<Frame>
  {
    if traceOff || trace == [] then [] else [TraceOpen] + Steps(trace) + [TraceClose]
  }

  lemma {:induction false} TraceEncoding(trace: seq<Event>, traceOff: bool)
    requires forall e :: e in trace ==> IsTrace(e)
    ensures Encoding(trace, traceOff)
      == if traceOff || trace == [] then IDLE else Encoder([TraceOpen] + Steps(trace), true, false)
  {
    if trace == [] {
    } else {
      var n := |trace| - 1;
      assert trace[n] in trace;
      TraceEncoding(trace[..n], traceOff);
      assert Steps(trace) == Steps(trace[..n]) + [TraceStep(trace[n])];
      assert n == 0 ==> Steps(trace[..n]) == [];
    }
  }

  /** The encoder after a trace and at least one answer chunk. */
  function Answering(trace: seq<Event>, chunks: seq<Event>, traceOff: bool): Encoder
    requires forall e :: e in chunks ==> e.FinalChunk?
  {
    var shown := !traceOff && trace != [];
    Encoder(Block(trace, traceOff) + Deltas(chunks), shown, shown)
  }

  lemma {:induction false} AnswerEncoding(trace: seq<Event>, chunks: seq<Event>, traceOff: bool)
    requires (forall e :: e in trace ==> IsTrace(e)) && (forall e :: e in chunks ==> e.FinalChunk?)
    ensures Closing(Encoding(trace + chunks, traceOff)) == Answering(trace, chunks, traceOff)
    decreases |chunks|
  {
    if chunks == [] {
      TraceEncoding(trace, traceOff);
      assert trace + chunks == trace;
    } else {
      var n := |chunks| - 1;
      var front, last := chunks[..n], chunks[n];
      assert chunks == front + [last] && last in chunks;
      AnswerEncoding(trace, front, traceOff);
      assert trace + chunks == trace + front + [last];
      EncodingGrows(trace + front, last, traceOff);
      AnswerStep(Encoding(trace + front, traceOff), trace, front, last, traceOff);
    }
  }

  lemma AnswerStep(state: Encoder, trace: seq<Event>, chunks: seq<Event>, chunk: Event, traceOff: bool)
    requires (forall e :: e in chunks ==> e.FinalChunk?) && chunk.FinalChunk?
    requires Closing(state) == Answering(trace, chunks, traceOff)
    ensures Closing(Emit(state, chunk, traceOff)) == Answering(trace, chunks + [chunk], traceOff)
  {
  }

  /** What a client sees of a run: the prelude, the whole trace in one bracketed block (none when
      the trace is off or empty), then the answer chunks, then finish and [DONE]. */
  lemma ClientSees(events: seq<Event>, trace: seq<Event>, chunks: seq<Event>, reason: string, traceOff: bool)
    requires StreamShape(events, trace, chunks, reason)
    ensures Encoded(events, traceOff)
      == [Prelude] + (Block(trace, traceOff) + Deltas(chunks)) + [Finish(reason), DoneMark]
  {
    var all := trace + chunks;
    AnswerEncoding(trace, chunks, traceOff);
    assert events[..|all|] == all;
    forall i | 0 <= i < |all|
      ensures !events[i].Done?
    {
      assert events[i] == all[i];
      if i < |trace| {
        assert trace[i] in trace;
      } else {
        assert chunks[i - |trace|] in chunks;
      }
    }
    CutAt(events, |all|);
  }

  /** From the model to the client: a run of the streaming loop that does not fail shows its
      trace, closes it, and only then streams the answer. */
  method ServeRun(world: World, policy: Policy, limits: Limits, first: Message, traceOff: bool)
    returns (frames: seq<Frame>, failure: Option<string>)
    requires first.role == User
    ensures failure.None? ==> exists trace, chunks, reason ::
      StreamShape(EventsOf(world, PlayOf(world, policy, limits, first)), trace, chunks, reason)
      && frames == [Prelude] + (Block(trace, traceOff) + Deltas(chunks)) + [Finish(reason), DoneMark]
  {
    var events, log;
    events, failure, log := RunStreaming(world, policy, limits, first);
    if failure.Some? {
      return [], failure;
    }
    LoopsAgree(world, policy, limits, first);
    frames := Encode(events, traceOff);
    ghost var trace, chunks, reason :| StreamShape(events, trace, chunks, reason);
    ClientSees(events, trace, chunks, reason, traceOff);
  }
}
