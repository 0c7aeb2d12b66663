/** The streaming queue and its buffered consumer: what is pushed, dropped, buffered and delivered. */
module Streaming {
  import opened Prelude

  /** A text delta; `None` is the end-of-stream sentinel. */
  type Chunk = Option<string>

  function TextOf(chunks: seq<Chunk>): string {
    if chunks == [] then ""
    else
      var last := chunks[|chunks| - 1];
      TextOf(chunks[..|chunks| - 1]) + if last.Some? then last.value else ""
  }

  function Concat(texts: seq<string>): string {
    if texts == [] then "" else Concat(texts[..|texts| - 1]) + texts[|texts| - 1]
  }

  lemma {:induction false} TextOfConcat(a: seq<Chunk>, b: seq<Chunk>)
    ensures TextOf(a + b) == TextOf(a) + TextOf(b)
  {
    if b == [] {
      assert a + b == a;
    } else {
      assert (a + b)[..|a + b| - 1] == a + b[..|b| - 1];
      TextOfConcat(a, b[..|b| - 1]);
    }
  }

  /** `accumulateChunks`. */
  method AccumulateChunks(chunks: seq<Chunk>) returns (text: string)
    ensures text == TextOf(chunks)
  {
    text := "";
    for i := 0 to |chunks|
      invariant text == TextOf(chunks[..i])
    {
      assert chunks[..i + 1][..i] == chunks[..i];
      if chunks[i].Some? {
        text := text + chunks[i].value;
      }
    }
    assert chunks[..|chunks|] == chunks;
  }

  // ----- the two objects

  class BufferedConsumer {
    const bufferSize: int
    var buffer: string
    /** The texts the consumer function was called with. */
    var calls: seq<string>

    constructor (bufferSize: int)
      ensures this.bufferSize == bufferSize && buffer == "" && calls == []
    {
      this.bufferSize := bufferSize;
      buffer, calls := "", [];
    }

    method OnFlush(chunks: seq<Chunk>)
      modifies this
      ensures (buffer, calls) == Buffered(old(buffer), old(calls), chunks, bufferSize)
    {
      var text := AccumulateChunks(chunks);
      buffer := buffer + text;
      if |buffer| >= bufferSize {
        calls := calls + [buffer];
        buffer := "";
      }
    }

    method OnEnd()
      modifies this
      ensures buffer == "" && calls == if old(buffer) == "" then old(calls) else old(calls) + [old(buffer)]
    {
      if |buffer| > 0 {
        calls := calls + [buffer];
        buffer := "";
      }
    }
  }

  function Buffered(buffer: string, calls: seq<string>, chunks: seq<Chunk>, bufferSize: int): (string, seq<string>) {
    var grown := buffer + TextOf(chunks);
    if |grown| >= bufferSize then ("", calls + [grown]) else (grown, calls)
  }

  datatype State = State(chunks: seq<Chunk>, ended: bool, buffer: string, calls: seq<string>)

  const INITIAL := State([], false, "", [])

  function AfterFlush(s: State, bufferSize: int): State {
    if s.chunks == [] then s
    else
      var (buffer, calls) := Buffered(s.buffer, s.calls, s.chunks, bufferSize);
      State([], s.ended, buffer, calls)
  }

  /** The queue with room made for one more chunk: the oldest goes when it is full. */
  function MakeRoom(chunks: seq<Chunk>, maxQueueSize: int): seq<Chunk> {
    if |chunks| >= maxQueueSize && chunks != [] then chunks[1..] else chunks
  }

  function AfterPush(s: State, c: Chunk, maxQueueSize: int, bufferSize: int): State {
    if s.ended then s
    else
      var queued := s.(chunks := MakeRoom(s.chunks, maxQueueSize) + [c]);
      if c.Some? then queued
      else
        var flushed := AfterFlush(queued.(ended := true), bufferSize);
        State([], true, "", if flushed.buffer == "" then flushed.calls else flushed.calls + [flushed.buffer])
  }

  class StreamingQueue {
    const maxQueueSize: int
    const consumer: BufferedConsumer
    var chunks: seq<Chunk>
    var ended: bool

    constructor (maxQueueSize: int, consumer: BufferedConsumer)
      ensures this.maxQueueSize == maxQueueSize && this.consumer == consumer && chunks == [] && !ended
    {
      this.maxQueueSize, this.consumer := maxQueueSize, consumer;
      chunks, ended := [], false;
    }

    function Stream(): State
      reads this, consumer
    {
      State(chunks, ended, consumer.buffer, consumer.calls)
    }

    method Drain() returns (pending: seq<Chunk>)
      modifies this`chunks
      ensures pending == old(chunks) && chunks == []
    {
      pending := chunks;
      chunks := [];
    }

    method Flush()
      modifies this`chunks, consumer
      ensures Stream() == AfterFlush(old(Stream()), consumer.bufferSize)
    {
      if |chunks| == 0 {
        return;
      }
      var pending := Drain();
      consumer.OnFlush(pending);
    }

    method Push(text: Chunk)
      modifies this, consumer
      ensures Stream() == AfterPush(old(Stream()), text, maxQueueSize, consumer.bufferSize)
    {
      hide Buffered;
      if ended {
        return;
      }
      if |chunks| >= maxQueueSize && |chunks| > 0 {
        chunks := chunks[1..];
      }
      chunks := chunks + [text];
      if text == None {
        ended := true;
        Flush();
        consumer.OnEnd();
      }
    }
  }

  // ----- every run of pushes and timer flushes

  datatype Event = Push(chunk: Chunk) | TimerFlush

  function Step(s: State, e: Event, maxQueueSize: int, bufferSize: int): State {
    match e
    case Push(c) => AfterPush(s, c, maxQueueSize, bufferSize)
    case TimerFlush => AfterFlush(s, bufferSize)
  }

  function Run(events: seq<Event>, maxQueueSize: int, bufferSize: int): State {
    if events == [] then INITIAL
    else Step(Run(events[..|events| - 1], maxQueueSize, bufferSize), events[|events| - 1], maxQueueSize, bufferSize)
  }

  /** The chunks pushed before or at the end of the stream; later pushes are ignored. */
  function Pushed(events: seq<Event>): seq<Chunk> {
    if events == [] then []
    else
      var before := Pushed(events[..|events| - 1]);
      if events[|events| - 1].Push? && None !in before then before + [events[|events| - 1].chunk] else before
  }

  /** The chunks handed to the consumer so far. */
  function Flushed(events: seq<Event>, maxQueueSize: int, bufferSize: int): seq<Chunk> {
    if events == [] then []
    else
      var s := Run(events[..|events| - 1], maxQueueSize, bufferSize);
      var before := Flushed(events[..|events| - 1], maxQueueSize, bufferSize);
      match events[|events| - 1]
      case TimerFlush => before + s.chunks
      case Push(c) => if c == None && !s.ended then before + (MakeRoom(s.chunks, maxQueueSize) + [c]) else before
  }

  /** Everything not dropped, in order: handed on or still queued. */
  function Survivors(events: seq<Event>, maxQueueSize: int, bufferSize: int): seq<Chunk> {
    Flushed(events, maxQueueSize, bufferSize) + Run(events, maxQueueSize, bufferSize).chunks
  }

  lemma ConcatLast(texts: seq<string>, t: string)
    ensures Concat(texts + [t]) == Concat(texts) + t
  {
    assert (texts + [t])[..|texts|] == texts;
  }

  /** What was handed to the consumer is delivered or still in its buffer. */
  lemma {:induction false} DeliveredAndBuffered(events: seq<Event>, maxQueueSize: int, bufferSize: int)
    ensures var s := Run(events, maxQueueSize, bufferSize);
            Concat(s.calls) + s.buffer == TextOf(Flushed(events, maxQueueSize, bufferSize))
  {
    if events != [] {
      var init := events[..|events| - 1];
      DeliveredAndBuffered(init, maxQueueSize, bufferSize);
      var s, e := Run(init, maxQueueSize, bufferSize), events[|events| - 1];
      var handed :=
        if e.TimerFlush? then s.chunks
        else if e.chunk == None && !s.ended then MakeRoom(s.chunks, maxQueueSize) + [e.chunk]
        else [];
      TextOfConcat(Flushed(init, maxQueueSize, bufferSize), handed);
      BufferedKeeps(s.buffer, s.calls, handed, bufferSize);
      if e.Push? && e.chunk == None && !s.ended {
        var (buffer, calls) := Buffered(s.buffer, s.calls, handed, bufferSize);
        ConcatLast(calls, buffer);
      } else if e.Push? {
        assert Flushed(init, maxQueueSize, bufferSize) + [] == Flushed(init, maxQueueSize, bufferSize);
      } else if s.chunks == [] {
        assert Flushed(init, maxQueueSize, bufferSize) + [] == Flushed(init, maxQueueSize, bufferSize);
      }
    }
  }

  lemma BufferedKeeps(buffer: string, calls: seq<string>, chunks: seq<Chunk>, bufferSize: int)
    ensures var (buffer', calls') := Buffered(buffer, calls, chunks, bufferSize);
            Concat(calls') + buffer' == Concat(calls) + buffer + TextOf(chunks)
  {
    ConcatLast(calls, buffer + TextOf(chunks));
    assert Concat(calls) + (buffer + TextOf(chunks)) == Concat(calls) + buffer + TextOf(chunks);
  }

  /** Conservation: delivered text, then the consumer's buffer, then the queue, is the text of the surviving chunks. */
  lemma Conservation(events: seq<Event>, maxQueueSize: int, bufferSize: int)
    ensures var s := Run(events, maxQueueSize, bufferSize);
            Concat(s.calls) + s.buffer + TextOf(s.chunks) == TextOf(Survivors(events, maxQueueSize, bufferSize))
  {
    DeliveredAndBuffered(events, maxQueueSize, bufferSize);
    TextOfConcat(Flushed(events, maxQueueSize, bufferSize), Run(events, maxQueueSize, bufferSize).chunks);
  }

  /** `a` is `b` with some elements left out. */
  ghost predicate Subsequence(a: seq<Chunk>, b: seq<Chunk>) {
    if a == [] then true
    else if b == [] then false
    else (a[|a| - 1] == b[|b| - 1] && Subsequence(a[..|a| - 1], b[..|b| - 1])) || Subsequence(a, b[..|b| - 1])
  }

  lemma NothingLeftOut(b: seq<Chunk>)
    ensures Subsequence([], b)
  {
  }

  lemma SubsequenceExtend(a: seq<Chunk>, b: seq<Chunk>, c: Chunk)
    requires Subsequence(a, b)
    ensures Subsequence(a + [c], b + [c])
  {
    assert (a + [c])[..|a|] == a && (b + [c])[..|b|] == b;
  }

  lemma {:induction false} SubsequenceDrop(a: seq<Chunk>, i: nat, b: seq<Chunk>)
    requires i < |a| && Subsequence(a, b)
    ensures Subsequence(a[..i] + a[i + 1..], b)
  {
    var cut := a[..i] + a[i + 1..];
    var b' := b[..|b| - 1];
    if a[|a| - 1] == b[|b| - 1] && Subsequence(a[..|a| - 1], b') {
      if i == |a| - 1 {
        assert cut == a[..|a| - 1];
        SubsequenceWeaken(cut, b);
      } else {
        var init := a[..|a| - 1];
        SubsequenceDrop(init, i, b');
        assert cut == init[..i] + init[i + 1..] + [a[|a| - 1]];
        assert b == b' + [b[|b| - 1]];
        SubsequenceExtend(init[..i] + init[i + 1..], b', a[|a| - 1]);
      }
    } else {
      SubsequenceDrop(a, i, b');
      SubsequenceWeaken(cut, b);
    }
  }

  lemma SubsequenceWeaken(a: seq<Chunk>, b: seq<Chunk>)
    requires b != [] && Subsequence(a, b[..|b| - 1])
    ensures Subsequence(a, b)
  {
  }

  /** The pushes since the queue was last emptied. */
  function SinceFlush(events: seq<Event>): nat {
    if events == [] then 0
    else match events[|events| - 1]
      case TimerFlush => 0
      case Push(_) => if None in Pushed(events) then 0 else SinceFlush(events[..|events| - 1]) + 1
  }

  function Capacity(maxQueueSize: int): nat {
    Max(1, maxQueueSize)
  }

  lemma {:induction false} QueueLength(events: seq<Event>, maxQueueSize: int, bufferSize: int)
    ensures var s := Run(events, maxQueueSize, bufferSize);
            && (s.ended <==> None in Pushed(events))
            && (s.ended ==> s.chunks == [] && s.buffer == "")
            && |s.chunks| == Min(SinceFlush(events), Capacity(maxQueueSize))
  {
    if events != [] {
      QueueLength(events[..|events| - 1], maxQueueSize, bufferSize);
    }
  }

  /** What is dropped is the oldest: the queue holds the chunks pushed last. */
  lemma {:induction false} QueueIsLatest(events: seq<Event>, maxQueueSize: int, bufferSize: int)
    ensures var s, pushed := Run(events, maxQueueSize, bufferSize), Pushed(events);
            |s.chunks| <= |pushed| && s.chunks == pushed[|pushed| - |s.chunks|..]
  {
    if events != [] {
      QueueIsLatest(events[..|events| - 1], maxQueueSize, bufferSize);
      QueueLength(events[..|events| - 1], maxQueueSize, bufferSize);
    }
  }

  /** All but the text delivered at the end fill the buffer, and a full buffer is never kept. */
  ghost predicate Prompt(s: State, bufferSize: int) {
    && (s.buffer != "" ==> |s.buffer| < bufferSize)
    && forall k :: 0 <= k < |s.calls| ==> FullOrLast(s, bufferSize, k)
  }

  ghost predicate FullOrLast(s: State, bufferSize: int, k: nat)
    requires k < |s.calls|
  {
    |s.calls[k]| >= bufferSize || (s.ended && k == |s.calls| - 1 && s.calls[k] != "")
  }

  lemma FlushIsPrompt(s: State, bufferSize: int)
    requires Prompt(s, bufferSize) && (s.ended ==> s.chunks == [])
    ensures Prompt(AfterFlush(s, bufferSize), bufferSize)
  {
    hide TextOf;
    var after := AfterFlush(s, bufferSize);
    forall k | 0 <= k < |after.calls|
      ensures FullOrLast(after, bufferSize, k)
    {
      assert k < |s.calls| ==> FullOrLast(s, bufferSize, k);
    }
  }

  lemma PushIsPrompt(s: State, c: Chunk, maxQueueSize: int, bufferSize: int)
    requires Prompt(s, bufferSize) && (s.ended ==> s.chunks == [])
    ensures Prompt(AfterPush(s, c, maxQueueSize, bufferSize), bufferSize)
  {
    hide AfterFlush, MakeRoom;
    var queued := s.(chunks := MakeRoom(s.chunks, maxQueueSize) + [c]);
    forall k | 0 <= k < |s.calls|
      ensures FullOrLast(queued, bufferSize, k)
    {
      assert FullOrLast(s, bufferSize, k);
    }
    if !s.ended && c == None {
      FlushIsPrompt(queued, bufferSize);
      EndedFlush(queued, bufferSize);
      var flushed := AfterFlush(queued, bufferSize);
      var after := AfterPush(s, c, maxQueueSize, bufferSize);
      forall k | 0 <= k < |after.calls|
        ensures FullOrLast(after, bufferSize, k)
      {
        assert k < |flushed.calls| ==> FullOrLast(flushed, bufferSize, k);
      }
    }
  }

  lemma EndedFlush(s: State, bufferSize: int)
    ensures AfterFlush(s.(ended := true), bufferSize) == AfterFlush(s, bufferSize).(ended := true)
    ensures AfterFlush(s, bufferSize).ended == s.ended
  {
  }

  lemma {:induction false} DeliveredWhenFull(events: seq<Event>, maxQueueSize: int, bufferSize: int)
    ensures Prompt(Run(events, maxQueueSize, bufferSize), bufferSize)
  {
    hide AfterFlush, AfterPush, Prompt;
    if events == [] {
      NothingDelivered(bufferSize);
    } else {
      var init, e := events[..|events| - 1], events[|events| - 1];
      DeliveredWhenFull(init, maxQueueSize, bufferSize);
      QueueLength(init, maxQueueSize, bufferSize);
      var s := Run(init, maxQueueSize, bufferSize);
      if e.Push? {
        PushIsPrompt(s, e.chunk, maxQueueSize, bufferSize);
      } else {
        FlushIsPrompt(s, bufferSize);
      }
    }
  }

  lemma NothingDelivered(bufferSize: int)
    ensures Prompt(INITIAL, bufferSize)
  {
  }

  /** Survivors are the pushed chunks with the dropped ones left out, and the queue never exceeds its capacity. */
  lemma {:induction false} SurvivorsInOrder(events: seq<Event>, maxQueueSize: int, bufferSize: int)
    ensures Subsequence(Survivors(events, maxQueueSize, bufferSize), Pushed(events))
    ensures |Run(events, maxQueueSize, bufferSize).chunks| <= Capacity(maxQueueSize)
  {
    hide Subsequence, Buffered;
    QueueLength(events, maxQueueSize, bufferSize);
    if events == [] {
      NothingLeftOut([]);
    } else {
      var init, e := events[..|events| - 1], events[|events| - 1];
      SurvivorsInOrder(init, maxQueueSize, bufferSize);
      QueueLength(init, maxQueueSize, bufferSize);
      SurvivorsStep(events, maxQueueSize, bufferSize);
      if e.Push? && None !in Pushed(init) {
        var s, flushed := Run(init, maxQueueSize, bufferSize), Flushed(init, maxQueueSize, bufferSize);
        var kept := flushed + MakeRoom(s.chunks, maxQueueSize);
        if MakeRoom(s.chunks, maxQueueSize) != s.chunks {
          var all := flushed + s.chunks;
          assert kept == all[..|flushed|] + all[|flushed| + 1..];
          SubsequenceDrop(all, |flushed|, Pushed(init));
        }
        SubsequenceExtend(kept, Pushed(init), e.chunk);
      }
    }
  }

  lemma SurvivorsStep(events: seq<Event>, maxQueueSize: int, bufferSize: int)
    requires events != []
    ensures var init, e := events[..|events| - 1], events[|events| - 1];
            var s := Run(init, maxQueueSize, bufferSize);
            Survivors(events, maxQueueSize, bufferSize)
            == if e.Push? && !s.ended
              then Flushed(init, maxQueueSize, bufferSize) + MakeRoom(s.chunks, maxQueueSize) + [e.chunk]
               else Survivors(init, maxQueueSize, bufferSize)
  {
    var init, e := events[..|events| - 1], events[|events| - 1];
    var s, flushed := Run(init, maxQueueSize, bufferSize), Flushed(init, maxQueueSize, bufferSize);
    if e.Push? && !s.ended {
      assert flushed + (MakeRoom(s.chunks, maxQueueSize) + [e.chunk]) == flushed + MakeRoom(s.chunks, maxQueueSize) +
             [e.chunk];
      assert flushed + MakeRoom(s.chunks, maxQueueSize) + [e.chunk] + [] ==
             flushed + MakeRoom(s.chunks, maxQueueSize) + [e.chunk];
    } else {
      assert flushed + s.chunks + [] == flushed + s.chunks;
    }
  }

  /** Every push that counted found room in the queue. */
  ghost predicate EveryPushHasRoom(events: seq<Event>, maxQueueSize: int) {
    forall j :: 0 <= j < |events| && events[j].Push? && None !in Pushed(events[..j]) ==>
      SinceFlush(events[..j]) < Capacity(maxQueueSize)
  }

  lemma RoomStep(events: seq<Event>, maxQueueSize: int)
    requires events != []
    ensures var init, e := events[..|events| - 1], events[|events| - 1];
            EveryPushHasRoom(events, maxQueueSize) <==>
              EveryPushHasRoom(init, maxQueueSize)
              && (e.Push? && None !in Pushed(init) ==> SinceFlush(init) < Capacity(maxQueueSize))
  {
    var init := events[..|events| - 1];
    assert forall j :: 0 <= j <= |init| ==> events[..j] == init[..j];
    assert init[..|init|] == init;
  }

  /** Nothing is lost exactly when every push found room. */
  lemma {:induction false} LosslessIff(events: seq<Event>, maxQueueSize: int, bufferSize: int)
    ensures |Survivors(events, maxQueueSize, bufferSize)| <= |Pushed(events)|
    ensures |Survivors(events, maxQueueSize, bufferSize)| == |Pushed(events)| <==>
            EveryPushHasRoom(events, maxQueueSize)
    ensures EveryPushHasRoom(events, maxQueueSize) ==> Survivors(events, maxQueueSize, bufferSize) == Pushed(events)
  {
    if events != [] {
      var init := events[..|events| - 1];
      LosslessIff(init, maxQueueSize, bufferSize);
      RoomStep(events, maxQueueSize);
      QueueLength(init, maxQueueSize, bufferSize);
      SurvivorsStep(events, maxQueueSize, bufferSize);
    }
  }

  /** After the end of the stream, if every push found room, what was delivered is everything that was pushed. */
  lemma AllDelivered(events: seq<Event>, maxQueueSize: int, bufferSize: int)
    requires None in Pushed(events) && EveryPushHasRoom(events, maxQueueSize)
    ensures Concat(Run(events, maxQueueSize, bufferSize).calls) == TextOf(Pushed(events))
  {
    QueueLength(events, maxQueueSize, bufferSize);
    LosslessIff(events, maxQueueSize, bufferSize);
    DeliveredAndBuffered(events, maxQueueSize, bufferSize);
    assert Flushed(events, maxQueueSize, bufferSize) + [] == Flushed(events, maxQueueSize, bufferSize);
  }
}
