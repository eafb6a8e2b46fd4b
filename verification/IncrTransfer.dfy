/**
 The incremental selection transfer (section 2.7.2 of the ICCCM) as clipboard/src/x11.rs
 sends and reads it. The owner appends a chunk each time the requestor deletes the
 property; a zero-length chunk ends the transfer.
 */
module IncrTransfer {
  import opened Wrappers
  import opened Bytes

  const MAX_EAGER_READ: nat := 16 * 1024 * 1024
  const INCR_MAX_CHUNK: nat := 1024 * 1024

  type Chunk = seq<byte>

  /** One send session: `payload[offset..]` is still to be appended. */
  datatype Session = Session(payload: seq<byte>, offset: nat, terminated: bool)

  predicate ValidSession(s: Session) {
    s.offset <= |s.payload| && (s.terminated ==> s.offset == |s.payload|)
  }

  datatype Advance = Append(chunk: Chunk) | Terminate | Done

  /** `advance_incr_send`: what a deletion of the property makes the owner do. */
  function AdvanceOf(s: Session, chunkSize: nat): Advance
    requires ValidSession(s)
  {
    if s.terminated then Done
    else if s.offset < |s.payload| then Append(s.payload[s.offset..Min(s.offset + chunkSize, |s.payload|)])
    else Terminate
  }

  function Advanced(s: Session, chunkSize: nat): (next: Session)
    requires ValidSession(s)
    ensures ValidSession(next)
  {
    if s.terminated then s
    else if s.offset < |s.payload| then s.(offset := Min(s.offset + chunkSize, |s.payload|))
    else s.(terminated := true)
  }

  function Min(a: nat, b: nat): nat {
    if a < b then a else b
  }

  // ----- The sender alone --------------------------------------------------------------

  /** Every chunk the sender still appends, terminator included, if it is driven to its end. */
  function Appends(s: Session, chunkSize: nat): seq<Chunk>
    requires ValidSession(s) && chunkSize > 0
    decreases |s.payload| - s.offset, !s.terminated
  {
    match AdvanceOf(s, chunkSize)
    case Append(chunk) => [chunk] + Appends(Advanced(s, chunkSize), chunkSize)
    case Terminate => [[]] + Appends(Advanced(s, chunkSize), chunkSize)
    case Done => []
  }

  /** The chunks are non-empty, at most `chunkSize` long, make up the payload, and one empty chunk ends them. */
  lemma {:induction false} SenderDeliversPayload(s: Session, chunkSize: nat)
    requires ValidSession(s) && !s.terminated && chunkSize > 0
    ensures var all := Appends(s, chunkSize);
      && all != [] && all[|all| - 1] == []
      && (forall i :: 0 <= i < |all| - 1 ==> 0 < |all[i]| <= chunkSize)
      && (forall i :: 0 <= i < |all| - 2 ==> |all[i]| == chunkSize)
      && Joined(all) == s.payload[s.offset..]
    decreases |s.payload| - s.offset
  {
    var next := Advanced(s, chunkSize);
    if s.offset < |s.payload| {
      SenderDeliversPayload(next, chunkSize);
      assert s.payload[s.offset..next.offset] + s.payload[next.offset..] == s.payload[s.offset..];
    } else {
      assert Appends(next, chunkSize) == [];
      assert Appends(s, chunkSize) == [[]];
      assert Joined([[]]) == [] + Joined([]);
    }
  }

  // ----- The reader alone ----------------------------------------------------------------

  datatype ReadEnd = Got(bytes: seq<byte>) | Abandoned

  /** The loop of `read_incr` over the chunks that arrive; running out of them is a stall. */
  function ReadChunks(acc: seq<byte>, chunks: seq<Chunk>): ReadEnd
    decreases chunks
  {
    if chunks == [] then Abandoned
    else if chunks[0] == [] then Got(acc)
    else if |acc| + |chunks[0]| > MAX_EAGER_READ then Abandoned
    else ReadChunks(acc + chunks[0], chunks[1..])
  }

  /** What `read_incr` answers for a declared bound, and whether it must rotate its scratch property. */
  function ReadIncr(bound: nat, chunks: seq<Chunk>): (ReadEnd, bool) {
    if bound > MAX_EAGER_READ then (Abandoned, false)
    else var end := ReadChunks([], chunks); (end, end.Abandoned?)
  }

  method ReadIncrLoop(bound: nat, chunks: seq<Chunk>) returns (end: ReadEnd, rotate: bool)
    ensures (end, rotate) == ReadIncr(bound, chunks)
  {
    if bound > MAX_EAGER_READ {
      return Abandoned, false;
    }
    var acc: seq<byte>, i := [], 0;
    while i < |chunks|
      invariant i <= |chunks|
      invariant ReadChunks([], chunks) == ReadChunks(acc, chunks[i..])
    {
      var chunk := chunks[i];
      if chunk == [] {
        return Got(acc), false;
      }
      // A property above one read leaves bytes behind, and is above the cap as well.
      if |acc| + |chunk| > MAX_EAGER_READ {
        return Abandoned, true;
      }
      assert chunks[i..][1..] == chunks[i + 1..];
      acc, i := acc + chunk, i + 1;
    }
    return Abandoned, true;
  }

  predicate EndsEmpty(chunks: seq<Chunk>) {
    chunks != [] && chunks[|chunks| - 1] == [] && forall i :: 0 <= i < |chunks| - 1 ==> chunks[i] != []
  }

  /** A whole transfer is read if and only if it fits the cap. */
  lemma {:induction false} WholeTransferIff(acc: seq<byte>, chunks: seq<Chunk>)
    requires EndsEmpty(chunks) && |acc| <= MAX_EAGER_READ
    ensures ReadChunks(acc, chunks)
      == if |acc| + |Joined(chunks)| <= MAX_EAGER_READ then Got(acc + Joined(chunks)) else Abandoned
    decreases chunks
  {
    if chunks[0] == [] {
      assert |chunks| == 1 && Joined(chunks) == [] + Joined([]);
      assert acc + [] == acc;
    } else {
      var rest := chunks[1..];
      forall i | 0 <= i < |rest| - 1 ensures rest[i] != [] {
        assert rest[i] == chunks[i + 1];
      }
      if |acc| + |chunks[0]| <= MAX_EAGER_READ {
        WholeTransferIff(acc + chunks[0], rest);
        assert acc + chunks[0] + Joined(rest) == acc + Joined(chunks);
      }
    }
  }

  /** A declared bound above the cap is refused unread; any other transfer is read, and its property given up if that fails. */
  lemma ReadIncrIff(bound: nat, chunks: seq<Chunk>)
    requires EndsEmpty(chunks)
    ensures ReadIncr(bound, chunks) ==
      if bound > MAX_EAGER_READ then (Abandoned, false)
      else if |Joined(chunks)| <= MAX_EAGER_READ then (Got(Joined(chunks)), false)
      else (Abandoned, true)
  {
    WholeTransferIff([], chunks);
    assert [] + Joined(chunks) == Joined(chunks);
  }

  /** A reader that stalls, or whose chunks stop early, never answers with part of a payload. */
  lemma {:induction false} CutTransferIsAbandoned(acc: seq<byte>, chunks: seq<Chunk>)
    requires forall i :: 0 <= i < |chunks| ==> chunks[i] != []
    ensures ReadChunks(acc, chunks) == Abandoned
    decreases chunks
  {
    if chunks != [] {
      CutTransferIsAbandoned(acc + chunks[0], chunks[1..]);
    }
  }

  lemma CutIsGivenUp(bound: nat, chunks: seq<Chunk>)
    requires forall i :: 0 <= i < |chunks| ==> chunks[i] != []
    ensures ReadIncr(bound, chunks) == (Abandoned, bound <= MAX_EAGER_READ)
  {
    CutTransferIsAbandoned([], chunks);
  }

  // ----- The two against each other ----------------------------------------------------------

  datatype Reader = Waiting(acc: seq<byte>) | Finished(end: ReadEnd)

  /**
   The property the two share, with the notifications on their way: `deletes` to the
   sender, `news` to the reader. `sender` is `None` once its session is torn down.
   */
  datatype Wire = Wire(
    sender: Option<Session>, property: Option<Chunk>, deletes: nat, news: nat, reader: Reader)

  datatype Event = SenderHears | ReaderHears | ReaderStalls | SenderGivesUp

  /** The reader has deleted the marker: the transfer is under way. */
  function Started(payload: seq<byte>): Wire {
    Wire(Some(Session(payload, 0, false)), None, 1, 0, Waiting([]))
  }

  predicate Enabled(w: Wire, e: Event) {
    match e
    case SenderHears => w.deletes > 0 && (w.sender.Some? ==> ValidSession(w.sender.value))
    case ReaderHears => w.reader.Waiting? && w.news > 0 && w.property.Some?
    case ReaderStalls => w.reader.Waiting?
    case SenderGivesUp => w.sender.Some?
  }

  function Next(w: Wire, chunkSize: nat, e: Event): Wire
    requires Enabled(w, e)
  {
    match e
    case SenderHears =>
      if w.sender.None? then w.(deletes := w.deletes - 1)
      else
        var s := w.sender.value;
        (match AdvanceOf(s, chunkSize)
         case Append(chunk) =>
           w.(sender := Some(Advanced(s, chunkSize)), deletes := w.deletes - 1, property := Some(chunk), news := w.news + 1)
         case Terminate =>
           w.(sender := Some(Advanced(s, chunkSize)), deletes := w.deletes - 1, property := Some([]), news := w.news + 1)
         case Done => w.(sender := None, deletes := w.deletes - 1))
    case ReaderHears =>
      var chunk, acc := w.property.value, w.reader.acc;
      var reader :=
        if chunk == [] then Finished(Got(acc))
        else if |acc| + |chunk| > MAX_EAGER_READ then Finished(Abandoned)
        else Waiting(acc + chunk);
      w.(reader := reader, news := w.news - 1, property := None, deletes := w.deletes + 1)
    case ReaderStalls => w.(reader := Finished(Abandoned))
    case SenderGivesUp => w.(sender := None)
  }

  predicate Legal(w: Wire, chunkSize: nat, run: seq<Event>)
    decreases run
  {
    run == [] || (Enabled(w, run[0]) && Legal(Next(w, chunkSize, run[0]), chunkSize, run[1..]))
  }

  function After(w: Wire, chunkSize: nat, run: seq<Event>): Wire
    requires Legal(w, chunkSize, run)
    decreases run
  {
    if run == [] then w else After(Next(w, chunkSize, run[0]), chunkSize, run[1..])
  }

  /** What the property holds is the next part of the payload, or the end behind all of it. */
  predicate ReaderInv(w: Wire, payload: seq<byte>) {
    match w.reader
    case Waiting(acc) =>
      && acc <= payload && |acc| <= MAX_EAGER_READ
      && (w.property.Some? && w.property.value != [] ==> acc + w.property.value <= payload)
      && (w.property == Some([]) ==> acc == payload)
    case Finished(Got(bytes)) => bytes == payload && |payload| <= MAX_EAGER_READ
    case Finished(Abandoned) => true
  }

  /** The session is exactly as far as reader and property together. */
  predicate SenderInv(w: Wire, payload: seq<byte>, s: Session) {
    && s.payload == payload && ValidSession(s)
    && (w.reader.Waiting? && w.property.None? ==>
          w.deletes == 1 && !s.terminated && w.reader.acc == payload[..s.offset])
    && (w.reader.Waiting? && w.property.Some? && w.property.value != [] ==>
          !s.terminated && w.reader.acc + w.property.value == payload[..s.offset])
    && (w.reader.Waiting? && w.property == Some([]) ==> s.terminated)
  }

  predicate WireInv(w: Wire, payload: seq<byte>) {
    && w.deletes + w.news <= 1 && (w.property.Some? <==> w.news == 1)
    && ReaderInv(w, payload)
    && (w.sender.Some? ==> SenderInv(w, payload, w.sender.value))
  }

  lemma SenderKeepsInv(w: Wire, payload: seq<byte>, chunkSize: nat)
    requires WireInv(w, payload) && Enabled(w, SenderHears) && chunkSize > 0
    ensures WireInv(Next(w, chunkSize, SenderHears), payload)
  {
    if w.sender.Some? && w.reader.Waiting? {
      var s := w.sender.value;
      var next := Advanced(s, chunkSize);
      if s.offset < |payload| {
        assert payload[..s.offset] + payload[s.offset..next.offset] == payload[..next.offset];
      } else {
        assert payload[..s.offset] == payload;
      }
    }
  }

  lemma NextKeepsInv(w: Wire, payload: seq<byte>, chunkSize: nat, e: Event)
    requires WireInv(w, payload) && Enabled(w, e) && chunkSize > 0
    ensures WireInv(Next(w, chunkSize, e), payload)
  {
    if e.SenderHears? {
      SenderKeepsInv(w, payload, chunkSize);
    }
  }

  lemma {:induction false} RunKeepsInv(w: Wire, payload: seq<byte>, chunkSize: nat, run: seq<Event>)
    requires WireInv(w, payload) && Legal(w, chunkSize, run) && chunkSize > 0
    ensures WireInv(After(w, chunkSize, run), payload)
    decreases run
  {
    if run != [] {
      NextKeepsInv(w, payload, chunkSize, run[0]);
      RunKeepsInv(Next(w, chunkSize, run[0]), payload, chunkSize, run[1..]);
    }
  }

  /** Whatever stalls or gives up, and in whatever order: a reader that answers answers with the payload. */
  lemma NoPartialPaste(payload: seq<byte>, chunkSize: nat, run: seq<Event>)
    requires Legal(Started(payload), chunkSize, run) && chunkSize > 0
    ensures var reader := After(Started(payload), chunkSize, run).reader;
      reader.Finished? && reader.end.Got? ==> reader.end.bytes == payload && |payload| <= MAX_EAGER_READ
  {
    RunKeepsInv(Started(payload), payload, chunkSize, run);
  }

  // ----- Progress ------------------------------------------------------------------------------

  predicate Undisturbed(run: seq<Event>) {
    forall e :: e in run ==> e.SenderHears? || e.ReaderHears?
  }

  /** What neither side can have yet, when nothing gave up. */
  predicate OnTrack(w: Wire, payload: seq<byte>) {
    && WireInv(w, payload)
    && (w.reader.Waiting? ==> w.sender.Some? && w.deletes + w.news == 1)
    && (w.reader == Finished(Abandoned) ==> |payload| > MAX_EAGER_READ)
    && (w.reader.Finished? && w.reader.end.Got? ==>
          w.property.None? && (w.sender.Some? ==> w.sender.value.terminated && w.deletes == 1))
  }

  /** Steps still to come. */
  function Work(w: Wire): nat
    requires w.sender.Some? ==> ValidSession(w.sender.value)
  {
    2 * w.news + w.deletes
    + (match w.sender
       case None => 0
       case Some(s) => 3 * (|s.payload| - s.offset + if s.terminated then 0 else 1) + 1)
  }

  lemma StepStaysOnTrack(w: Wire, payload: seq<byte>, chunkSize: nat, e: Event)
    requires OnTrack(w, payload) && Enabled(w, e) && (e.SenderHears? || e.ReaderHears?) && chunkSize > 0
    ensures OnTrack(Next(w, chunkSize, e), payload)
    ensures Work(Next(w, chunkSize, e)) < Work(w)
  {
    NextKeepsInv(w, payload, chunkSize, e);
  }

  lemma {:induction false} UndisturbedRun(w: Wire, payload: seq<byte>, chunkSize: nat, run: seq<Event>)
    requires OnTrack(w, payload) && Legal(w, chunkSize, run) && Undisturbed(run) && chunkSize > 0
    ensures OnTrack(After(w, chunkSize, run), payload)
    ensures |run| + Work(After(w, chunkSize, run)) <= Work(w)
    decreases run
  {
    if run != [] {
      assert run[0] in run;
      StepStaysOnTrack(w, payload, chunkSize, run[0]);
      UndisturbedRun(Next(w, chunkSize, run[0]), payload, chunkSize, run[1..]);
    }
  }

  /** No notification is on its way to anyone who still listens. */
  predicate Quiet(w: Wire) {
    !Enabled(w, SenderHears) && !Enabled(w, ReaderHears)
  }

  /**
   With nobody giving up the transfer ends within a bounded number of steps, and then the
   reader has the payload, and the sender's session is gone, if and only if it fits the cap.
   */
  lemma UndisturbedTransferEnds(payload: seq<byte>, chunkSize: nat, run: seq<Event>)
    requires Legal(Started(payload), chunkSize, run) && Undisturbed(run) && chunkSize > 0
    ensures |run| <= 3 * |payload| + 5
    ensures var w := After(Started(payload), chunkSize, run);
      Quiet(w) ==>
        && w.reader == Finished(if |payload| <= MAX_EAGER_READ then Got(payload) else Abandoned)
        && (|payload| <= MAX_EAGER_READ ==> w.sender.None? && w.property.None?)
  {
    UndisturbedRun(Started(payload), payload, chunkSize, run);
  }
}
