/**
 The consumer end of a data channel under cancellation (client/src/channel.rs,
 `ConsumerChannel`) together with its caller (clipboard/src/orchestrator.rs,
 `CoreFetcher::read_async`).

 A request future can be dropped at every await. A step below is the code between
 two awaits; the write of a request frame is atomic. The Core answers one request
 at a time with any frames it likes and one final frame, and may reset or lose the
 connection whenever it wants.
 */
module ConsumerChannels {
  import opened Wrappers
  import opened Bytes

  datatype Frame = Data(payload: seq<byte>) | Eof | Error(terminal: bool) | Unknown

  /** What `frames.recv()` yields. `of` is the request a frame answers; the code never sees it. */
  datatype Item = Got(of: Option<nat>, frame: Frame) | ReadFailed

  datatype Outcome = Received(buf: seq<byte>) | Code(terminal: bool) | Closed | Io

  /** Where the live request future is suspended. */
  datatype Phase =
    | NoRequest
    | Draining(limit: nat)
    | Writing(limit: nat)
    | Collecting(limit: nat, buf: seq<byte>)

  datatype Client = Client(draining: bool, phase: Phase)

  const NEW_CLIENT := Client(false, NoRequest)

  predicate Final(f: Frame) {
    f.Eof? || f.Error?
  }

  // ----- The client code ---------------------------------------------------

  /** `request`, up to its first await. */
  function Start(c: Client, limit: nat): Client {
    if c.draining then c.(phase := Draining(limit)) else Client(true, Writing(limit))
  }

  /** The return of `write_msg`. A failed write leaves `draining` set. */
  function Written(c: Client, ok: bool): (Client, Option<Outcome>)
    requires c.phase.Writing?
  {
    if ok then (c.(phase := Collecting(c.phase.limit, [])), None) else (c.(phase := NoRequest), Some(Io))
  }

  function Return(outcome: Outcome): (Client, Option<Outcome>) {
    (NEW_CLIENT, Some(outcome))
  }

  /** One turn of the loop of `drain_to_eof`. Once realigned, `request` goes on to its write. */
  function DrainOne(c: Client, item: Option<Item>): (Client, Option<Outcome>)
    requires c.phase.Draining?
  {
    match item
    case None => (c.(phase := NoRequest), Some(Closed))
    case Some(ReadFailed) => (c.(phase := NoRequest), Some(Io))
    case Some(Got(_, f)) =>
      if Final(f) then (Client(true, Writing(c.phase.limit)), None) else (c, None)
  }

  /** One turn of the loop of `collect`. Every return clears `draining`. */
  function CollectOne(c: Client, item: Option<Item>): (Client, Option<Outcome>)
    requires c.phase.Collecting?
  {
    match item
    case None => Return(Closed)
    case Some(ReadFailed) => Return(Io)
    case Some(Got(_, Data(payload))) =>
      if |payload| < 8 || |c.phase.buf| + (|payload| - 8) > c.phase.limit then Return(Io)
      else (c.(phase := Collecting(c.phase.limit, c.phase.buf + payload[8..])), None)
    case Some(Got(_, Eof)) => Return(Received(c.phase.buf))
    case Some(Got(_, Error(terminal))) => Return(Code(terminal))
    case Some(Got(_, Unknown)) => Return(Io)
  }

  predicate Receiving(c: Client) {
    c.phase.Draining? || c.phase.Collecting?
  }

  function Take(c: Client, item: Option<Item>): (Client, Option<Outcome>)
    requires Receiving(c)
  {
    if c.phase.Draining? then DrainOne(c, item) else CollectOne(c, item)
  }

  datatype Polled = Polled(client: Client, used: nat, outcome: Option<Outcome>)

  /** A poll: receive what has arrived until the future returns, must write, or has to wait. */
  function Poll(c: Client, arrived: seq<Item>): (p: Polled)
    ensures p.used <= |arrived|
    decreases arrived
  {
    if !Receiving(c) || arrived == [] then Polled(c, 0, None)
    else
      var (next, outcome) := Take(c, Some(arrived[0]));
      if outcome.Some? then Polled(next, 1, outcome)
      else var rest := Poll(next, arrived[1..]); rest.(used := 1 + rest.used)
  }

  class ConsumerChannel {
    var draining: bool
    var phase: Phase

    ghost function View(): Client
      reads this
    {
      Client(draining, phase)
    }

    constructor ()
      ensures View() == NEW_CLIENT
    {
      draining := false;
      phase := NoRequest;
    }

    method Request(limit: nat)
      modifies this
      ensures View() == Start(old(View()), limit)
    {
      if draining {
        phase := Draining(limit);
      } else {
        draining := true;
        phase := Writing(limit);
      }
    }

    method WriteReturned(ok: bool) returns (outcome: Option<Outcome>)
      requires phase.Writing?
      modifies this
      ensures (View(), outcome) == Written(old(View()), ok)
    {
      if ok {
        phase := Collecting(phase.limit, []);
        outcome := None;
      } else {
        phase := NoRequest;
        outcome := Some(Io);
      }
    }

    method DrainToEof(arrived: seq<Item>) returns (used: nat, outcome: Option<Outcome>)
      requires phase.Draining?
      modifies this
      ensures Polled(View(), used, outcome) == Poll(old(View()), arrived)
    {
      used, outcome := 0, None;
      ghost var start := View();
      while used < |arrived|
        invariant used <= |arrived| && outcome.None?
        invariant phase == start.phase && View() == start
        invariant Poll(start, arrived) == Shifted(Poll(View(), arrived[used..]), used)
      {
        var item := arrived[used];
        used := used + 1;
        assert arrived[used - 1..][1..] == arrived[used..];
        if item.ReadFailed? {
          phase := NoRequest;
          outcome := Some(Io);
          return;
        } else if item.frame.Eof? || item.frame.Error? {
          draining := false;
          draining, phase := true, Writing(phase.limit);
          return;
        }
      }
    }

    method Collect(arrived: seq<Item>) returns (used: nat, outcome: Option<Outcome>)
      requires phase.Collecting?
      modifies this
      ensures Polled(View(), used, outcome) == Poll(old(View()), arrived)
    {
      used, outcome := 0, None;
      ghost var start := View();
      while used < |arrived|
        invariant used <= |arrived| && outcome.None?
        invariant phase.Collecting? && draining == start.draining
        invariant Poll(start, arrived) == Shifted(Poll(View(), arrived[used..]), used)
      {
        var item := arrived[used];
        used := used + 1;
        assert arrived[used - 1..][1..] == arrived[used..];
        ghost var was := View();
        match item {
          case ReadFailed => outcome := Some(Io);
          case Got(_, Data(payload)) =>
            if |payload| < 8 {
              outcome := Some(Io);
            } else if |phase.buf| + (|payload| - 8) > phase.limit {
              outcome := Some(Io);
            } else {
              phase := Collecting(phase.limit, phase.buf + payload[8..]);
            }
          case Got(_, Eof) => outcome := Some(Received(phase.buf));
          case Got(_, Error(terminal)) => outcome := Some(Code(terminal));
          case Got(_, Unknown) => outcome := Some(Io);
        }
        if outcome.Some? {
          assert Poll(was, arrived[used - 1..]) == Polled(NEW_CLIENT, 1, outcome);
          draining, phase := false, NoRequest;
          return;
        }
      }
    }

    /** The future is dropped: nothing of the object changes but the await it was at. */
    method Cancel()
      modifies this`phase
      ensures View() == old(View()).(phase := NoRequest)
    {
      phase := NoRequest;
    }
  }

  function Shifted(p: Polled, n: nat): Polled {
    p.(used := p.used + n)
  }

  // ----- What a response is ------------------------------------------------

  /** The bytes a response carries. */
  function Payload(answer: seq<Frame>): seq<byte> {
    if answer == [] then []
    else
      var last := answer[|answer| - 1];
      Payload(answer[..|answer| - 1]) + (if last.Data? && |last.payload| >= 8 then last.payload[8..] else [])
  }

  predicate Unfinished(answer: seq<Frame>) {
    forall f :: f in answer ==> !Final(f)
  }

  /** A whole response: any frames, then its one final frame. */
  predicate Whole(answer: seq<Frame>) {
    answer != [] && Final(answer[|answer| - 1]) && Unfinished(answer[..|answer| - 1])
  }

  predicate WellFormed(answer: seq<Frame>) {
    forall f :: f in answer ==> f.Data? && |f.payload| >= 8
  }

  function Tagged(id: nat, answer: seq<Frame>): (items: seq<Item>)
    ensures |items| == |answer|
  {
    seq(|answer|, i requires 0 <= i < |answer| => Got(Some(id), answer[i]))
  }

  // ----- The channel, with the Core at its other end -----------------------

  /**
   `answers[i]` is what the Core has sent in reply to request `i`, and `taken` how much
   of the latest answer was received: both are bookkeeping of the model. `wire` holds
   what was sent and not received, `asked` the requests the Core has not taken up.
   */
  datatype Channel = Channel(
    client: Client, asked: seq<nat>, serving: Option<nat>, wire: seq<Item>, closed: bool,
    answers: seq<seq<Frame>>, taken: nat)

  const FRESH := Channel(NEW_CLIENT, [], None, [], false, [], 0)

  datatype Event =
    | Call(limit: nat)
    | WriteEnds(ok: bool)
    | Receive
    | Drop                 // the request future is dropped
    | Watch                // `ended`, between requests
    | CoreTakes
    | CoreSends(frame: Frame)
    | CoreResets           // an unsolicited terminal ERROR, then the close
    | CoreGone(failed: bool)

  predicate Enabled(ch: Channel, e: Event) {
    match e
    case Call(_) => ch.client.phase.NoRequest?
    case WriteEnds(_) => ch.client.phase.Writing?
    case Receive => Receiving(ch.client) && (ch.wire != [] || ch.closed)
    case Drop => !ch.client.phase.NoRequest?
    case Watch => ch.client == NEW_CLIENT && ch.wire != []
    case CoreTakes => !ch.closed && ch.serving.None? && ch.asked != []
    case CoreSends(_) => !ch.closed && ch.serving.Some? && ch.serving.value < |ch.answers|
    case CoreResets => !ch.closed
    case CoreGone(_) => !ch.closed
  }

  function Advance(ch: Channel): Channel
    requires ch.wire != []
  {
    ch.(wire := ch.wire[1..],
        taken := if ch.wire[0].Got? && ch.wire[0].of == Some(|ch.answers| - 1) then ch.taken + 1 else ch.taken)
  }

  function Arrival(ch: Channel): Option<Item> {
    if ch.wire == [] then None else Some(ch.wire[0])
  }

  function Ended(ch: Channel, last: seq<Item>): Channel {
    ch.(wire := ch.wire + last, closed := true, asked := [], serving := None)
  }

  function Step(ch: Channel, e: Event): (Channel, Option<Outcome>)
    requires Enabled(ch, e)
  {
    match e
    case Call(limit) => (ch.(client := Start(ch.client, limit)), None)
    case WriteEnds(ok) =>
      var (client, outcome) := Written(ch.client, ok);
      if !ok then (ch.(client := client), outcome)
      else
        (ch.(client := client, answers := ch.answers + [[]], taken := 0,
             asked := if ch.closed then ch.asked else ch.asked + [|ch.answers|]), outcome)
    case Receive =>
      var (client, outcome) := Take(ch.client, Arrival(ch));
      ((if ch.wire == [] then ch else Advance(ch)).(client := client), outcome)
    case Drop => (ch.(client := ch.client.(phase := NoRequest)), None)
    case Watch => (Advance(ch), None)
    case CoreTakes => (ch.(serving := Some(ch.asked[0]), asked := ch.asked[1..]), None)
    case CoreSends(f) =>
      var id := ch.serving.value;
      var sent := ch.(
        answers := ch.answers[id := ch.answers[id] + [f]], wire := ch.wire + [Got(Some(id), f)],
        serving := if Final(f) then None else ch.serving);
      (if f.Error? && f.terminal then Ended(sent, []) else sent, None)
    case CoreResets => (Ended(ch, [Got(None, Error(true))]), None)
    case CoreGone(failed) => (Ended(ch, if failed then [ReadFailed] else []), None)
  }

  // ----- The caller ---------------------------------------------------------

  /** Which failures make the caller drop its channel. */
  datatype Policy = Policy(onIo: bool, onClosed: bool, onTerminal: bool)

  const CORE_FETCHER := Policy(true, true, true)

  predicate SessionOver(p: Policy, outcome: Outcome) {
    match outcome
    case Received(_) => false
    case Code(terminal) => terminal && p.onTerminal
    case Closed => p.onClosed
    case Io => p.onIo
  }

  /** One returned call: its own answer at that moment, and what it returned. */
  datatype Reply = Reply(answer: seq<Frame>, outcome: Outcome)

  /** The caller's slot and every call that has returned so far, over all its channels. */
  datatype World = World(slot: Option<Channel>, log: seq<Reply>)

  const START := World(None, [])

  datatype Move = Open | On(event: Event)

  predicate CanMove(w: World, m: Move) {
    match m
    case Open => w.slot.None?
    case On(e) => w.slot.Some? && Enabled(w.slot.value, e)
  }

  function OwnAnswer(ch: Channel): seq<Frame> {
    if ch.client.phase.Collecting? && ch.answers != [] then ch.answers[|ch.answers| - 1] else []
  }

  function Do(p: Policy, w: World, m: Move): World
    requires CanMove(w, m)
  {
    match m
    case Open => w.(slot := Some(FRESH))
    case On(e) =>
      var (ch, outcome) := Step(w.slot.value, e);
      if outcome.None? then w.(slot := Some(ch))
      else
        World(if SessionOver(p, outcome.value) then None else Some(ch),
              w.log + [Reply(OwnAnswer(w.slot.value), outcome.value)])
  }

  predicate Legal(p: Policy, w: World, run: seq<Move>)
    decreases run
  {
    run == [] || (CanMove(w, run[0]) && Legal(p, Do(p, w, run[0]), run[1..]))
  }

  function After(p: Policy, w: World, run: seq<Move>): World
    requires Legal(p, w, run)
    decreases run
  {
    if run == [] then w else After(p, Do(p, w, run[0]), run[1..])
  }

  // ----- What is claimed ------------------------------------------------------

  /** `Ok(buf)` is the whole of the call's own answer, and a request-scoped code its own too. */
  predicate Faithful(r: Reply) {
    match r.outcome
    case Received(buf) =>
      Whole(r.answer) && r.answer[|r.answer| - 1] == Eof && buf == Payload(r.answer)
    case Code(terminal) =>
      terminal || (Whole(r.answer) && r.answer[|r.answer| - 1] == Error(false))
    case _ => true
  }

  /** Only the latest request can still have frames to come. */
  predicate OneOutstanding(ch: Channel) {
    && |ch.asked| + (if ch.serving.Some? then 1 else 0) <= 1
    && (forall id :: id in ch.asked ==> id == |ch.answers| - 1)
    && (ch.serving.Some? ==> ch.serving.value == |ch.answers| - 1)
    && (forall item :: item in ch.wire && item.Got? && item.of.Some? ==> item.of.value == |ch.answers| - 1)
  }

  predicate Isolated(w: World) {
    && (forall r :: r in w.log ==> Faithful(r))
    && (w.slot.Some? ==> OneOutstanding(w.slot.value))
  }

  // ----- The invariant ---------------------------------------------------------

  function Last(ch: Channel): seq<Frame> {
    if ch.answers == [] then [] else ch.answers[|ch.answers| - 1]
  }

  /** What the Core's end of the connection left behind the answers. */
  predicate IsTail(ch: Channel, tail: seq<Item>) {
    tail == [] || (ch.closed && tail in [[Got(None, Error(true))], [ReadFailed]])
  }

  function Left(ch: Channel): seq<Item>
    requires ch.taken <= |Last(ch)|
  {
    if ch.answers == [] then [] else Tagged(|ch.answers| - 1, Last(ch)[ch.taken..])
  }

  /** The wire is what is left of the latest answer, then the end of the connection if it ended. */
  ghost predicate WireInv(ch: Channel) {
    && ch.taken <= |Last(ch)|
    && exists tail :: IsTail(ch, tail) && ch.wire == Left(ch) + tail
  }

  /** The Core answers the latest request, and it is done with all others. */
  predicate CoreInv(ch: Channel) {
    && (Unfinished(Last(ch)) || Whole(Last(ch)))
    && (ch.asked == [] || (ch.asked == [|ch.answers| - 1] && ch.serving.None? && Last(ch) == []))
    && (ch.serving.Some? ==> ch.answers != [] && ch.serving.value == |ch.answers| - 1 && Unfinished(Last(ch)))
    && (ch.closed ==> ch.asked == [] && ch.serving.None?)
    && (ch.asked == [] && ch.serving.None? && !ch.closed && ch.answers != [] ==> Whole(Last(ch)))
  }

  /** Nothing of any answer is left to receive. */
  predicate Aligned(ch: Channel) {
    ch.taken == |Last(ch)| && ch.asked == [] && ch.serving.None?
  }

  predicate ClientInv(ch: Channel) {
    match ch.client.phase
    case NoRequest => ch.client.draining || Aligned(ch)
    case Draining(_) => ch.client.draining
    case Writing(_) => ch.client.draining && Aligned(ch)
    case Collecting(_, buf) =>
      && ch.client.draining && ch.answers != [] && ch.taken <= |Last(ch)|
      && Unfinished(Last(ch)[..ch.taken]) && buf == Payload(Last(ch)[..ch.taken])
  }

  ghost predicate Inv(ch: Channel) {
    WireInv(ch) && CoreInv(ch) && ClientInv(ch)
  }

  lemma InvIsolates(ch: Channel)
    requires Inv(ch)
    ensures OneOutstanding(ch)
  {
  }

  lemma FinalIsLast(answer: seq<Frame>, k: nat)
    requires Unfinished(answer) || Whole(answer)
    requires k < |answer| && Final(answer[k])
    ensures k == |answer| - 1 && Whole(answer) && answer[..k] == answer[..|answer| - 1]
  {
    if Whole(answer) {
      assert forall f :: f in answer[..|answer| - 1] ==> !Final(f);
      assert forall i :: 0 <= i < |answer| - 1 ==> answer[i] in answer[..|answer| - 1];
    }
  }

  lemma WireIgnoresClient(ch: Channel, client: Client)
    requires WireInv(ch)
    ensures WireInv(ch.(client := client))
  {
    var tail :| IsTail(ch, tail) && ch.wire == Left(ch) + tail;
    var next := ch.(client := client);
    assert IsTail(next, tail) && next.wire == Left(next) + tail;
  }

  /** The next item is the next frame of the latest answer, or the end of the connection behind it. */
  predicate HeadIsNext(ch: Channel) {
    if ch.taken < |Last(ch)| then
      ch.wire == [] || ch.wire[0] == Got(Some(|ch.answers| - 1), Last(ch)[ch.taken])
    else
      ch.wire == [] || (ch.wire[0] in [Got(None, Error(true)), ReadFailed] && ch.closed)
  }

  lemma HeadOfWire(ch: Channel)
    requires WireInv(ch)
    ensures HeadIsNext(ch)
    ensures ch.wire == [] ==> ch.taken == |Last(ch)|
  {
    var tail :| IsTail(ch, tail) && ch.wire == Left(ch) + tail;
    if ch.taken < |Last(ch)| {
      assert Left(ch)[0] == Got(Some(|ch.answers| - 1), Last(ch)[ch.taken]);
    } else {
      assert ch.wire == tail;
    }
  }

  lemma TaggedRest(id: nat, answer: seq<Frame>, k: nat, next: nat, tail: seq<Item>)
    requires k < |answer| && next == k + 1
    ensures var items := Tagged(id, answer[k..]) + tail;
      items[0] == Got(Some(id), answer[k]) && items[1..] == Tagged(id, answer[next..]) + tail
  {
    assert answer[k..][0] == answer[k] && answer[k..][1..] == answer[next..];
    assert Tagged(id, answer[k..])[1..] == Tagged(id, answer[next..]);
  }

  lemma AdvanceInAnswer(ch: Channel, tail: seq<Item>)
    requires ch.taken < |Last(ch)| && IsTail(ch, tail) && ch.wire == Left(ch) + tail
    ensures ch.wire != [] && WireInv(Advance(ch))
  {
    TaggedRest(|ch.answers| - 1, Last(ch), ch.taken, ch.taken + 1, tail);
    var next := Advance(ch);
    assert IsTail(next, tail) && next.wire == Left(next) + tail;
  }

  lemma AdvancePastAnswer(ch: Channel)
    requires ch.taken == |Last(ch)| && IsTail(ch, ch.wire) && ch.wire != []
    ensures WireInv(Advance(ch))
  {
    var next := Advance(ch);
    assert IsTail(next, []) && next.wire == Left(next) + [];
  }

  lemma AdvanceKeepsWire(ch: Channel)
    requires WireInv(ch) && ch.wire != []
    ensures WireInv(Advance(ch))
  {
    var tail :| IsTail(ch, tail) && ch.wire == Left(ch) + tail;
    if ch.taken < |Last(ch)| {
      AdvanceInAnswer(ch, tail);
    } else {
      assert ch.wire == tail;
      AdvancePastAnswer(ch);
    }
  }

  lemma ClientStepKeepsWire(ch: Channel, e: Event)
    requires WireInv(ch) && ClientInv(ch) && Enabled(ch, e) && (e.Call? || e.WriteEnds? || e.Drop?)
    ensures WireInv(Step(ch, e).0)
  {
    var next := Step(ch, e).0;
    var tail :| IsTail(ch, tail) && ch.wire == Left(ch) + tail;
    assert IsTail(next, tail) && next.wire == Left(next) + tail;
  }

  lemma CoreSendKeepsWire(ch: Channel, f: Frame)
    requires WireInv(ch) && CoreInv(ch) && Enabled(ch, CoreSends(f))
    ensures WireInv(Step(ch, CoreSends(f)).0)
  {
    var next := Step(ch, CoreSends(f)).0;
    var tail :| IsTail(ch, tail) && ch.wire == Left(ch) + tail;
    assert Last(next) == Last(ch) + [f];
    assert Last(next)[ch.taken..] == Last(ch)[ch.taken..] + [f];
    assert Left(next) == Left(ch) + [Got(Some(|ch.answers| - 1), f)];
    assert IsTail(next, []) && next.wire == Left(next) + [];
  }

  lemma CoreEndKeepsWire(ch: Channel, end: seq<Item>)
    requires WireInv(ch) && !ch.closed && end in [[], [Got(None, Error(true))], [ReadFailed]]
    ensures WireInv(Ended(ch, end))
  {
    var next := Ended(ch, end);
    var tail :| IsTail(ch, tail) && ch.wire == Left(ch) + tail;
    assert IsTail(next, end) && next.wire == Left(next) + end;
  }

  lemma CoreTakeKeepsWire(ch: Channel)
    requires WireInv(ch) && Enabled(ch, CoreTakes)
    ensures WireInv(Step(ch, CoreTakes).0)
  {
    var next := Step(ch, CoreTakes).0;
    var tail :| IsTail(ch, tail) && ch.wire == Left(ch) + tail;
    assert IsTail(next, tail) && next.wire == Left(next) + tail;
  }

  lemma SendKeepsCore(ch: Channel, f: Frame)
    requires CoreInv(ch) && Enabled(ch, CoreSends(f))
    ensures CoreInv(Step(ch, CoreSends(f)).0)
  {
    var next := Step(ch, CoreSends(f)).0;
    assert Last(next) == Last(ch) + [f];
    assert Last(next)[..|Last(ch)|] == Last(ch);
  }

  lemma RequestKeepsCore(ch: Channel, ok: bool)
    requires CoreInv(ch) && ClientInv(ch) && Enabled(ch, WriteEnds(ok))
    ensures CoreInv(Step(ch, WriteEnds(ok)).0)
  {
  }

  lemma EndKeepsCore(ch: Channel, end: seq<Item>)
    requires CoreInv(ch)
    ensures CoreInv(Ended(ch, end))
  {
  }

  lemma TakeKeepsCore(ch: Channel)
    requires CoreInv(ch) && Enabled(ch, CoreTakes)
    ensures CoreInv(Step(ch, CoreTakes).0)
  {
  }

  /** What the client does with what arrived is nothing to the Core. */
  lemma ClientLeavesCore(ch: Channel, next: Channel)
    requires CoreInv(ch) && next.answers == ch.answers && next.asked == ch.asked
    requires next.serving == ch.serving && next.closed == ch.closed
    ensures CoreInv(next)
  {
  }

  lemma StepKeepsCore(ch: Channel, e: Event)
    requires Inv(ch) && Enabled(ch, e)
    ensures CoreInv(Step(ch, e).0)
  {
    match e {
      case WriteEnds(ok) => RequestKeepsCore(ch, ok);
      case CoreTakes => TakeKeepsCore(ch);
      case CoreSends(f) => SendKeepsCore(ch, f);
      case CoreResets => EndKeepsCore(ch, [Got(None, Error(true))]);
      case CoreGone(failed) => EndKeepsCore(ch, if failed then [ReadFailed] else []);
      case _ => ClientLeavesCore(ch, Step(ch, e).0);
    }
  }

  lemma CollectedOneMore(ch: Channel)
    requires CoreInv(ch) && ClientInv(ch) && ch.wire != [] && HeadIsNext(ch) && ch.taken <= |Last(ch)|
    requires ch.client.phase.Collecting? && CollectOne(ch.client, Some(ch.wire[0])).1.None?
    ensures ClientInv(Step(ch, Receive).0)
  {
    var a, k := Last(ch), ch.taken;
    assert k < |a| && a[k].Data?;
    assert a[..k + 1] == a[..k] + [a[k]];
    assert a[..k + 1][..k] == a[..k];
  }

  /** Draining and collecting both stop at the final frame, which leaves the channel aligned. */
  lemma ReceiptKeepsClient(ch: Channel)
    requires CoreInv(ch) && ClientInv(ch) && Enabled(ch, Receive) && HeadIsNext(ch)
    requires ch.taken <= |Last(ch)| && (ch.wire == [] ==> ch.taken == |Last(ch)|)
    requires Step(ch, Receive).1 != Some(Io)
    ensures ClientInv(Step(ch, Receive).0)
  {
    if ch.wire == [] {
    } else if ch.client.phase.Collecting? && CollectOne(ch.client, Some(ch.wire[0])).1.None? {
      CollectedOneMore(ch);
    } else if ch.taken < |Last(ch)| && Final(Last(ch)[ch.taken]) {
      FinalIsLast(Last(ch), ch.taken);
    }
  }

  lemma SendKeepsClient(ch: Channel, f: Frame)
    requires ClientInv(ch) && CoreInv(ch) && ch.taken <= |Last(ch)| && Enabled(ch, CoreSends(f))
    ensures ClientInv(Step(ch, CoreSends(f)).0)
  {
    assert Last(Step(ch, CoreSends(f)).0) == Last(ch) + [f];
    assert (Last(ch) + [f])[..ch.taken] == Last(ch)[..ch.taken];
  }

  lemma WatchKeepsClient(ch: Channel)
    requires Inv(ch) && Enabled(ch, Watch)
    ensures ClientInv(Step(ch, Watch).0)
  {
    HeadOfWire(ch);
  }

  lemma EndKeepsClient(ch: Channel, end: seq<Item>)
    requires ClientInv(ch)
    ensures ClientInv(Ended(ch, end))
  {
  }

  lemma StepKeepsClient(ch: Channel, e: Event)
    requires Inv(ch) && Enabled(ch, e)
    requires e.Receive? ==> Step(ch, e).1 != Some(Io)
    ensures ClientInv(Step(ch, e).0)
  {
    match e {
      case Receive =>
        HeadOfWire(ch);
        ReceiptKeepsClient(ch);
      case Watch => WatchKeepsClient(ch);
      case CoreSends(f) => SendKeepsClient(ch, f);
      case CoreResets => EndKeepsClient(ch, [Got(None, Error(true))]);
      case CoreGone(failed) => EndKeepsClient(ch, if failed then [ReadFailed] else []);
      case _ =>
    }
  }

  /** Every step keeps the invariant, but the one on which a call returns an `Io` failure. */
  lemma StepKeepsInv(ch: Channel, e: Event)
    requires Inv(ch) && Enabled(ch, e)
    requires e.Receive? ==> Step(ch, e).1 != Some(Io)
    ensures Inv(Step(ch, e).0)
  {
    match e {
      case Call(_) | WriteEnds(_) | Drop => ClientStepKeepsWire(ch, e);
      case Receive | Watch =>
        if ch.wire != [] {
          AdvanceKeepsWire(ch);
        }
        WireIgnoresClient(if ch.wire == [] then ch else Advance(ch), Step(ch, e).0.client);
      case CoreTakes => CoreTakeKeepsWire(ch);
      case CoreSends(f) => CoreSendKeepsWire(ch, f);
      case CoreResets => CoreEndKeepsWire(ch, [Got(None, Error(true))]);
      case CoreGone(failed) => CoreEndKeepsWire(ch, if failed then [ReadFailed] else []);
    }
    StepKeepsCore(ch, e);
    StepKeepsClient(ch, e);
  }

  lemma WholeAnswer(answer: seq<Frame>, k: nat)
    requires Unfinished(answer) || Whole(answer)
    requires k < |answer| && Final(answer[k])
    ensures Whole(answer) && answer[|answer| - 1] == answer[k] && Payload(answer[..k]) == Payload(answer)
  {
    FinalIsLast(answer, k);
  }

  lemma CollectedIsFaithful(ch: Channel)
    requires CoreInv(ch) && ClientInv(ch) && HeadIsNext(ch) && ch.taken <= |Last(ch)|
    requires ch.client.phase.Collecting? && ch.wire != [] && CollectOne(ch.client, Some(ch.wire[0])).1.Some?
    ensures Faithful(Reply(Last(ch), CollectOne(ch.client, Some(ch.wire[0])).1.value))
  {
    if ch.taken < |Last(ch)| && Final(Last(ch)[ch.taken]) {
      WholeAnswer(Last(ch), ch.taken);
    }
  }

  lemma ReturnsAreFaithful(ch: Channel, e: Event)
    requires CoreInv(ch) && ClientInv(ch) && Enabled(ch, e) && Step(ch, e).1.Some?
    requires HeadIsNext(ch) && ch.taken <= |Last(ch)|
    ensures Faithful(Reply(OwnAnswer(ch), Step(ch, e).1.value))
  {
    if e.Receive? && ch.wire != [] && ch.client.phase.Collecting? {
      CollectedIsFaithful(ch);
    }
  }

  ghost predicate WorldInv(w: World) {
    (forall r :: r in w.log ==> Faithful(r)) && (w.slot.Some? ==> Inv(w.slot.value))
  }

  lemma MoveWithoutIo(p: Policy, w: World, m: Move)
    requires WorldInv(w) && CanMove(w, m) && (m.On? ==> Step(w.slot.value, m.event).1 != Some(Io))
    ensures WorldInv(Do(p, w, m))
  {
    if m.On? {
      var ch := w.slot.value;
      if Step(ch, m.event).1.Some? {
        HeadOfWire(ch);
        ReturnsAreFaithful(ch, m.event);
      }
      StepKeepsInv(ch, m.event);
    } else {
      assert IsTail(FRESH, []) && FRESH.wire == Left(FRESH) + [];
    }
  }

  lemma MoveKeepsInv(p: Policy, w: World, m: Move)
    requires p.onIo && WorldInv(w) && CanMove(w, m)
    ensures WorldInv(Do(p, w, m))
  {
    if m.On? && Step(w.slot.value, m.event).1 == Some(Io) {
      HeadOfWire(w.slot.value);
      ReturnsAreFaithful(w.slot.value, m.event);
    } else {
      MoveWithoutIo(p, w, m);
    }
  }

  lemma {:induction false} RunKeepsInv(p: Policy, w: World, run: seq<Move>)
    requires p.onIo && WorldInv(w) && Legal(p, w, run)
    ensures WorldInv(After(p, w, run))
    decreases run
  {
    if run != [] {
      MoveKeepsInv(p, w, run[0]);
      RunKeepsInv(p, Do(p, w, run[0]), run[1..]);
    }
  }

  lemma {:induction false} OneMore(p: Policy, w: World, run: seq<Move>, m: Move)
    requires Legal(p, w, run) && CanMove(After(p, w, run), m)
    ensures Legal(p, w, run + [m]) && After(p, w, run + [m]) == Do(p, After(p, w, run), m)
    decreases run
  {
    if run == [] {
      assert [m][1..] == [];
    } else {
      OneMore(p, Do(p, w, run[0]), run[1..], m);
      assert (run + [m])[1..] == run[1..] + [m];
    }
  }

  /**
   The leak of a kept channel: `collect` gives up on a response above its limit and clears
   `draining`, and the next call returns the bytes left of that response as its own.
   */
  lemma KeptChannelAsks(p: Policy) returns (run: seq<Move>)
    ensures Legal(p, START, run)
    ensures var w := After(p, START, run);
      w.slot.Some? && w.log == [] && var ch := w.slot.value;
      && ch.client == Client(true, Collecting(0, [])) && ch.serving == Some(0) && ch.asked == [] && ch.wire == []
      && !ch.closed && ch.answers == [[]]
  {
    run := [];
    OneMore(p, START, run, Open);
    run := run + [Open];
    OneMore(p, START, run, On(Call(0)));
    run := run + [On(Call(0))];
    OneMore(p, START, run, On(WriteEnds(true)));
    run := run + [On(WriteEnds(true))];
    OneMore(p, START, run, On(CoreTakes));
    run := run + [On(CoreTakes)];
    var asked := After(p, START, run).slot.value;
    assert asked.asked == [] && asked.wire == [] && asked.answers == [[]] && asked.serving == Some(0);
  }

  lemma KeptChannelAnswers(p: Policy) returns (run: seq<Move>)
    ensures Legal(p, START, run)
    ensures var w := After(p, START, run);
      w.slot.Some? && w.log == [] && var ch := w.slot.value;
      && ch.client == Client(true, Collecting(0, [])) && ch.serving.None? && ch.asked == [] && !ch.closed
      && ch.wire == [Got(Some(0), NINE), Got(Some(0), NINE), Got(Some(0), Eof)] && |ch.answers| == 1
  {
    run := KeptChannelAsks(p);
    OneMore(p, START, run, On(CoreSends(NINE)));
    run := run + [On(CoreSends(NINE))];
    assert After(p, START, run).slot.value.wire == [Got(Some(0), NINE)];
    OneMore(p, START, run, On(CoreSends(NINE)));
    run := run + [On(CoreSends(NINE))];
    assert After(p, START, run).slot.value.wire == [Got(Some(0), NINE), Got(Some(0), NINE)];
    OneMore(p, START, run, On(CoreSends(Eof)));
    run := run + [On(CoreSends(Eof))];
  }

  lemma KeptChannelGivesUp(p: Policy) returns (run: seq<Move>)
    requires !p.onIo
    ensures Legal(p, START, run)
    ensures var w := After(p, START, run);
      && w.slot.Some? && w.slot.value.client == NEW_CLIENT && !w.slot.value.closed && |w.slot.value.answers| == 1
      && w.slot.value.wire == [Got(Some(0), NINE), Got(Some(0), Eof)]
  {
    run := KeptChannelAnswers(p);
    assert [Got(Some(0), NINE), Got(Some(0), NINE), Got(Some(0), Eof)][1..] == [Got(Some(0), NINE), Got(Some(0), Eof)];
    OneMore(p, START, run, On(Receive));
    run := run + [On(Receive)];
  }

  const NINE := Data([0, 0, 0, 0, 0, 0, 0, 0, 7])

  lemma KeptChannelAsksAgain(p: Policy) returns (run: seq<Move>)
    requires !p.onIo
    ensures Legal(p, START, run)
    ensures var w := After(p, START, run);
      && w.slot.Some? && w.slot.value.client == Client(true, Collecting(1, [7])) && w.slot.value.answers != []
      && w.slot.value.answers[|w.slot.value.answers| - 1] == [] && w.slot.value.wire == [Got(Some(0), Eof)]
  {
    run := KeptChannelGivesUp(p);
    OneMore(p, START, run, On(Call(1)));
    run := run + [On(Call(1))];
    OneMore(p, START, run, On(WriteEnds(true)));
    run := run + [On(WriteEnds(true))];
    assert [Got(Some(0), NINE), Got(Some(0), Eof)][1..] == [Got(Some(0), Eof)];
    assert [] + NINE.payload[8..] == [7];
    OneMore(p, START, run, On(Receive));
    run := run + [On(Receive)];
  }

  lemma KeptChannelLeaks(p: Policy) returns (run: seq<Move>)
    requires !p.onIo
    ensures Legal(p, START, run) && !Isolated(After(p, START, run))
    ensures Reply([], Received([7])) in After(p, START, run).log
  {
    run := KeptChannelAsksAgain(p);
    OneMore(p, START, run, On(Receive));
    run := run + [On(Receive)];
    assert !Faithful(Reply([], Received([7])));
  }

  lemma DroppingIsolates(p: Policy, run: seq<Move>)
    requires p.onIo && Legal(p, START, run)
    ensures Isolated(After(p, START, run))
  {
    RunKeepsInv(p, START, run);
    var w := After(p, START, run);
    if w.slot.Some? {
      InvIsolates(w.slot.value);
    }
  }

  ghost predicate AlwaysIsolated(p: Policy) {
    forall run :: Legal(p, START, run) ==> Isolated(After(p, START, run))
  }

  /** Requests are isolated in every run exactly when the caller drops its channel on `Io`. */
  lemma IsolatedIffDropsOnIo(p: Policy)
    ensures AlwaysIsolated(p) <==> p.onIo
  {
    if p.onIo {
      forall run | Legal(p, START, run) ensures Isolated(After(p, START, run)) {
        DroppingIsolates(p, run);
      }
    } else {
      var run := KeptChannelLeaks(p);
    }
  }

  /** `CoreFetcher` is such a caller. */
  lemma CoreFetcherIsIsolated(run: seq<Move>)
    requires Legal(CORE_FETCHER, START, run)
    ensures Isolated(After(CORE_FETCHER, START, run))
  {
    DroppingIsolates(CORE_FETCHER, run);
  }

  // ----- A channel that is kept --------------------------------------------------

  /** No call of the run returns an `Io` failure. */
  predicate NoIo(p: Policy, w: World, run: seq<Move>)
    requires Legal(p, w, run)
    decreases run
  {
    run == [] || (
      && (run[0].On? ==> Step(w.slot.value, run[0].event).1 != Some(Io))
      && NoIo(p, Do(p, w, run[0]), run[1..]))
  }

  ghost predicate StaysIsolated(p: Policy, w: World) {
    forall run :: Legal(p, w, run) && NoIo(p, w, run) ==> Isolated(After(p, w, run))
  }

  lemma {:induction false} RunWithoutIo(p: Policy, w: World, run: seq<Move>)
    requires WorldInv(w) && Legal(p, w, run) && NoIo(p, w, run)
    ensures WorldInv(After(p, w, run))
    decreases run
  {
    if run != [] {
      MoveWithoutIo(p, w, run[0]);
      RunWithoutIo(p, Do(p, w, run[0]), run[1..]);
    }
  }

  lemma WorldIsIsolated(w: World)
    requires WorldInv(w)
    ensures Isolated(w)
  {
    if w.slot.Some? {
      InvIsolates(w.slot.value);
    }
  }

  /** Another request behind what is left of an answer: two are outstanding. */
  lemma AskedTwice(ch: Channel, limit: nat)
    requires WireInv(ch) && CoreInv(ch) && ch.client == NEW_CLIENT && !ch.closed && !Aligned(ch)
    ensures var called := Step(ch, Call(limit)).0;
      Enabled(called, WriteEnds(true)) && !OneOutstanding(Step(called, WriteEnds(true)).0)
  {
    HeadOfWire(ch);
    var next := Step(Step(ch, Call(limit)).0, WriteEnds(true)).0;
    if ch.taken < |Last(ch)| {
      assert ch.wire[0] in next.wire;
    }
  }

  lemma LeftoverIsNotIsolated(p: Policy, w: World, ch: Channel)
    requires w.slot == Some(ch) && WireInv(ch) && CoreInv(ch) && ch.client == NEW_CLIENT && !ch.closed && !Aligned(ch)
    ensures !StaysIsolated(p, w)
  {
    var run := [On(Call(0)), On(WriteEnds(true))];
    AskedTwice(ch, 0);
    var w1 := Do(p, w, run[0]);
    var w2 := Do(p, w1, run[1]);
    assert run[1..] == [On(WriteEnds(true))] && run[1..][1..] == [];
    assert Legal(p, w1, run[1..]) && NoIo(p, w1, run[1..]) && After(p, w1, run[1..]) == w2;
    assert Legal(p, w, run) && NoIo(p, w, run) && After(p, w, run) == w2;
  }

  /** Where a call of an aligned channel returns an `Io` failure, wire and Core are as ever. */
  lemma IoReturnKeepsWire(ch: Channel)
    requires Inv(ch) && Enabled(ch, Receive) && ch.client.phase.Collecting? && Step(ch, Receive).1 == Some(Io)
    ensures var next := Step(ch, Receive).0;
      WireInv(next) && CoreInv(next) && next.client == NEW_CLIENT && next.closed == ch.closed
  {
    AdvanceKeepsWire(ch);
    WireIgnoresClient(Advance(ch), Step(ch, Receive).0.client);
    StepKeepsCore(ch, Receive);
  }

  /**
   A channel kept over the return of an `Io` failure stays isolated, up to the next such
   return, exactly when nothing of its answer is left or to come.
   */
  lemma KeptIsIsolatedIff(p: Policy, w: World, ch: Channel)
    requires w.slot == Some(ch) && WireInv(ch) && CoreInv(ch) && ch.client == NEW_CLIENT && !ch.closed
    requires forall r :: r in w.log ==> Faithful(r)
    ensures StaysIsolated(p, w) <==> Aligned(ch)
  {
    if Aligned(ch) {
      forall run | Legal(p, w, run) && NoIo(p, w, run) ensures Isolated(After(p, w, run)) {
        RunWithoutIo(p, w, run);
        WorldIsIsolated(After(p, w, run));
      }
    } else {
      LeftoverIsNotIsolated(p, w, ch);
    }
  }

  // ----- A call that is let run ------------------------------------------------

  /** Draining stops exactly behind the abandoned answer, whatever that answer was. */
  lemma {:induction false} DrainRealigns(c: Client, id: nat, answer: seq<Frame>, rest: seq<Item>)
    requires c.phase.Draining? && Whole(answer)
    ensures Poll(c, Tagged(id, answer) + rest)
      == Polled(Client(true, Writing(c.phase.limit)), |answer|, None)
    decreases answer
  {
    var items := Tagged(id, answer) + rest;
    if |answer| > 1 {
      assert answer[0] in answer[..|answer| - 1];
      assert answer[1..][..|answer| - 2] == answer[..|answer| - 1][1..];
      assert items[1..] == Tagged(id, answer[1..]) + rest;
      DrainRealigns(c, id, answer[1..], rest);
    }
  }

  function EndOutcome(end: Frame, buf: seq<byte>): Outcome
    requires Final(end)
  {
    if end.Eof? then Received(buf) else Code(end.terminal)
  }

  /**
   A response read to its end: the call returns its bytes, or the code that ends it, if and
   only if every frame before the end is a DATA with a header and they fit the limit.
   */
  lemma {:induction false} CollectReturnsIff(c: Client, id: nat, body: seq<Frame>, end: Frame, rest: seq<Item>)
    requires c.phase.Collecting? && Unfinished(body) && Final(end) && |c.phase.buf| <= c.phase.limit
    ensures var p := Poll(c, Tagged(id, body + [end]) + rest);
      p.outcome.Some? &&
      (if WellFormed(body) && |c.phase.buf| + |Payload(body)| <= c.phase.limit
       then p == Polled(NEW_CLIENT, |body| + 1, Some(EndOutcome(end, c.phase.buf + Payload(body))))
       else p.outcome == Some(Io))
    decreases body
  {
    var items := Tagged(id, body + [end]) + rest;
    if body == [] {
      assert c.phase.buf + Payload(body) == c.phase.buf;
    } else {
      assert items[0] == Got(Some(id), body[0]);
      assert items[1..] == Tagged(id, body[1..] + [end]) + rest;
      PayloadOfFirst(body);
      assert body[0] in body;
      var (next, outcome) := CollectOne(c, Some(items[0]));
      if outcome.None? {
        CollectReturnsIff(next, id, body[1..], end, rest);
        assert body == [body[0]] + body[1..];
        assert c.phase.buf + Payload(body) == next.phase.buf + Payload(body[1..]);
      }
    }
  }

  lemma {:induction false} PayloadOfFirst(body: seq<Frame>)
    requires body != []
    ensures Payload(body) ==
      (if body[0].Data? && |body[0].payload| >= 8 then body[0].payload[8..] else []) + Payload(body[1..])
    decreases body
  {
    if |body| > 1 {
      PayloadOfFirst(body[..|body| - 1]);
      assert body[..|body| - 1][1..] == body[1..][..|body| - 2];
    }
  }

  /** The end of the connection is reported as such, and so is a failure to read, wherever the call stands. */
  lemma EndIsReported(c: Client)
    requires Receiving(c)
    ensures Take(c, None).1 == Some(Closed) && Take(c, Some(ReadFailed)).1 == Some(Io)
    ensures Take(c, None).0.phase.NoRequest? && Take(c, Some(ReadFailed)).0.phase.NoRequest?
  {
  }

  /** A channel that owes nothing writes the next request at once; one that does drains first. */
  lemma CallStarts(c: Client, limit: nat)
    ensures Start(c, limit).phase == if c.draining then Draining(limit) else Writing(limit)
    ensures Start(c, limit).draining
    ensures Written(Client(true, Writing(limit)), false) == (Client(true, NoRequest), Some(Io))
    ensures Written(Client(true, Writing(limit)), true) == (Client(true, Collecting(limit, [])), None)
  {
  }

  // ----- The future dropped before its write ------------------------------------

  /** `draining` is set and no answer is outstanding: there is nothing to drain. */
  predicate Wedged(ch: Channel) {
    && ch.client.draining && (ch.client.phase.NoRequest? || ch.client.phase.Draining?)
    && ch.asked == [] && ch.serving.None? && ch.wire == [] && !ch.closed
  }

  lemma DropBeforeWriteWedges(p: Policy, limit: nat)
    ensures var run := [Open, On(Call(limit)), On(Drop)];
      Legal(p, START, run) && After(p, START, run).slot.Some? && Wedged(After(p, START, run).slot.value)
  {
    OneMore(p, START, [], Open);
    assert [] + [Open] == [Open];
    OneMore(p, START, [Open], On(Call(limit)));
    assert [Open] + [On(Call(limit))] == [Open, On(Call(limit))];
    OneMore(p, START, [Open, On(Call(limit))], On(Drop));
    assert [Open, On(Call(limit))] + [On(Drop)] == [Open, On(Call(limit)), On(Drop)];
  }

  predicate CoreEnds(m: Move) {
    m == On(CoreResets) || (m.On? && m.event.CoreGone?)
  }

  /** From there no call ever returns until the Core ends the connection. */
  lemma {:induction false} WedgedUntilTheCoreEnds(p: Policy, w: World, run: seq<Move>)
    requires w.slot.Some? && Wedged(w.slot.value) && Legal(p, w, run)
    requires forall m :: m in run ==> !CoreEnds(m)
    ensures After(p, w, run).log == w.log
    ensures After(p, w, run).slot.Some? && Wedged(After(p, w, run).slot.value)
    decreases run
  {
    if run != [] {
      assert !CoreEnds(run[0]);
      WedgedUntilTheCoreEnds(p, Do(p, w, run[0]), run[1..]);
    }
  }

  // ----- When a dropped request resynchronizes ------------------------------------

  predicate CanPlay(ch: Channel, events: seq<Event>)
    decreases events
  {
    events == [] || (Enabled(ch, events[0]) && CanPlay(Step(ch, events[0]).0, events[1..]))
  }

  function Play(ch: Channel, events: seq<Event>): Channel
    requires CanPlay(ch, events)
    decreases events
  {
    if events == [] then ch else Play(Step(ch, events[0]).0, events[1..])
  }

  predicate EndsConnection(e: Event) {
    e.CoreResets? || e.CoreGone?
  }

  /** Nobody ends the connection, and the call is not dropped. */
  predicate Patient(e: Event) {
    !EndsConnection(e) && !e.Drop?
  }

  /** Some patient way to go on brings the draining call to its write. */
  ghost predicate CanRealign(ch: Channel) {
    exists events :: Realigns(ch, events)
  }

  predicate Realigns(ch: Channel, events: seq<Event>) {
    && (forall e :: e in events ==> Patient(e))
    && CanPlay(ch, events) && Play(ch, events).client.phase.Writing?
  }

  lemma RealignsBefore(ch: Channel, e: Event)
    requires Enabled(ch, e) && Patient(e) && CanRealign(Step(ch, e).0)
    ensures CanRealign(ch)
  {
    var events :| Realigns(Step(ch, e).0, events);
    assert ([e] + events)[1..] == events;
    assert Realigns(ch, [e] + events);
  }

  predicate OpenDraining(ch: Channel) {
    ch.client.phase.Draining? && !ch.closed
  }

  lemma ReceiptRealigns(ch: Channel)
    requires Inv(ch) && OpenDraining(ch) && ch.taken < |Last(ch)|
    ensures Enabled(ch, Receive)
    ensures var next := Step(ch, Receive).0;
      if Final(Last(ch)[ch.taken]) then next.client.phase.Writing?
      else
        && Inv(next) && OpenDraining(next) && !Aligned(next) && Last(next) == Last(ch) && next.taken == ch.taken + 1
        && next.asked == ch.asked && next.serving == ch.serving
  {
    HeadOfWire(ch);
    if !Final(Last(ch)[ch.taken]) {
      StepKeepsInv(ch, Receive);
      if Whole(Last(ch)) {
        assert Last(ch)[|Last(ch)| - 1] != Last(ch)[ch.taken];
      }
    }
  }

  lemma EofRealigns(ch: Channel)
    requires Inv(ch) && OpenDraining(ch) && ch.serving.Some?
    ensures Enabled(ch, CoreSends(Eof))
    ensures var next := Step(ch, CoreSends(Eof)).0;
      && Inv(next) && OpenDraining(next) && !Aligned(next) && next.serving.None? && next.asked == ch.asked
  {
    StepKeepsInv(ch, CoreSends(Eof));
    assert Last(Step(ch, CoreSends(Eof)).0) == Last(ch) + [Eof];
  }

  lemma TakeRealigns(ch: Channel)
    requires Inv(ch) && OpenDraining(ch) && ch.asked != []
    ensures Enabled(ch, CoreTakes)
    ensures var next := Step(ch, CoreTakes).0;
      Inv(next) && OpenDraining(next) && !Aligned(next) && |next.asked| < |ch.asked|
  {
    StepKeepsInv(ch, CoreTakes);
  }

  lemma {:induction false} LeftoverRealigns(ch: Channel)
    requires Inv(ch) && OpenDraining(ch) && !Aligned(ch)
    ensures CanRealign(ch)
    decreases |ch.asked|, if ch.serving.Some? then 1 else 0, |Last(ch)| - ch.taken
  {
    if ch.taken < |Last(ch)| {
      ReceiptRealigns(ch);
      var next := Step(ch, Receive).0;
      if Final(Last(ch)[ch.taken]) {
        assert Realigns(next, []);
      } else {
        LeftoverRealigns(next);
      }
      RealignsBefore(ch, Receive);
    } else if ch.serving.Some? {
      EofRealigns(ch);
      LeftoverRealigns(Step(ch, CoreSends(Eof)).0);
      RealignsBefore(ch, CoreSends(Eof));
    } else {
      TakeRealigns(ch);
      LeftoverRealigns(Step(ch, CoreTakes).0);
      RealignsBefore(ch, CoreTakes);
    }
  }

  lemma {:induction false} NothingToDrain(ch: Channel, events: seq<Event>)
    requires Wedged(ch) && CanPlay(ch, events)
    requires forall e :: e in events ==> !EndsConnection(e)
    ensures Wedged(Play(ch, events))
    decreases events
  {
    if events != [] {
      assert !EndsConnection(events[0]);
      NothingToDrain(Step(ch, events[0]).0, events[1..]);
    }
  }

  lemma AlignedWedges(ch: Channel)
    requires Inv(ch) && OpenDraining(ch) && Aligned(ch)
    ensures Wedged(ch)
  {
    HeadOfWire(ch);
  }

  /**
   A draining call can get to its write, without the Core ending the connection, exactly
   when something is left to drain. Otherwise no call can, dropped and repeated or not.
   */
  lemma RealignsIff(ch: Channel)
    requires Inv(ch) && OpenDraining(ch)
    ensures CanRealign(ch) <==> !Aligned(ch)
    ensures Aligned(ch) ==>
      forall events :: CanPlay(ch, events) && (forall e :: e in events ==> !EndsConnection(e)) ==>
        !Play(ch, events).client.phase.Writing?
  {
    if Aligned(ch) {
      AlignedWedges(ch);
      forall events | CanPlay(ch, events) && (forall e :: e in events ==> !EndsConnection(e))
        ensures !Play(ch, events).client.phase.Writing?
      {
        NothingToDrain(ch, events);
      }
    } else {
      LeftoverRealigns(ch);
    }
  }

  function CalledAfterDrop(ch: Channel, limit: nat): Channel
    requires !ch.client.phase.NoRequest?
  {
    Step(Step(ch, Drop).0, Call(limit)).0
  }

  lemma CollectingHasMore(ch: Channel)
    requires Inv(ch) && !ch.closed && ch.client.phase.Collecting?
    ensures !Aligned(ch)
  {
    if ch.taken == |Last(ch)| {
      assert Last(ch)[..ch.taken] == Last(ch);
    }
  }

  /**
   The call behind a dropped one resynchronizes exactly when the dropped future was past
   its write, or was draining an answer of which something is left.
   */
  lemma DropResynchronizesIff(ch: Channel, limit: nat)
    requires Inv(ch) && !ch.closed && !ch.client.phase.NoRequest?
    ensures CanRealign(CalledAfterDrop(ch, limit)) <==>
      ch.client.phase.Collecting? || (ch.client.phase.Draining? && !Aligned(ch))
  {
    var dropped, called := Step(ch, Drop).0, CalledAfterDrop(ch, limit);
    StepKeepsInv(ch, Drop);
    StepKeepsInv(dropped, Call(limit));
    RealignsIff(called);
    if ch.client.phase.Collecting? {
      CollectingHasMore(ch);
    }
  }

  // ----- A poll is a run of receipts ---------------------------------------------

  function Receipts(n: nat): seq<Event> {
    seq(n, i => Receive)
  }

  /** The loops of the class, over what has arrived, are sequences of `Receive` steps. */
  lemma {:induction false} PollIsARun(ch: Channel, n: nat)
    requires n <= |ch.wire|
    ensures var p := Poll(ch.client, ch.wire[..n]);
      CanPlay(ch, Receipts(p.used)) && Play(ch, Receipts(p.used)).client == p.client
      && Play(ch, Receipts(p.used)).wire == ch.wire[p.used..]
    decreases n
  {
    var p := Poll(ch.client, ch.wire[..n]);
    if p.used > 0 {
      assert Receipts(p.used)[1..] == Receipts(p.used - 1);
      var (next, outcome) := Step(ch, Receive);
      assert ch.wire[..n][1..] == next.wire[..n - 1];
      if outcome.None? {
        PollIsARun(next, n - 1);
      } else {
        assert Receipts(0) == [];
      }
    }
  }
}
