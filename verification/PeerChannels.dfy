/**
 A peer channel at the byte level (client/src/channel.rs, `PeerChannel`): partial
 writes, sends dropped at any await, and the `torn` flag that is to keep half a frame
 from being written behind.

 `write_all` hands the socket a frame in any number of partial writes. `broken` says
 that the socket has returned an error. `Rules` says who, if anyone, then stops: the
 socket, which takes no further byte, or the caller, which sends nothing more.
 */
module PeerChannels {
  import opened Wrappers
  import opened Bytes

  const MAX_PEER_FRAME: nat := 1024

  type Bytestring = seq<byte>

  predicate Fits(frame: Bytestring) {
    |frame| <= MAX_PEER_FRAME
  }

  /** `write_peer_frame`'s buffer. */
  function Encode(frame: Bytestring): Bytestring {
    BigEndian(|frame|, 4) + frame
  }

  // ----- The reader ------------------------------------------------------------

  datatype Read = End | AboveCap | Frame(frame: Bytestring, rest: Bytestring)

  /** `read_peer_frame` on a socket that yields `stream` and then ends. */
  function ReadPeerFrame(stream: Bytestring): (r: Read)
    ensures r.Frame? ==> |r.rest| < |stream|
  {
    if |stream| < 4 then End
    else
      var len := FromBigEndian(stream[..4]);
      if len > MAX_PEER_FRAME then AboveCap
      else if |stream| < 4 + len then End
      else Frame(stream[4..4 + len], stream[4 + len..])
  }

  datatype Decoded = Decoded(frames: seq<Bytestring>, failed: bool)

  /** Everything `recv` yields before the pipe ends, and whether it ended on a violation. */
  function Decode(stream: Bytestring): Decoded
    decreases |stream|
  {
    match ReadPeerFrame(stream)
    case End => Decoded([], false)
    case AboveCap => Decoded([], true)
    case Frame(frame, rest) => var d := Decode(rest); d.(frames := [frame] + d.frames)
  }

  lemma DecodeEnds(stream: Bytestring, frames: seq<Bytestring>)
    requires !ReadPeerFrame(stream).Frame?
    ensures frames + Decode(stream).frames == frames && Decode(stream).failed == ReadPeerFrame(stream).AboveCap?
  {
  }

  lemma DecodeGoesOn(stream: Bytestring, frames: seq<Bytestring>, frame: Bytestring, rest: Bytestring)
    requires ReadPeerFrame(stream) == Frame(frame, rest)
    ensures frames + Decode(stream).frames == frames + [frame] + Decode(rest).frames
    ensures Decode(stream).failed == Decode(rest).failed
  {
    assert Decode(stream).frames == [frame] + Decode(rest).frames;
  }

  method PeerReadLoop(stream: Bytestring) returns (frames: seq<Bytestring>, failed: bool)
    ensures Decoded(frames, failed) == Decode(stream)
  {
    frames := [];
    var left := stream;
    var read := ReadPeerFrame(left);
    ghost var all := Decode(stream);
    while read.Frame?
      invariant read == ReadPeerFrame(left)
      invariant frames + Decode(left).frames == all.frames && Decode(left).failed == all.failed
      decreases |left|
    {
      DecodeGoesOn(left, frames, read.frame, read.rest);
      frames, left := frames + [read.frame], read.rest;
      read := ReadPeerFrame(left);
    }
    DecodeEnds(left, frames);
    failed := read.AboveCap?;
  }

  // ----- The sender ------------------------------------------------------------

  /** The live `send` future, if any: its frame and how many encoded bytes the socket took. */
  datatype Phase = Idle | Sending(frame: Bytestring, taken: nat)

  /** `pipe` is every byte the socket took; `done` the frames whose `send` returned `Ok`. */
  datatype Pipe = Pipe(torn: bool, phase: Phase, pipe: Bytestring, broken: bool, done: seq<Bytestring>)

  const NEW_PIPE := Pipe(false, Idle, [], false, [])

  datatype SendError = TooLarge(len: nat) | Io

  /** `send` up to its first await: the immediate refusal, if there is one. */
  function BeginSend(p: Pipe, frame: Bytestring): (Pipe, Option<SendError>) {
    if !Fits(frame) then (p, Some(TooLarge(|frame|)))
    else if p.torn then (p, Some(Io))
    else (p.(torn := true, phase := Sending(frame, 0)), None)
  }

  predicate CanTake(p: Pipe, n: nat) {
    p.phase.Sending? && 0 < n && p.phase.taken + n <= |Encode(p.phase.frame)|
  }

  function SocketTakes(p: Pipe, n: nat): Pipe
    requires CanTake(p, n)
  {
    var k := p.phase.taken;
    p.(pipe := p.pipe + Encode(p.phase.frame)[k..k + n], phase := Sending(p.phase.frame, k + n))
  }

  predicate CanFinish(p: Pipe) {
    p.phase.Sending? && p.phase.taken == |Encode(p.phase.frame)|
  }

  function FinishSend(p: Pipe): Pipe
    requires CanFinish(p)
  {
    p.(torn := false, phase := Idle, done := p.done + [p.phase.frame])
  }

  /** An error return of the write or of the flush: `torn` is cleared all the same. */
  function FailSend(p: Pipe): Pipe
    requires p.phase.Sending?
  {
    p.(torn := false, phase := Idle, broken := true)
  }

  class PeerChannel {
    var torn: bool
    var phase: Phase
    var pipe: Bytestring
    var broken: bool
    ghost var done: seq<Bytestring>

    ghost function View(): Pipe
      reads this
    {
      Pipe(torn, phase, pipe, broken, done)
    }

    constructor ()
      ensures View() == NEW_PIPE
    {
      torn, phase, pipe, broken, done := false, Idle, [], false, [];
    }

    method Send(frame: Bytestring) returns (refused: Option<SendError>)
      modifies this
      ensures (View(), refused) == BeginSend(old(View()), frame)
    {
      if |frame| > MAX_PEER_FRAME {
        return Some(TooLarge(|frame|));
      }
      if torn {
        return Some(Io);
      }
      torn := true;
      phase := Sending(frame, 0);
      return None;
    }

    /** `write_all`, over the partial writes the socket grants before it stalls. */
    method WriteAll(grants: seq<nat>)
      requires phase.Sending? && phase.taken <= |Encode(phase.frame)|
      modifies this`pipe, this`phase
      ensures phase.Sending? && phase.frame == old(phase.frame) && old(phase.taken) <= phase.taken
      ensures phase.taken <= |Encode(phase.frame)|
      ensures phase.taken == |Encode(phase.frame)| || phase.taken == old(phase.taken) + Sum(grants)
      ensures grants == [] ==> phase == old(phase)
      ensures pipe == old(pipe) + Encode(phase.frame)[old(phase.taken)..phase.taken]
    {
      ghost var start := phase.taken;
      var encoded := Encode(phase.frame);
      var i := 0;
      assert Sum(grants[..0]) == 0;
      while i < |grants| && phase.taken < |encoded|
        invariant i <= |grants|
        invariant phase.Sending? && phase.frame == old(phase.frame) && start <= phase.taken <= |encoded|
        invariant phase.taken == |encoded| || phase.taken == start + Sum(grants[..i])
        invariant i == 0 ==> phase == old(phase)
        invariant pipe == old(pipe) + encoded[start..phase.taken]
      {
        var room := |encoded| - phase.taken;
        var n := if grants[i] < room then grants[i] else room;
        SliceGoesOn(old(pipe), encoded, start, phase.taken, phase.taken + n);
        pipe := pipe + encoded[phase.taken..phase.taken + n];
        phase := Sending(phase.frame, phase.taken + n);
        SumNext(grants, i, i + 1);
        i := i + 1;
      }
      assert grants[..|grants|] == grants;
    }

    method Completed()
      requires CanFinish(View())
      modifies this
      ensures View() == FinishSend(old(View()))
    {
      torn := false;
      done := done + [phase.frame];
      phase := Idle;
    }

    method Failed()
      requires phase.Sending?
      modifies this
      ensures View() == FailSend(old(View()))
    {
      torn, phase, broken := false, Idle, true;
    }

    method Drop()
      modifies this`phase
      ensures View() == old(View()).(phase := Idle)
    {
      phase := Idle;
    }

    /** `recv` returning anything but a frame. */
    method RecvEnded()
      modifies this`torn
      ensures View() == old(View()).(torn := true)
    {
      torn := true;
    }
  }

  lemma SliceGoesOn(before: Bytestring, whole: Bytestring, i: nat, j: nat, k: nat)
    requires i <= j <= k <= |whole|
    ensures before + whole[i..j] + whole[j..k] == before + whole[i..k]
  {
    assert whole[i..j] + whole[j..k] == whole[i..k];
  }

  lemma SumNext(grants: seq<nat>, i: nat, next: nat)
    requires i < |grants| && next == i + 1
    ensures Sum(grants[..next]) == Sum(grants[..i]) + grants[i]
  {
    assert grants[..next][..i] == grants[..i];
  }

  function Sum(grants: seq<nat>): nat {
    if grants == [] then 0 else Sum(grants[..|grants| - 1]) + grants[|grants| - 1]
  }

  // ----- Runs --------------------------------------------------------------------

  datatype Step = Send(frame: Bytestring) | Takes(n: nat) | Finish | Fail | Drop | RecvEnd

  /**
   `steady`: a socket that has returned an error keeps failing. `stops`: the caller sends
   nothing more once a `send` has returned the error of a write.
   */
  datatype Rules = Rules(steady: bool, stops: bool)

  predicate Enabled(rules: Rules, p: Pipe, s: Step) {
    match s
    case Send(_) => p.phase.Idle? && (rules.stops ==> !p.broken)
    case Takes(n) => CanTake(p, n) && (rules.steady ==> !p.broken)
    case Finish => CanFinish(p) && (rules.steady ==> !p.broken)
    case Fail => p.phase.Sending?
    case Drop => p.phase.Sending?
    case RecvEnd => p.phase.Idle?
  }

  const ANY := Rules(false, false)

  function Next(p: Pipe, s: Step): Pipe
    requires Enabled(ANY, p, s)
  {
    match s
    case Send(frame) => BeginSend(p, frame).0
    case Takes(n) => SocketTakes(p, n)
    case Finish => FinishSend(p)
    case Fail => FailSend(p)
    case Drop => p.(phase := Idle)
    case RecvEnd => p.(torn := true)
  }

  predicate Legal(rules: Rules, p: Pipe, run: seq<Step>)
    decreases run
  {
    run == [] || (Enabled(rules, p, run[0]) && Legal(rules, Next(p, run[0]), run[1..]))
  }

  function After(rules: Rules, p: Pipe, run: seq<Step>): Pipe
    requires Legal(rules, p, run)
    decreases run
  {
    if run == [] then p else After(rules, Next(p, run[0]), run[1..])
  }

  // ----- Whole frames, then at most one partial frame -------------------------------

  function Stream(frames: seq<Bytestring>): Bytestring {
    if frames == [] then [] else Stream(frames[..|frames| - 1]) + Encode(frames[|frames| - 1])
  }

  /** The pipe holds the frames sent, then the first `k` bytes of `last`. */
  ghost predicate Holds(p: Pipe, last: Bytestring, k: nat) {
    && Fits(last) && k <= |Encode(last)| && p.pipe == Stream(p.done) + Encode(last)[..k]
    && (forall f :: f in p.done ==> Fits(f))
  }

  ghost predicate SenderInv(p: Pipe) {
    exists last: Bytestring, k: nat :: Holds(p, last, k) && Accounts(p, last, k)
  }

  /** Bytes of an unfinished frame are in the pipe only while it is written, or for good. */
  predicate Accounts(p: Pipe, last: Bytestring, k: nat) {
    && (p.phase.Idle? && !p.torn && !p.broken ==> k == 0)
    && (p.phase.Sending? ==> p.torn && Fits(p.phase.frame) && p.phase.taken <= |Encode(p.phase.frame)|)
    && (p.phase.Sending? && !p.broken ==> last == p.phase.frame && k == p.phase.taken)
  }

  lemma SendKeepsSender(p: Pipe, frame: Bytestring, last: Bytestring, k: nat)
    requires Holds(p, last, k) && Accounts(p, last, k) && p.phase.Idle?
    ensures SenderInv(BeginSend(p, frame).0)
  {
    var next := BeginSend(p, frame).0;
    if next.phase.Sending? && !p.broken {
      assert Encode(last)[..0] == Encode(frame)[..0];
      assert Holds(next, frame, 0) && Accounts(next, frame, 0);
    } else {
      assert Holds(next, last, k) && Accounts(next, last, k);
    }
  }

  lemma TakeKeepsSender(p: Pipe, n: nat, last: Bytestring, k: nat)
    requires Holds(p, last, k) && Accounts(p, last, k) && CanTake(p, n) && !p.broken
    ensures SenderInv(SocketTakes(p, n))
  {
    var next := SocketTakes(p, n);
    SliceGoesOn(Stream(p.done), Encode(last), 0, k, k + n);
    assert Holds(next, last, k + n) && Accounts(next, last, k + n);
  }

  lemma FinishKeepsSender(p: Pipe, last: Bytestring, k: nat)
    requires Holds(p, last, k) && Accounts(p, last, k) && CanFinish(p) && !p.broken
    ensures SenderInv(FinishSend(p))
  {
    var next := FinishSend(p);
    assert Encode(last)[..k] == Encode(last);
    assert next.done[..|p.done|] == p.done;
    assert next.pipe == Stream(next.done) + Encode(last)[..0];
    assert Holds(next, last, 0) && Accounts(next, last, 0);
  }

  /** Where either side keeps the rule, a broken socket gets no more bytes. */
  ghost predicate Kept(rules: Rules, p: Pipe) {
    SenderInv(p) && (rules.stops && !rules.steady && p.broken ==> p.phase.Idle?)
  }

  lemma StepKeepsSender(rules: Rules, p: Pipe, s: Step)
    requires rules.steady || rules.stops
    requires Kept(rules, p) && Enabled(rules, p, s)
    ensures Kept(rules, Next(p, s))
  {
    var last: Bytestring, k: nat :| Holds(p, last, k) && Accounts(p, last, k);
    match s {
      case Send(frame) => SendKeepsSender(p, frame, last, k);
      case Takes(n) => TakeKeepsSender(p, n, last, k);
      case Finish => FinishKeepsSender(p, last, k);
      case Fail | Drop | RecvEnd =>
        assert Holds(Next(p, s), last, k) && Accounts(Next(p, s), last, k);
    }
  }

  lemma {:induction false} RunKeepsSender(rules: Rules, p: Pipe, run: seq<Step>)
    requires rules.steady || rules.stops
    requires Kept(rules, p) && Legal(rules, p, run)
    ensures Kept(rules, After(rules, p, run))
    decreases run
  {
    if run != [] {
      StepKeepsSender(rules, p, run[0]);
      RunKeepsSender(rules, Next(p, run[0]), run[1..]);
    }
  }

  // ----- What the reader makes of it -------------------------------------------------

  lemma EncodedReads(frame: Bytestring, rest: Bytestring)
    requires Fits(frame)
    ensures ReadPeerFrame(Encode(frame) + rest) == Frame(frame, rest)
  {
    U32Widths();
    BigEndianReadsBack(|frame|, 4);
    assert (Encode(frame) + rest)[..4] == BigEndian(|frame|, 4);
  }

  lemma CutFrameIsTheEnd(frame: Bytestring, k: nat)
    requires Fits(frame) && k < |Encode(frame)|
    ensures ReadPeerFrame(Encode(frame)[..k]) == End
  {
    U32Widths();
    BigEndianReadsBack(|frame|, 4);
    if k >= 4 {
      assert Encode(frame)[..k][..4] == BigEndian(|frame|, 4);
    }
  }

  lemma {:induction false} StreamOfFirst(frames: seq<Bytestring>)
    requires frames != []
    ensures Stream(frames) == Encode(frames[0]) + Stream(frames[1..])
    decreases frames
  {
    if |frames| > 1 {
      StreamOfFirst(frames[..|frames| - 1]);
      assert frames[..|frames| - 1][1..] == frames[1..][..|frames| - 2];
    }
  }

  /** A pipe cut anywhere: the reader gets the first frames of those sent, then the end. */
  lemma {:induction false} CutStreamDecodes(frames: seq<Bytestring>, cut: Bytestring)
    requires forall f :: f in frames ==> Fits(f)
    requires cut <= Stream(frames)
    ensures !Decode(cut).failed && Decode(cut).frames <= frames
    decreases frames
  {
    if frames != [] {
      var first := Encode(frames[0]);
      StreamOfFirst(frames);
      if |cut| < |first| {
        CutFrameIsTheEnd(frames[0], |cut|);
        assert cut == first[..|cut|];
      } else {
        assert cut == first + cut[|first|..];
        EncodedReads(frames[0], cut[|first|..]);
        CutStreamDecodes(frames[1..], cut[|first|..]);
      }
    }
  }

  lemma FirstDecodes(frame: Bytestring, rest: Bytestring)
    requires Fits(frame)
    ensures Decode(Encode(frame) + rest).frames == [frame] + Decode(rest).frames
  {
    EncodedReads(frame, rest);
  }

  lemma FirstInFront(frames: seq<Bytestring>, rest: Bytestring)
    requires frames != []
    ensures Stream(frames) + rest == Encode(frames[0]) + (Stream(frames[1..]) + rest)
  {
    StreamOfFirst(frames);
  }

  lemma AfterFirst(frames: seq<Bytestring>, more: seq<Bytestring>)
    requires frames != []
    ensures [frames[0]] + (frames[1..] + more) == frames + more
  {
    assert frames == [frames[0]] + frames[1..];
  }

  /** Whole frames are all decoded, and then what follows them. */
  lemma {:induction false} WholeFramesDecode(
      frames: seq<Bytestring>, rest: Bytestring, decoded: seq<Bytestring>, more: seq<Bytestring>)
    requires forall f :: f in frames ==> Fits(f)
    requires decoded == Decode(Stream(frames) + rest).frames && more == Decode(rest).frames
    ensures decoded == frames + more
    decreases frames
  {
    if frames == [] {
      assert Stream(frames) + rest == rest;
    } else {
      var tail := Stream(frames[1..]) + rest;
      FirstInFront(frames, rest);
      FirstDecodes(frames[0], tail);
      WholeFramesDecode(frames[1..], rest, Decode(tail).frames, more);
      AfterFirst(frames, more);
    }
  }

  /**
   The grammar of the pipe: whatever part of it reaches the reader, the reader decodes the
   first of the frames sent and then the end, never a violation. Of the whole pipe it
   decodes every frame whose `send` returned `Ok`, and at most one frame more.
   */
  ghost predicate Sound(p: Pipe) {
    exists sent: seq<Bytestring> :: SoundFor(p, sent)
  }

  ghost predicate SoundFor(p: Pipe, sent: seq<Bytestring>) {
    && p.done <= sent && |sent| <= |p.done| + 1
    && p.done <= Decode(p.pipe).frames
    && forall cut :: cut <= p.pipe ==> DecodesFirst(cut, sent)
  }

  predicate DecodesFirst(cut: Bytestring, sent: seq<Bytestring>) {
    !Decode(cut).failed && Decode(cut).frames <= sent
  }

  lemma AnyCutIsSound(p: Pipe, last: Bytestring, k: nat, cut: Bytestring)
    requires Holds(p, last, k) && cut <= p.pipe
    ensures DecodesFirst(cut, p.done + [last])
  {
    var sent := p.done + [last];
    assert sent[..|p.done|] == p.done;
    assert p.pipe <= Stream(sent);
    CutStreamDecodes(sent, cut);
  }

  lemma InvIsSound(p: Pipe)
    requires SenderInv(p)
    ensures Sound(p)
  {
    var last: Bytestring, k: nat :| Holds(p, last, k) && Accounts(p, last, k);
    forall cut | cut <= p.pipe ensures DecodesFirst(cut, p.done + [last]) {
      AnyCutIsSound(p, last, k, cut);
    }
    var cut := Encode(last)[..k];
    WholeFramesDecode(p.done, cut, Decode(p.pipe).frames, Decode(cut).frames);
    assert SoundFor(p, p.done + [last]);
  }

  // ----- The error return that clears `torn` -------------------------------------------

  lemma {:induction false} OneMore(rules: Rules, p: Pipe, run: seq<Step>, s: Step)
    requires Legal(rules, p, run) && Enabled(rules, After(rules, p, run), s)
    ensures Legal(rules, p, run + [s]) && After(rules, p, run + [s]) == Next(After(rules, p, run), s)
    decreases run
  {
    if run == [] {
      assert [s][1..] == [];
    } else {
      OneMore(rules, Next(p, run[0]), run[1..], s);
      assert (run + [s])[1..] == run[1..] + [s];
    }
  }

  /** Five of six bytes of a frame, an error, and a keepalive written whole behind them. */
  lemma ErrorReturnTears() returns (run: seq<Step>)
    ensures Legal(ANY, NEW_PIPE, run) && !Sound(After(ANY, NEW_PIPE, run))
    ensures var p := After(ANY, NEW_PIPE, run); p.done == [[]] && Decode(p.pipe).frames == [[9, 0]]
  {
    run := [];
    OneMore(ANY, NEW_PIPE, run, Send([9, 9]));
    run := run + [Send([9, 9])];
    assert Encode([9, 9]) == [0, 0, 0, 2, 9, 9];
    OneMore(ANY, NEW_PIPE, run, Takes(5));
    run := run + [Takes(5)];
    assert After(ANY, NEW_PIPE, run).pipe == [0, 0, 0, 2, 9];
    OneMore(ANY, NEW_PIPE, run, Fail);
    run := run + [Fail];
    OneMore(ANY, NEW_PIPE, run, Send([]));
    run := run + [Send([])];
    assert Encode([]) == [0, 0, 0, 0];
    OneMore(ANY, NEW_PIPE, run, Takes(4));
    run := run + [Takes(4)];
    OneMore(ANY, NEW_PIPE, run, Finish);
    run := run + [Finish];
    var p := After(ANY, NEW_PIPE, run);
    assert p.pipe == [0, 0, 0, 2, 9, 0, 0, 0, 0] && p.done == [[]];
    assert p.pipe == Encode([9, 0]) + [0, 0, 0];
    EncodedReads([9, 0], [0, 0, 0]);
    assert ReadPeerFrame(p.pipe) == Frame([9, 0], [0, 0, 0]);
    assert p.done[0] != Decode(p.pipe).frames[0];
  }

  lemma RunIsSound(rules: Rules, run: seq<Step>)
    requires rules.steady || rules.stops
    requires Legal(rules, NEW_PIPE, run)
    ensures Sound(After(rules, NEW_PIPE, run))
  {
    assert Holds(NEW_PIPE, [], 0) && Accounts(NEW_PIPE, [], 0);
    RunKeepsSender(rules, NEW_PIPE, run);
    InvIsSound(After(rules, NEW_PIPE, run));
  }

  ghost predicate AlwaysSound(rules: Rules) {
    forall run :: Legal(rules, NEW_PIPE, run) ==> Sound(After(rules, NEW_PIPE, run))
  }

  /** The pipe stays sound in every run exactly when its socket or its caller stops at an error. */
  lemma SoundIff(rules: Rules)
    ensures AlwaysSound(rules) <==> rules.steady || rules.stops
  {
    if rules.steady || rules.stops {
      forall run | Legal(rules, NEW_PIPE, run) ensures Sound(After(rules, NEW_PIPE, run)) {
        RunIsSound(rules, run);
      }
    } else {
      assert rules == ANY;
      var run := ErrorReturnTears();
    }
  }

  /** Over sockets that may do anything, it is up to the caller: it must send nothing after an error. */
  lemma SoundIffCallerStops(stops: bool)
    ensures AlwaysSound(Rules(false, stops)) <==> stops
  {
    SoundIff(Rules(false, stops));
  }

  /** The input engine's channel task ends at the first failed `send`. */
  const CHANNEL_TASK := Rules(false, true)

  lemma ChannelTaskIsSound(run: seq<Step>)
    requires Legal(CHANNEL_TASK, NEW_PIPE, run)
    ensures Sound(After(CHANNEL_TASK, NEW_PIPE, run))
  {
    RunIsSound(CHANNEL_TASK, run);
  }

  // ----- Behind an error return ---------------------------------------------------------

  /** A `send` has returned the error of its write, and nothing is being sent. */
  ghost predicate BehindError(p: Pipe) {
    SenderInv(p) && p.phase.Idle? && !p.torn && p.broken
  }

  /** However the socket goes on, as long as no further write fails, the pipe is sound. */
  ghost predicate RecoversSound(p: Pipe) {
    forall run :: Legal(ANY, p, run) && Fail !in run ==> Sound(After(ANY, p, run))
  }

  /** The same pipe, with the error forgotten. */
  function Mended(p: Pipe): Pipe {
    p.(broken := false)
  }

  lemma MendedStep(p: Pipe, s: Step)
    requires SenderInv(Mended(p)) && Enabled(ANY, p, s) && s != Fail
    ensures SenderInv(Mended(Next(p, s)))
  {
    var steady := Rules(true, false);
    assert Enabled(steady, Mended(p), s) && Next(Mended(p), s) == Mended(Next(p, s));
    StepKeepsSender(steady, Mended(p), s);
  }

  lemma {:induction false} MendedRun(p: Pipe, run: seq<Step>)
    requires SenderInv(Mended(p)) && Legal(ANY, p, run) && Fail !in run
    ensures Sound(After(ANY, p, run))
    decreases run
  {
    if run == [] {
      InvIsSound(Mended(p));
      var sent :| SoundFor(Mended(p), sent);
      assert SoundFor(p, sent);
    } else {
      assert run[0] in run;
      MendedStep(p, run[0]);
      MendedRun(Next(p, run[0]), run[1..]);
    }
  }

  lemma NothingTakenMends(p: Pipe)
    requires BehindError(p) && p.pipe == Stream(p.done)
    ensures SenderInv(Mended(p))
  {
    var last: Bytestring, k: nat :| Holds(p, last, k) && Accounts(p, last, k);
    assert |Encode(last)[..k]| == 0;
    assert Holds(Mended(p), last, 0) && Accounts(Mended(p), last, 0);
  }

  lemma FourBytes(b: Bytestring)
    requires |b| == 4
    ensures FromBigEndian(b) == ((b[0] as nat * 256 + b[1] as nat) * 256 + b[2] as nat) * 256 + b[3] as nat
  {
    assert b[..3][..2] == b[..2] && b[..2][..1] == b[..1] && b[..1][..0] == [];
    assert FromBigEndian(b[..1]) == b[0] as nat;
    assert FromBigEndian(b[..2]) == b[0] as nat * 256 + b[1] as nat;
    assert FromBigEndian(b[..3]) == (b[0] as nat * 256 + b[1] as nat) * 256 + b[2] as nat;
  }

  lemma FirstIsAsLong(stream: Bytestring)
    requires |stream| >= 4 && Decode(stream).frames != []
    ensures |Decode(stream).frames[0]| == FromBigEndian(stream[..4])
  {
  }

  lemma SmallHeader(frame: Bytestring)
    requires Fits(frame)
    ensures var e := Encode(frame); e[0] == 0 && e[1] == 0 && FromBigEndian(e[..4]) == |frame|
  {
    U32Widths();
    BigEndianReadsBack(|frame|, 4);
    assert Encode(frame)[..4] == BigEndian(|frame|, 4);
    FourBytes(BigEndian(|frame|, 4));
  }

  /** Behind part of a frame some frame is not read back: the header of the torn one is taken for its own. */
  lemma TornFrameHidesOne(last: Bytestring, k: nat) returns (frame: Bytestring)
    requires Fits(last) && 0 < k <= |Encode(last)|
    ensures Fits(frame) && |Encode(last)[..k] + Encode(frame)| >= 4
    ensures |frame| != FromBigEndian((Encode(last)[..k] + Encode(frame))[..4])
  {
    frame := if k >= 4 && |last| == 1 then [] else [9];
    var stream := Encode(last)[..k] + Encode(frame);
    SmallHeader(last);
    if k >= 4 {
      assert stream[..4] == Encode(last)[..4];
    } else {
      assert Encode([9]) == [0, 0, 0, 1, 9];
      assert stream[3] == 0;
      FourBytes(stream[..4]);
    }
  }

  lemma HiddenIsNotSound(p: Pipe, last: Bytestring, k: nat, frame: Bytestring)
    requires (forall f :: f in p.done ==> Fits(f)) && k <= |Encode(last)|
    requires p.pipe == Stream(p.done) + (Encode(last)[..k] + Encode(frame))
    requires |Encode(last)[..k] + Encode(frame)| >= 4
    requires |frame| != FromBigEndian((Encode(last)[..k] + Encode(frame))[..4])
    ensures forall q: Pipe :: q.pipe == p.pipe && q.done == p.done + [frame] ==> !Sound(q)
  {
    var rest := Encode(last)[..k] + Encode(frame);
    WholeFramesDecode(p.done, rest, Decode(p.pipe).frames, Decode(rest).frames);
    if p.done + [frame] <= Decode(p.pipe).frames {
      assert Decode(p.pipe).frames[|p.done|] == frame;
      assert Decode(rest).frames != [] && Decode(rest).frames[0] == frame;
      FirstIsAsLong(rest);
      assert false;
    }
  }

  /** One whole frame, sent on a socket that works, or works again. */
  lemma SendsWhole(rules: Rules, p: Pipe, frame: Bytestring) returns (run: seq<Step>)
    requires p.phase.Idle? && !p.torn && Fits(frame) && (rules == ANY || !p.broken)
    ensures Legal(rules, p, run) && Fail !in run
    ensures After(rules, p, run) == p.(pipe := p.pipe + Encode(frame), done := p.done + [frame])
  {
    run := [Send(frame), Takes(|Encode(frame)|), Finish];
    var p1 := Next(p, run[0]);
    var p2 := Next(p1, run[1]);
    assert Encode(frame)[0..|Encode(frame)|] == Encode(frame);
    assert run[1..] == [Takes(|Encode(frame)|), Finish] && run[1..][1..] == [Finish] && run[1..][1..][1..] == [];
    assert Legal(rules, p2, [Finish]) && After(rules, p2, [Finish]) == Next(p2, Finish);
    assert Legal(rules, p1, run[1..]) && After(rules, p1, run[1..]) == Next(p2, Finish);
  }

  /**
   A pipe whose socket works again after an error is sound, until the next error, exactly
   when the failed write left no byte in it.
   */
  lemma RecoversSoundIff(p: Pipe)
    requires BehindError(p)
    ensures RecoversSound(p) <==> p.pipe == Stream(p.done)
  {
    if p.pipe == Stream(p.done) {
      NothingTakenMends(p);
      forall run | Legal(ANY, p, run) && Fail !in run ensures Sound(After(ANY, p, run)) {
        MendedRun(p, run);
      }
    } else {
      var last: Bytestring, k: nat :| Holds(p, last, k) && Accounts(p, last, k);
      assert k > 0;
      var frame := TornFrameHidesOne(last, k);
      var run := SendsWhole(ANY, p, frame);
      var q := After(ANY, p, run);
      Regroup(Stream(p.done), Encode(last)[..k], Encode(frame));
      HiddenIsNotSound(q.(done := p.done), last, k, frame);
      assert !Sound(q);
    }
  }

  // ----- When a channel takes another frame -----------------------------------------------

  /** What leaves a channel torn for good: a `send` that was dropped, or the end of the read side. */
  predicate Tears(s: Step) {
    s.Drop? || s.RecvEnd?
  }

  /** Between sends the mark says whether anything has torn the pipe; during one it has not. */
  predicate Marked(p: Pipe, torn: bool) {
    if p.phase.Idle? then p.torn == torn else p.torn && !torn
  }

  lemma StepKeepsMark(p: Pipe, s: Step, torn: bool)
    requires Marked(p, torn) && Enabled(ANY, p, s)
    ensures Marked(Next(p, s), torn || Tears(s))
  {
  }

  lemma {:induction false} RunKeepsMark(p: Pipe, run: seq<Step>, torn: bool)
    requires Marked(p, torn) && Legal(ANY, p, run)
    ensures Marked(After(ANY, p, run), torn || exists s :: s in run && Tears(s))
    decreases run
  {
    if run != [] {
      StepKeepsMark(p, run[0], torn);
      RunKeepsMark(Next(p, run[0]), run[1..], torn || Tears(run[0]));
      assert (exists s :: s in run && Tears(s)) <==> Tears(run[0]) || exists s :: s in run[1..] && Tears(s) by {
        assert forall s :: s in run <==> s == run[0] || s in run[1..];
      }
    }
  }

  /**
   In every run: between two sends a frame above the cap is refused as such, one within it
   if and only if a send was dropped before or the read side has ended, and is begun
   otherwise, whatever errors there were.
   */
  lemma RefusesIff(run: seq<Step>, frame: Bytestring)
    requires Legal(ANY, NEW_PIPE, run) && After(ANY, NEW_PIPE, run).phase.Idle?
    ensures var p := After(ANY, NEW_PIPE, run);
      BeginSend(p, frame) ==
        if |frame| > MAX_PEER_FRAME then (p, Some(TooLarge(|frame|)))
        else if exists s :: s in run && Tears(s) then (p, Some(Io))
        else (p.(torn := true, phase := Sending(frame, 0)), None)
  {
    RunKeepsMark(NEW_PIPE, run, false);
  }

  lemma {:induction false} JoinRuns(rules: Rules, p: Pipe, first: seq<Step>, rest: seq<Step>)
    requires Legal(rules, p, first) && Legal(rules, After(rules, p, first), rest)
    ensures Legal(rules, p, first + rest) && After(rules, p, first + rest) == After(rules, After(rules, p, first), rest)
    decreases first
  {
    if first == [] {
      assert first + rest == rest;
    } else {
      JoinRuns(rules, Next(p, first[0]), first[1..], rest);
      assert (first + rest)[1..] == first[1..] + rest;
    }
  }

  const STEADY := Rules(true, true)

  lemma OneMoreSent(p: Pipe, frames: seq<Bytestring>, last: Bytestring) returns (run: seq<Step>)
    requires p == Pipe(false, Idle, Stream(frames), false, frames) && Fits(last)
    ensures Legal(STEADY, p, run)
    ensures After(STEADY, p, run) == Pipe(false, Idle, Stream(frames + [last]), false, frames + [last])
  {
    run := SendsWhole(STEADY, p, last);
    assert (frames + [last])[..|frames|] == frames;
  }

  /** Any list of frames within the cap can be sent, one after the other. */
  lemma {:induction false} AnyListIsSent(frames: seq<Bytestring>) returns (run: seq<Step>)
    requires forall f :: f in frames ==> Fits(f)
    ensures Legal(STEADY, NEW_PIPE, run)
    ensures After(STEADY, NEW_PIPE, run) == Pipe(false, Idle, Stream(frames), false, frames)
    decreases frames
  {
    if frames == [] {
      run := [];
    } else {
      var front, last := frames[..|frames| - 1], frames[|frames| - 1];
      var before := AnyListIsSent(front);
      var p := After(STEADY, NEW_PIPE, before);
      var more := OneMoreSent(p, front, last);
      JoinRuns(STEADY, NEW_PIPE, before, more);
      run := before + more;
      assert front + [last] == frames;
    }
  }

  /** And the reader decodes exactly that list. */
  lemma AllDecode(frames: seq<Bytestring>)
    requires forall f :: f in frames ==> Fits(f)
    ensures Decode(Stream(frames)) == Decoded(frames, false)
  {
    var pipe := Stream(frames);
    assert pipe + [] == pipe && Decode([]).frames == [] && frames + [] == frames;
    WholeFramesDecode(frames, [], Decode(pipe).frames, []);
    CutStreamDecodes(frames, pipe);
  }

  // ----- What a reader refuses ---------------------------------------------------------------

  /** A header above the cap ends the pipe as a violation, whatever follows it. */
  lemma AboveCapFails(len: nat, rest: Bytestring)
    requires MAX_PEER_FRAME < len < U32
    ensures Decode(BigEndian(len, 4) + rest) == Decoded([], true)
  {
    U32Widths();
    BigEndianReadsBack(len, 4);
    assert (BigEndian(len, 4) + rest)[..4] == BigEndian(len, 4);
  }
}
