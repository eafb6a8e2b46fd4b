/**
 Every run of the selection owner (clipboard/src/x11.rs): the ledger of requests and
 answers, the tokens, and the send sessions.
 */
module SelectionRuns {
  import opened Wrappers
  import opened Bytes
  import opened IncrTransfer
  import opened Selection

  datatype Event =
    | Requested(r: Request)
    | Cleared
    | Deleted(key: Key, flushed: bool)
    | OfferMade(formats: seq<Format>, sensitive: bool, end: Acquisition)
    | FilesOffered(sensitive: bool, mounted: bool, end: Acquisition)
    | Delivered(token: nat, bytes: seq<byte>)
    | Failed(token: nat)
    | PasteExpired
    | SendsExpired(keys: seq<Key>)
    | Released

  predicate SessionsValid(b: Owner) {
    forall key :: key in b.sends ==> ValidSession(b.sends[key].session)
  }

  predicate FromOrchestrator(e: Event) {
    e.OfferMade? || e.FilesOffered? || e.Released? || e.Delivered? || e.Failed?
  }

  /** What a command of the orchestrator does. */
  function Commanded(b: Owner, e: Event): Owner
    requires FromOrchestrator(e)
  {
    match e
    case OfferMade(formats, sensitive, end) => OnOffer(b, formats, sensitive, end)
    case FilesOffered(sensitive, mounted, end) => OnOfferFiles(b, sensitive, mounted, end)
    case Delivered(token, bytes) => OnDeliver(b, token, bytes)
    case Failed(token) => OnPasteFailed(b, token)
    case Released => OnRelease(b)
  }

  function Next(b: Owner, e: Event): Owner
    requires SessionsValid(b)
  {
    match e
    case Requested(r) => OnRequest(b, r)
    case Cleared => OnSelectionClear(b)
    case Deleted(key, flushed) => OnDeleted(b, key, flushed)
    case PasteExpired => RefusePending(b)
    case SendsExpired(keys) => FinishAll(b, keys)
    case _ => Commanded(b, e)
  }

  // ----- The ledger ----------------------------------------------------------------------

  predicate IsAnswered(answers: seq<Answer>, request: nat) {
    exists i :: 0 <= i < |answers| && answers[i].request == request
  }

  function PendingRequest(b: Owner): Option<nat> {
    if b.pending.None? then None else Some(b.pending.value.request)
  }

  /** Of `count` requests, every one but the pending one has been answered, and once. */
  ghost predicate Ledger(count: nat, pending: Option<nat>, answers: seq<Answer>) {
    && (forall i :: 0 <= i < |answers| ==> answers[i].request < count)
    && (forall i, j :: 0 <= i < j < |answers| ==> answers[i].request != answers[j].request)
    && (pending.Some? ==> pending.value < count)
    && (forall request: nat :: request < count ==> (IsAnswered(answers, request) <==> pending != Some(request)))
    && |answers| + (if pending.Some? then 1 else 0) == count
  }

  lemma PostToLedger(count: nat, pending: Option<nat>, answers: seq<Answer>, answer: Answer)
    requires Ledger(count, pending, answers)
    ensures answer.request == count ==> Ledger(count + 1, pending, answers + [answer])
    ensures pending == Some(answer.request) ==> Ledger(count, None, answers + [answer])
    ensures pending.None? ==> Ledger(count + 1, Some(count), answers)
  {
    var more := answers + [answer];
    forall request: nat ensures IsAnswered(more, request) <==> IsAnswered(answers, request) || request == answer.request {
      if IsAnswered(answers, request) {
        var i :| 0 <= i < |answers| && answers[i].request == request;
        assert more[i].request == request;
      }
      assert more[|answers|] == answer;
    }
    if pending == Some(answer.request) {
      assert !IsAnswered(answers, answer.request);
    }
  }

  ghost predicate LedgerInv(b: Owner) {
    Ledger(|b.requests|, PendingRequest(b), b.answers)
  }

  // ----- Answers belong to their requests --------------------------------------------------

  /** The answer goes where its request came from, and echoes it. */
  predicate Fits(b: Owner, a: Answer)
    requires a.request < |b.requests|
  {
    var r := b.requests[a.request];
    && a.window == r.requestor && a.target == r.target
    && a.property == (if a.content.Refusal? then NoAtom else PropertyOrTarget(r))
    && (a.content.Direct? ==> a.content.token in b.minted && b.minted[a.content.token] == a.request)
    && (a.content.IncrMarker? ==> a.content.token in b.minted && b.minted[a.content.token] == a.request)
  }

  predicate AnswersInv(b: Owner) {
    forall i :: 0 <= i < |b.answers| ==> b.answers[i].request < |b.requests| && Fits(b, b.answers[i])
  }

  /** Tokens are minted in order, each for its own later request. */
  ghost predicate TokensInv(b: Owner) {
    && (forall t: nat :: t in b.minted <==> t < b.nextToken)
    && (forall t :: t in b.minted ==> b.minted[t] < |b.requests|)
    && (forall t, u :: t in b.minted && u in b.minted && t < u ==> b.minted[t] < b.minted[u])
    && (b.pending.Some? ==> PendingFits(b, b.pending.value))
  }

  predicate PendingFits(b: Owner, p: Pending) {
    && p.token in b.minted && b.minted[p.token] == p.request && p.request < |b.requests|
    && p.requestor == b.requests[p.request].requestor && p.target == b.requests[p.request].target
    && p.property == PropertyOrTarget(b.requests[p.request]) && p.requestor != b.self
  }

  // ----- Send sessions -----------------------------------------------------------------------

  function Windows(sends: map<Key, Send>): set<Window> {
    set key | key in sends :: key.0
  }

  /** The marker that announced this session was the answer to its request. */
  predicate Announced(b: Owner, key: Key, send: Send) {
    exists i :: 0 <= i < |b.answers| && IsMarker(b.answers[i], key, send)
  }

  predicate IsMarker(a: Answer, key: Key, send: Send) {
    a.request == send.request && a.window == key.0 && a.property == key.1 && a.content.IncrMarker?
  }

  predicate SendFits(b: Owner, key: Key) {
    key in b.sends ==>
      && key.0 != b.self && ValidSession(b.sends[key].session)
      && b.directMax < |b.sends[key].session.payload| <= MAX_DELIVER
      && Announced(b, key, b.sends[key])
  }

  /** At most eight sessions; our interest is selected on exactly the windows that have one. */
  predicate SendsInv(b: Owner) {
    && |b.sends| <= MAX_INCR_SENDS
    && b.interest == Windows(b.sends)
    && (forall key :: key in b.sends ==> SendFits(b, key))
  }

  ghost predicate Inv(b: Owner) {
    LedgerInv(b) && AnswersInv(b) && TokensInv(b) && SendsInv(b)
  }

  // ----- What later answers and requests leave alone --------------------------------------------

  /** `later` has the same history as `b`, and perhaps more. */
  ghost predicate Extends(b: Owner, later: Owner) {
    && b.self == later.self && b.directMax == later.directMax
    && b.requests <= later.requests && b.answers <= later.answers
    && (forall t :: t in b.minted ==> t in later.minted && later.minted[t] == b.minted[t])
  }

  lemma FitsLater(b: Owner, later: Owner, a: Answer)
    requires Extends(b, later) && a.request < |b.requests| && Fits(b, a)
    ensures Fits(later, a)
  {
    assert later.requests[a.request] == b.requests[a.request];
  }

  lemma PendingFitsLater(b: Owner, later: Owner, p: Pending)
    requires Extends(b, later) && PendingFits(b, p)
    ensures PendingFits(later, p)
  {
    assert later.requests[p.request] == b.requests[p.request];
  }

  /** At most one more answer, and that one fits. */
  lemma AnswersLater(b: Owner, later: Owner)
    requires AnswersInv(b) && Extends(b, later) && |later.answers| <= |b.answers| + 1
    requires |later.answers| == |b.answers| + 1 ==>
      later.answers[|b.answers|].request < |later.requests| && Fits(later, later.answers[|b.answers|])
    ensures AnswersInv(later)
  {
    forall i | 0 <= i < |later.answers| ensures later.answers[i].request < |later.requests| && Fits(later, later.answers[i]) {
      if i < |b.answers| {
        assert later.answers[i] == b.answers[i];
        FitsLater(b, later, b.answers[i]);
      }
    }
  }

  lemma AnnouncedLater(b: Owner, later: Owner, key: Key, send: Send)
    requires Announced(b, key, send) && b.answers <= later.answers
    ensures Announced(later, key, send)
  {
    var i :| 0 <= i < |b.answers| && IsMarker(b.answers[i], key, send);
    assert later.answers[i] == b.answers[i];
  }

  lemma SendsLater(b: Owner, later: Owner)
    requires SendsInv(b) && Extends(b, later) && later.sends == b.sends && later.interest == b.interest
    ensures SendsInv(later)
  {
    forall key | key in later.sends ensures SendFits(later, key) {
      assert SendFits(b, key);
      AnnouncedLater(b, later, key, b.sends[key]);
    }
  }

  // ----- One answer, one request ------------------------------------------------------------------

  /** The pending paste is answered and forgotten. */
  lemma AnswerPending(b: Owner, content: Content, property: Atom)
    requires Inv(b) && b.pending.Some?
    requires content.Refusal? || content.Direct? || content.IncrMarker?
    requires content.Direct? ==> content.token == b.pending.value.token
    requires content.IncrMarker? ==> content.token == b.pending.value.token
    requires property == if content.Refusal? then NoAtom else b.pending.value.property
    ensures var p := b.pending.value;
      Inv(b.(pending := None, answers := b.answers + [Answer(p.request, p.requestor, p.target, property, content)]))
  {
    var p := b.pending.value;
    var a := Answer(p.request, p.requestor, p.target, property, content);
    var next := b.(pending := None, answers := b.answers + [a]);
    PostToLedger(|b.requests|, PendingRequest(b), b.answers, a);
    AnswersLater(b, next);
    SendsLater(b, next);
  }

  lemma RefusePendingKeepsInv(b: Owner)
    requires Inv(b)
    ensures Inv(RefusePending(b))
  {
    if b.pending.Some? {
      AnswerPending(b, Refusal, NoAtom);
    }
  }

  predicate Immediate(content: Content) {
    !content.Direct? && !content.IncrMarker?
  }

  /** A request that is answered at once. */
  lemma AnswerAtOnce(b: Owner, r: Request, property: Atom, content: Content)
    requires Inv(b) && Immediate(content)
    requires property == if content.Refusal? then NoAtom else PropertyOrTarget(r)
    ensures Inv(Answered(b.(requests := b.requests + [r]), r, |b.requests|, property, content))
  {
    var a := Answer(|b.requests|, r.requestor, r.target, property, content);
    var next := b.(requests := b.requests + [r], answers := b.answers + [a]);
    PostToLedger(|b.requests|, PendingRequest(b), b.answers, a);
    AnswersLater(b, next);
    SendsLater(b, next);
    if b.pending.Some? {
      PendingFitsLater(b, next, b.pending.value);
    }
  }

  /** A request that is deferred, with nothing else pending. */
  function Deferred(b: Owner, r: Request, typ: Atom): Owner {
    var id := |b.requests|;
    b.(requests := b.requests + [r],
       pending := Some(Pending(id, r.requestor, PropertyOrTarget(r), r.target, typ, b.nextToken)),
       minted := b.minted[b.nextToken := id], nextToken := b.nextToken + 1)
  }

  lemma DeferKeepsTokens(b: Owner, r: Request, typ: Atom)
    requires TokensInv(b) && r.requestor != b.self
    ensures TokensInv(Deferred(b, r, typ)) && Extends(b, Deferred(b, r, typ))
  {
  }

  lemma DeferKeepsInv(b: Owner, r: Request, typ: Atom)
    requires Inv(b) && b.pending.None? && r.requestor != b.self
    ensures Inv(Deferred(b, r, typ))
  {
    var next := Deferred(b, r, typ);
    PostToLedger(|b.requests|, None, b.answers, Answer(|b.requests|, 0, NoAtom, NoAtom, Refusal));
    DeferKeepsTokens(b, r, typ);
    AnswersLater(b, next);
    SendsLater(b, next);
  }

  /** Is the request left unanswered for now? */
  predicate Defers(b: Owner, r: Request) {
    && r.requestor != b.self && r.target in b.advertised && r.target != Targets && r.target != Timestamp
    && r.target != PasswordHint && !(b.files && IsFileTarget(r.target))
    && FormatForTarget(r.target).Some? && FormatForTarget(r.target).value != Files
  }

  lemma DeferredStart(b: Owner, r: Request, format: Format)
    requires FormatForTarget(r.target) == Some(format) && format != Files
    ensures StartDeferred(b.(requests := b.requests + [r]), r, |b.requests|)
      == Deferred(RefusePending(b), r, TypeForFormat(format))
  {
    if b.pending.None? {
      assert RefusePending(b) == b;
    }
  }

  lemma DeferredIs(b: Owner, r: Request)
    requires Defers(b, r)
    ensures OnRequest(b, r) == Deferred(RefusePending(b), r, TypeForFormat(FormatForTarget(r.target).value))
  {
    DeferredStart(b, r, FormatForTarget(r.target).value);
    assert OnRequest(b, r) == StartDeferred(b.(requests := b.requests + [r]), r, |b.requests|);
  }

  lemma ImmediateIs(b: Owner, r: Request) returns (property: Atom, content: Content)
    requires !Defers(b, r)
    ensures Immediate(content) && property == if content.Refusal? then NoAtom else PropertyOrTarget(r)
    ensures OnRequest(b, r) == Answered(b.(requests := b.requests + [r]), r, |b.requests|, property, content)
  {
    property, content := PropertyOrTarget(r), Refusal;
    if r.requestor == b.self {
      property := NoAtom;
    } else if r.target == Targets {
      content := TargetList([Targets, Timestamp] + b.advertised);
    } else if r.target == Timestamp {
      content := Time;
    } else if r.target == PasswordHint && r.target in b.advertised {
      content := Secret;
    } else if r.target in b.advertised && b.files && IsFileTarget(r.target) {
      content := UriBytes(r.target == KdeCopied, r.target != UriList);
    } else {
      property := NoAtom;
    }
  }

  lemma RequestKeepsInv(b: Owner, r: Request)
    requires Inv(b)
    ensures Inv(OnRequest(b, r))
  {
    if Defers(b, r) {
      DeferredIs(b, r);
      RefusePendingKeepsInv(b);
      DeferKeepsInv(RefusePending(b), r, TypeForFormat(FormatForTarget(r.target).value));
    } else {
      var property, content := ImmediateIs(b, r);
      AnswerAtOnce(b, r, property, content);
    }
  }

  // ----- Sessions ------------------------------------------------------------------------------------

  /** Nothing but the offer changes: what the invariant speaks of stays. */
  lemma OfferKeepsInv(b: Owner, owned: bool, advertised: seq<Atom>, files: bool, sensitive: bool)
    requires Inv(b)
    ensures Inv(b.(owned := owned, advertised := advertised, files := files, sensitive := sensitive))
  {
    var next := b.(owned := owned, advertised := advertised, files := files, sensitive := sensitive);
    AnswersLater(b, next);
    SendsLater(b, next);
    if b.pending.Some? {
      PendingFitsLater(b, next, b.pending.value);
    }
  }

  lemma WindowsWithout(sends: map<Key, Send>, key: Key)
    requires key in sends
    ensures Windows(sends - {key}) ==
      if StillNeeded(sends - {key}, key.0) then Windows(sends) else Windows(sends) - {key.0}
    ensures |sends - {key}| == |sends| - 1
  {
    var rest := sends - {key};
    forall w ensures w in Windows(rest) <==> StillNeeded(rest, w) {
    }
    forall w ensures w in Windows(sends) <==> w == key.0 || w in Windows(rest) {
      if w in Windows(sends) && w != key.0 {
        var k :| k in sends && k.0 == w;
        assert k in rest;
      }
    }
    assert rest.Keys == sends.Keys - {key};
  }

  lemma FinishKeepsInv(b: Owner, key: Key)
    requires Inv(b)
    ensures Inv(FinishIncrSend(b, key))
  {
    if key in b.sends {
      var next := FinishIncrSend(b, key);
      WindowsWithout(b.sends, key);
      AnswersLater(b, next);
      forall k | k in next.sends ensures SendFits(next, k) {
        assert SendFits(b, k);
        AnnouncedLater(b, next, k, b.sends[k]);
      }
      if b.pending.Some? {
        PendingFitsLater(b, next, b.pending.value);
      }
    }
  }

  lemma {:induction false} FinishAllKeepsInv(b: Owner, keys: seq<Key>)
    requires Inv(b)
    ensures Inv(FinishAll(b, keys))
    decreases keys
  {
    if keys != [] {
      FinishKeepsInv(b, keys[0]);
      FinishAllKeepsInv(FinishIncrSend(b, keys[0]), keys[1..]);
    }
  }

  function MovedOn(b: Owner, key: Key, session: Session, writes: seq<Write>): Owner
    requires key in b.sends
  {
    b.(sends := b.sends[key := b.sends[key].(session := session)], writes := writes)
  }

  lemma MovedSendFits(b: Owner, key: Key, session: Session, writes: seq<Write>, k: Key)
    requires SendFits(b, k) && key in b.sends && k in b.sends
    requires ValidSession(session) && session.payload == b.sends[key].session.payload
    ensures SendFits(MovedOn(b, key, session, writes), k)
  {
    var next := MovedOn(b, key, session, writes);
    var i :| 0 <= i < |b.answers| && IsMarker(b.answers[i], k, b.sends[k]);
    assert IsMarker(next.answers[i], k, next.sends[k]);
  }

  lemma MovedSends(b: Owner, key: Key, session: Session, writes: seq<Write>)
    requires SendsInv(b) && key in b.sends && ValidSession(session) && session.payload == b.sends[key].session.payload
    ensures SendsInv(MovedOn(b, key, session, writes))
  {
    var next := MovedOn(b, key, session, writes);
    assert next.sends.Keys == b.sends.Keys;
    assert Windows(next.sends) == Windows(b.sends);
    forall k | k in next.sends ensures SendFits(next, k) {
      assert SendFits(b, k);
      MovedSendFits(b, key, session, writes, k);
    }
  }

  /** A session moves on: its payload and its place in the table stay. */
  lemma MoveOnKeepsInv(b: Owner, key: Key, session: Session, writes: seq<Write>)
    requires Inv(b) && key in b.sends && ValidSession(session) && session.payload == b.sends[key].session.payload
    ensures Inv(MovedOn(b, key, session, writes))
  {
    var next := MovedOn(b, key, session, writes);
    MovedSends(b, key, session, writes);
    AnswersLater(b, next);
    if b.pending.Some? {
      PendingFitsLater(b, next, b.pending.value);
    }
  }

  lemma DeletedKeepsInv(b: Owner, key: Key, flushed: bool)
    requires Inv(b) && SessionsValid(b)
    ensures Inv(OnDeleted(b, key, flushed))
  {
    if key in b.sends {
      var send := b.sends[key];
      var step := AdvanceOf(send.session, ChunkSize(b));
      if step.Done? {
        FinishKeepsInv(b, key);
      } else {
        var next := Advanced(send.session, ChunkSize(b));
        var chunk := if step.Append? then step.chunk else [];
        var writes := b.writes + [Write(key.0, key.1, send.typ, chunk)];
        MoveOnKeepsInv(b, key, next, writes);
        if !flushed {
          FinishKeepsInv(b.(sends := b.sends[key := send.(session := next)], writes := writes), key);
        }
      }
    }
  }

  // ----- Deliveries ------------------------------------------------------------------------------------

  predicate HasRoom(b: Owner, key: Key) {
    key in b.sends || |b.sends| < MAX_INCR_SENDS
  }

  /** The owner once a large answer to the pending paste has become a session. */
  function SessionStarted(b: Owner, bytes: seq<byte>): Owner
    requires b.pending.Some?
  {
    var p := b.pending.value;
    b.(pending := None, interest := b.interest + {p.requestor},
       answers := b.answers + [Answer(p.request, p.requestor, p.target, p.property,
                                      IncrMarker(p.token, DeclaredSize(b.sensitive, |bytes|)))],
       sends := b.sends[(p.requestor, p.property) := Send(p.request, p.typ, Session(bytes, 0, false))])
  }

  lemma RemovedSize(sends: map<Key, Send>, key: Key)
    ensures |sends - {key}| == if key in sends then |sends| - 1 else |sends|
    ensures key !in sends ==> sends - {key} == sends
  {
    assert (sends - {key}).Keys == sends.Keys - {key};
  }

  lemma RoomLeft(sends: map<Key, Send>, key: Key, send: Send)
    requires |sends| <= MAX_INCR_SENDS
    ensures |sends - {key}| < MAX_INCR_SENDS <==> key in sends || |sends| < MAX_INCR_SENDS
    ensures key !in sends ==> sends - {key} == sends
    ensures (sends - {key})[key := send] == sends[key := send]
  {
    RemovedSize(sends, key);
  }

  lemma StartIs(b: Owner, bytes: seq<byte>)
    requires b.pending.Some? && |b.sends| <= MAX_INCR_SENDS
    ensures var p := b.pending.value;
      StartIncrSend(b.(pending := None), p, bytes) ==
      if HasRoom(b, (p.requestor, p.property)) then SessionStarted(b, bytes) else RefusePending(b)
  {
    var p := b.pending.value;
    RoomLeft(b.sends, (p.requestor, p.property), Send(p.request, p.typ, Session(bytes, 0, false)));
  }

  lemma WindowsWith(sends: map<Key, Send>, key: Key, send: Send)
    ensures Windows(sends[key := send]) == Windows(sends) + {key.0}
    ensures |sends[key := send]| == if key in sends then |sends| else |sends| + 1
  {
    var more := sends[key := send];
    assert more.Keys == sends.Keys + {key};
    forall w ensures w in Windows(more) <==> w in Windows(sends) || w == key.0 {
      assert key in more;
      if w in Windows(sends) {
        var k :| k in sends && k.0 == w;
        assert k in more;
      }
    }
  }

  lemma StartedSendFits(b: Owner, bytes: seq<byte>, k: Key)
    requires SendsInv(b) && b.pending.Some? && b.pending.value.requestor != b.self
    requires b.directMax < |bytes| <= MAX_DELIVER && k in SessionStarted(b, bytes).sends
    ensures SendFits(SessionStarted(b, bytes), k)
  {
    var p, next := b.pending.value, SessionStarted(b, bytes);
    if k == (p.requestor, p.property) {
      assert IsMarker(next.answers[|b.answers|], k, next.sends[k]);
    } else {
      assert SendFits(b, k);
      AnnouncedLater(b, next, k, b.sends[k]);
    }
  }

  lemma StartedSends(b: Owner, bytes: seq<byte>)
    requires SendsInv(b) && b.pending.Some? && b.pending.value.requestor != b.self
    requires HasRoom(b, (b.pending.value.requestor, b.pending.value.property))
    requires b.directMax < |bytes| <= MAX_DELIVER
    ensures SendsInv(SessionStarted(b, bytes))
  {
    var p, next := b.pending.value, SessionStarted(b, bytes);
    var key := (p.requestor, p.property);
    WindowsWith(b.sends, key, Send(p.request, p.typ, Session(bytes, 0, false)));
    forall k | k in next.sends ensures SendFits(next, k) {
      StartedSendFits(b, bytes, k);
    }
  }

  lemma StartKeepsInv(b: Owner, bytes: seq<byte>)
    requires Inv(b) && b.pending.Some? && b.directMax < |bytes| <= MAX_DELIVER
    requires HasRoom(b, (b.pending.value.requestor, b.pending.value.property))
    ensures Inv(SessionStarted(b, bytes))
  {
    var p, next := b.pending.value, SessionStarted(b, bytes);
    var content := IncrMarker(p.token, DeclaredSize(b.sensitive, |bytes|));
    AnswerPending(b, content, p.property);
    var answered := b.(pending := None,
                       answers := b.answers + [Answer(p.request, p.requestor, p.target, p.property, content)]);
    StartedSends(b, bytes);
    AnswersLater(answered, next);
  }

  lemma DeliveredKeepsInv(b: Owner, token: nat, bytes: seq<byte>)
    requires Inv(b)
    ensures Inv(OnDeliver(b, token, bytes))
  {
    if IsPending(b, token) {
      var p := b.pending.value;
      if |bytes| > MAX_DELIVER {
        RefusePendingKeepsInv(b);
      } else if |bytes| <= b.directMax {
        AnswerPending(b, Direct(token, bytes, p.typ), p.property);
      } else {
        StartIs(b, bytes);
        if HasRoom(b, (p.requestor, p.property)) {
          StartKeepsInv(b, bytes);
        } else {
          RefusePendingKeepsInv(b);
        }
      }
    }
  }

  /** What a delivery that finds its paste pending answers. */
  function DeliveryContent(b: Owner, token: nat, bytes: seq<byte>): Content
    requires IsPending(b, token)
  {
    var p := b.pending.value;
    if |bytes| <= Min(b.directMax, MAX_DELIVER) then Direct(token, bytes, p.typ)
    else if |bytes| <= MAX_DELIVER && HasRoom(b, (p.requestor, p.property)) then
      IncrMarker(token, DeclaredSize(b.sensitive, |bytes|))
    else Refusal
  }

  lemma DeliveryIs(b: Owner, token: nat, bytes: seq<byte>)
    requires IsPending(b, token) && |b.sends| <= MAX_INCR_SENDS
    ensures var p, next, content := b.pending.value, OnDeliver(b, token, bytes), DeliveryContent(b, token, bytes);
      && next.pending.None? && next.requests == b.requests && next.minted == b.minted
      && next.answers == b.answers + [Answer(p.request, p.requestor, p.target,
                                             if content.Refusal? then NoAtom else p.property, content)]
      && next.sends == (if content.IncrMarker?
          then b.sends[(p.requestor, p.property) := Send(p.request, p.typ, Session(bytes, 0, false))] else b.sends)
  {
    if b.directMax < |bytes| <= MAX_DELIVER {
      StartIs(b, bytes);
    }
  }

  /**
   A delivery for a token that is not pending changes nothing. One for the pending token
   answers the request that minted it and no other: with the bytes if one request holds
   them, by a session carrying them if the table has room, and by a refusal otherwise.
   */
  lemma DeliveryAnswersItsRequest(b: Owner, token: nat, bytes: seq<byte>, next: Owner)
    requires Inv(b) && next == OnDeliver(b, token, bytes)
    ensures !IsPending(b, token) ==> next == b
    ensures IsPending(b, token) ==>
      && token in b.minted && next.pending.None? && |next.answers| == |b.answers| + 1
      && var a := next.answers[|b.answers|];
      && a.request == b.minted[token] && a.request < |b.requests|
      && a.window == b.requests[a.request].requestor && a.content == DeliveryContent(b, token, bytes)
      && (a.content.IncrMarker? ==>
           (a.window, a.property) in next.sends && next.sends[(a.window, a.property)].session == Session(bytes, 0, false))
  {
    if IsPending(b, token) {
      DeliveryIs(b, token, bytes);
    }
  }

  // ----- Every run ---------------------------------------------------------------------------------------

  lemma InvMeansValid(b: Owner)
    requires Inv(b)
    ensures SessionsValid(b)
  {
    forall key | key in b.sends ensures ValidSession(b.sends[key].session) {
      assert SendFits(b, key);
    }
  }

  lemma OfferedKeepsInv(b: Owner, formats: seq<Format>, sensitive: bool, end: Acquisition)
    requires Inv(b)
    ensures Inv(OnOffer(b, formats, sensitive, end))
  {
    RefusePendingKeepsInv(b);
    OfferKeepsInv(RefusePending(b), OnOffer(b, formats, sensitive, end).owned, AllTargets(formats) + Hint(sensitive),
                  false, sensitive);
  }

  lemma FilesOfferedKeepsInv(b: Owner, sensitive: bool, mounted: bool, end: Acquisition)
    requires Inv(b)
    ensures Inv(OnOfferFiles(b, sensitive, mounted, end))
  {
    RefusePendingKeepsInv(b);
    if mounted {
      OfferKeepsInv(RefusePending(b), OnOfferFiles(b, sensitive, mounted, end).owned,
                    TargetsForFormat(Files) + Hint(sensitive), true, sensitive);
    } else {
      OfferKeepsInv(RefusePending(b), false, [], false, false);
    }
  }

  lemma ReleaseKeepsInv(b: Owner)
    requires Inv(b)
    ensures Inv(OnRelease(b)) && Inv(OnSelectionClear(b))
  {
    RefusePendingKeepsInv(b);
    OfferKeepsInv(RefusePending(b), false, [], false, false);
    OfferKeepsInv(b, false, [], false, b.sensitive);
  }

  lemma FailedKeepsInv(b: Owner, token: nat)
    requires Inv(b)
    ensures Inv(OnPasteFailed(b, token))
  {
    RefusePendingKeepsInv(b);
  }

  lemma CommandKeepsInv(b: Owner, e: Event, next: Owner)
    requires Inv(b) && FromOrchestrator(e) && next == Commanded(b, e)
    ensures Inv(next)
  {
    match e {
      case OfferMade(formats, sensitive, end) =>
        OfferedKeepsInv(b, formats, sensitive, end);
        assert next == OnOffer(b, formats, sensitive, end);
      case FilesOffered(sensitive, mounted, end) =>
        FilesOfferedKeepsInv(b, sensitive, mounted, end);
        assert next == OnOfferFiles(b, sensitive, mounted, end);
      case Delivered(token, bytes) =>
        DeliveredKeepsInv(b, token, bytes);
        assert next == OnDeliver(b, token, bytes);
      case Failed(token) =>
        FailedKeepsInv(b, token);
        assert next == OnPasteFailed(b, token);
      case Released =>
        ReleaseKeepsInv(b);
        assert next == OnRelease(b);
    }
  }

  lemma NextKeepsInv(b: Owner, e: Event, next: Owner)
    requires Inv(b) && SessionsValid(b) && next == Next(b, e)
    ensures Inv(next)
  {
    match e {
      case Requested(r) =>
        RequestKeepsInv(b, r);
        assert next == OnRequest(b, r);
      case Cleared =>
        ReleaseKeepsInv(b);
        assert next == OnSelectionClear(b);
      case Deleted(key, flushed) =>
        DeletedKeepsInv(b, key, flushed);
        assert next == OnDeleted(b, key, flushed);
      case PasteExpired => RefusePendingKeepsInv(b);
      case SendsExpired(keys) => FinishAllKeepsInv(b, keys);
      case _ => CommandKeepsInv(b, e, next);
    }
  }

  ghost predicate Reaches(b: Owner, events: seq<Event>, end: Owner)
    decreases events
  {
    if events == [] then end == b else SessionsValid(b) && Reaches(Next(b, events[0]), events[1..], end)
  }

  lemma {:induction false} RunKeepsInv(b: Owner, events: seq<Event>, end: Owner)
    requires Inv(b) && Reaches(b, events, end)
    ensures Inv(end)
    decreases events
  {
    if events != [] {
      NextKeepsInv(b, events[0], Next(b, events[0]));
      RunKeepsInv(Next(b, events[0]), events[1..], end);
    }
  }

  /** No run gets stuck: every sequence of events leads somewhere. */
  lemma {:induction false} EveryRunGoesOn(b: Owner, events: seq<Event>) returns (end: Owner)
    requires Inv(b)
    ensures Reaches(b, events, end)
    decreases events
  {
    if events == [] {
      end := b;
    } else {
      InvMeansValid(b);
      NextKeepsInv(b, events[0], Next(b, events[0]));
      end := EveryRunGoesOn(Next(b, events[0]), events[1..]);
    }
  }

  lemma NewOwnerInv(self: Window, directMax: nat)
    ensures Inv(NewOwner(self, directMax))
  {
  }

  /**
   In every run: requests received are answers sent plus the at most one pending paste,
   none is answered twice or at another's window, there are at most eight sessions, and our
   interest is set on a window exactly while it has one.
   */
  lemma SelectionIsAccountedFor(self: Window, directMax: nat, events: seq<Event>, b: Owner)
    requires Reaches(NewOwner(self, directMax), events, b)
    ensures |b.requests| == |b.answers| + (if b.pending.Some? then 1 else 0)
    ensures forall i, j :: 0 <= i < j < |b.answers| ==> b.answers[i].request != b.answers[j].request
    ensures forall i :: 0 <= i < |b.answers| ==> b.answers[i].request < |b.requests| && Fits(b, b.answers[i])
    ensures |b.sends| <= MAX_INCR_SENDS
    ensures forall w :: w in b.interest <==> StillNeeded(b.sends, w)
  {
    NewOwnerInv(self, directMax);
    RunKeepsInv(NewOwner(self, directMax), events, b);
    forall w ensures w in Windows(b.sends) <==> StillNeeded(b.sends, w) {
    }
  }

  // ----- A session is driven by its own deletions only ------------------------------------------------------

  /** The requestor deletes the property `n` times, and every flush goes through. */
  function Driven(b: Owner, key: Key, n: nat): Owner
    requires SessionsValid(b)
    decreases n
  {
    if n == 0 then b
    else var next := OnDeleted(b, key, true); if SessionsValid(next) then Driven(next, key, n - 1) else next
  }

  function WritesOf(key: Key, typ: Atom, chunks: seq<Chunk>): seq<Write> {
    seq(|chunks|, i requires 0 <= i < |chunks| => Write(key.0, key.1, typ, chunks[i]))
  }

  lemma OneDeletion(b: Owner, key: Key, chunk: Chunk)
    requires SessionsValid(b) && key in b.sends && !b.sends[key].session.terminated
    requires Appends(b.sends[key].session, ChunkSize(b))[..1] == [chunk]
    ensures var send, next := b.sends[key], OnDeleted(b, key, true);
      && SessionsValid(next) && ChunkSize(next) == ChunkSize(b) && key in next.sends
      && next.sends[key] == send.(session := Advanced(send.session, ChunkSize(b)))
      && next.writes == b.writes + [Write(key.0, key.1, send.typ, chunk)]
  {
    assert chunk == Appends(b.sends[key].session, ChunkSize(b))[..1][0];
  }

  lemma AppendsNext(s: Session, chunkSize: nat)
    requires ValidSession(s) && chunkSize > 0 && !s.terminated
    ensures var all := Appends(s, chunkSize); all != [] && all[1..] == Appends(Advanced(s, chunkSize), chunkSize)
  {
  }

  lemma WritesFromFirst(before: seq<Write>, key: Key, typ: Atom, chunks: seq<Chunk>)
    requires chunks != []
    ensures before + [Write(key.0, key.1, typ, chunks[0])] + WritesOf(key, typ, chunks[1..])
      == before + WritesOf(key, typ, chunks)
  {
    assert WritesOf(key, typ, chunks) == [Write(key.0, key.1, typ, chunks[0])] + WritesOf(key, typ, chunks[1..]);
  }

  /** One deletion for each chunk, one for the terminator's: all is written in order and the session is gone. */
  lemma {:induction false} DrivenToTheEnd(b: Owner, key: Key, send: Send, chunks: seq<Chunk>, end: Owner)
    requires SessionsValid(b) && key in b.sends && send == b.sends[key]
    requires chunks == Appends(send.session, ChunkSize(b)) && end == Driven(b, key, |chunks| + 1)
    ensures end.writes == b.writes + WritesOf(key, send.typ, chunks) && key !in end.sends
    decreases |chunks|
  {
    var next := OnDeleted(b, key, true);
    if send.session.terminated {
      assert Driven(next, key, 0) == next;
      assert b.writes + WritesOf(key, send.typ, []) == b.writes;
    } else {
      AppendsNext(send.session, ChunkSize(b));
      OneDeletion(b, key, chunks[0]);
      DrivenToTheEnd(next, key, next.sends[key], chunks[1..], end);
      WritesFromFirst(b.writes, key, send.typ, chunks);
    }
  }

  predicate Touches(b: Owner, e: Event, key: Key) {
    match e
    case Deleted(k, _) => k == key
    case SendsExpired(keys) => key in keys
    case Delivered(token, _) =>
      IsPending(b, token) && (b.pending.value.requestor, b.pending.value.property) == key
    case _ => false
  }

  lemma {:induction false} OthersFinish(b: Owner, keys: seq<Key>, key: Key)
    requires key in b.sends && key !in keys
    ensures key in FinishAll(b, keys).sends && FinishAll(b, keys).sends[key] == b.sends[key]
    decreases keys
  {
    if keys != [] {
      OthersFinish(FinishIncrSend(b, keys[0]), keys[1..], key);
    }
  }

  lemma RequestsLeaveSends(b: Owner, r: Request)
    ensures OnRequest(b, r).sends == b.sends
  {
    if Defers(b, r) {
      DeferredIs(b, r);
    } else {
      var property, content := ImmediateIs(b, r);
    }
  }

  lemma RefusalLeavesSends(b: Owner)
    ensures RefusePending(b).sends == b.sends
  {
  }

  lemma OffersLeaveSends(b: Owner, formats: seq<Format>, sensitive: bool, mounted: bool, end: Acquisition)
    ensures OnOffer(b, formats, sensitive, end).sends == b.sends
    ensures OnOfferFiles(b, sensitive, mounted, end).sends == b.sends
  {
    RefusalLeavesSends(b);
  }

  lemma ReleaseLeavesSends(b: Owner, token: nat)
    ensures OnRelease(b).sends == b.sends && OnSelectionClear(b).sends == b.sends
    ensures OnPasteFailed(b, token).sends == b.sends
  {
    RefusalLeavesSends(b);
  }

  lemma OtherDeletion(b: Owner, deleted: Key, flushed: bool, key: Key)
    requires SessionsValid(b) && key in b.sends && deleted != key
    ensures key in OnDeleted(b, deleted, flushed).sends && OnDeleted(b, deleted, flushed).sends[key] == b.sends[key]
  {
  }

  lemma OtherDelivery(b: Owner, token: nat, bytes: seq<byte>, key: Key)
    requires |b.sends| <= MAX_INCR_SENDS && key in b.sends
    requires IsPending(b, token) ==> (b.pending.value.requestor, b.pending.value.property) != key
    ensures key in OnDeliver(b, token, bytes).sends && OnDeliver(b, token, bytes).sends[key] == b.sends[key]
  {
    if IsPending(b, token) {
      DeliveryIs(b, token, bytes);
    }
  }

  /** An owner change, a new offer, a release or another paste leaves a running session as it is. */
  lemma OthersLeaveASession(b: Owner, e: Event, key: Key)
    requires |b.sends| <= MAX_INCR_SENDS && SessionsValid(b) && key in b.sends && !Touches(b, e, key)
    ensures key in Next(b, e).sends && Next(b, e).sends[key] == b.sends[key]
  {
    match e {
      case Requested(r) => RequestsLeaveSends(b, r);
      case Deleted(deleted, flushed) => OtherDeletion(b, deleted, flushed, key);
      case SendsExpired(keys) => OthersFinish(b, keys, key);
      case Delivered(token, bytes) => OtherDelivery(b, token, bytes, key);
      case OfferMade(formats, sensitive, end) => OffersLeaveSends(b, formats, sensitive, false, end);
      case FilesOffered(sensitive, mounted, end) => OffersLeaveSends(b, [], sensitive, mounted, end);
      case Failed(token) => ReleaseLeavesSends(b, token);
      case Released | Cleared => ReleaseLeavesSends(b, 0);
      case PasteExpired => RefusalLeavesSends(b);
    }
  }
}
