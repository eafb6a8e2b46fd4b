/**
 The owner of the X11 CLIPBOARD selection (clipboard/src/x11.rs): every request is
 answered once, at most one answer is deferred, and large answers become incremental
 send sessions driven by the requestor's deletions.

 Requests are numbered in their order of arrival; the code itself never sees the
 number. Timeouts are events; the server's view of our property interest is `interest`.
 */
module Selection {
  import opened Wrappers
  import opened Bytes
  import opened IncrTransfer

  type Window = nat

  datatype Atom =
    | NoAtom | Targets | Timestamp | PasswordHint | UriList | GnomeCopied | KdeCopied
    | Utf8String | PlainString | PlainText | ImagePng | OtherAtom(n: nat)

  datatype Format = Text | Png | Files | OtherFormat(n: nat)

  const MAX_INCR_SENDS: nat := 8
  const MAX_DELIVER: nat := 256 * 1024 * 1024

  function FormatForTarget(target: Atom): Option<Format> {
    match target
    case Utf8String | PlainString | PlainText => Some(Text)
    case ImagePng => Some(Png)
    case UriList | GnomeCopied | KdeCopied => Some(Files)
    case _ => None
  }

  function TargetsForFormat(format: Format): seq<Atom> {
    match format
    case Text => [Utf8String, PlainString, PlainText]
    case Png => [ImagePng]
    case Files => [UriList, GnomeCopied, KdeCopied]
    case OtherFormat(_) => []
  }

  function TypeForFormat(format: Format): Atom {
    if format == Png then ImagePng else Utf8String
  }

  function AllTargets(formats: seq<Format>): seq<Atom> {
    if formats == [] then [] else TargetsForFormat(formats[0]) + AllTargets(formats[1..])
  }

  datatype Request = Request(requestor: Window, target: Atom, property: Atom)

  function PropertyOrTarget(r: Request): Atom {
    if r.property == NoAtom then r.target else r.property
  }

  /** What was written before the answering SelectionNotify; a refusal writes nothing. */
  datatype Content =
    | Refusal
    | TargetList(targets: seq<Atom>)
    | Time
    | Secret
    | UriBytes(kde: bool, copied: bool)
    | Direct(token: nat, bytes: seq<byte>, typ: Atom)
    | IncrMarker(token: nat, declared: nat)

  datatype Answer = Answer(request: nat, window: Window, target: Atom, property: Atom, content: Content)

  datatype Pending = Pending(request: nat, requestor: Window, property: Atom, target: Atom, typ: Atom, token: nat)

  type Key = (Window, Atom)

  datatype Send = Send(request: nat, typ: Atom, session: Session)

  /** A chunk appended to a requestor's property. */
  datatype Write = Write(window: Window, property: Atom, typ: Atom, chunk: seq<byte>)

  datatype Owner = Owner(
    self: Window, directMax: nat,
    pending: Option<Pending>, nextToken: nat, sends: map<Key, Send>,
    owned: bool, advertised: seq<Atom>, files: bool, sensitive: bool,
    interest: set<Window>, requests: seq<Request>, minted: map<nat, nat>, answers: seq<Answer>, writes: seq<Write>)

  function NewOwner(self: Window, directMax: nat): Owner {
    Owner(self, directMax, None, 0, map[], false, [], false, false, {}, [], map[], [], [])
  }

  /** `direct_max.clamp(1, INCR_MAX_CHUNK)`. */
  function ChunkSize(b: Owner): nat {
    if b.directMax < 1 then 1 else Min(b.directMax, INCR_MAX_CHUNK)
  }

  // ----- Answering ----------------------------------------------------------------------

  function Answered(b: Owner, r: Request, id: nat, property: Atom, content: Content): Owner {
    b.(answers := b.answers + [Answer(id, r.requestor, r.target, property, content)])
  }

  function Refused(b: Owner, p: Pending): Owner {
    b.(answers := b.answers + [Answer(p.request, p.requestor, p.target, NoAtom, Refusal)])
  }

  /** `if let Some(p) = self.pending.take() { self.refuse(&p) }`. */
  function RefusePending(b: Owner): Owner {
    if b.pending.None? then b else Refused(b, b.pending.value).(pending := None)
  }

  function StartDeferred(b: Owner, r: Request, id: nat): Owner {
    var format := FormatForTarget(r.target);
    if format.None? || format.value == Files then Answered(b, r, id, NoAtom, Refusal)
    else
      var b1 := RefusePending(b);
      b1.(pending := Some(Pending(id, r.requestor, PropertyOrTarget(r), r.target, TypeForFormat(format.value), b1.nextToken)),
          minted := b1.minted[b1.nextToken := id],
          nextToken := b1.nextToken + 1)
  }

  predicate IsFileTarget(target: Atom) {
    target == UriList || target == GnomeCopied || target == KdeCopied
  }

  /** `on_selection_request`, for the request numbered `|b.requests|`. */
  function OnRequest(b: Owner, r: Request): Owner {
    var id := |b.requests|;
    var c := b.(requests := b.requests + [r]);
    var property := PropertyOrTarget(r);
    if r.requestor == b.self then Answered(c, r, id, NoAtom, Refusal)
    else if r.target == Targets then Answered(c, r, id, property, TargetList([Targets, Timestamp] + b.advertised))
    else if r.target == Timestamp then Answered(c, r, id, property, Time)
    else if r.target == PasswordHint && r.target in b.advertised then Answered(c, r, id, property, Secret)
    else if r.target in b.advertised && b.files && IsFileTarget(r.target) then
      Answered(c, r, id, property, UriBytes(r.target == KdeCopied, r.target != UriList))
    else if r.target in b.advertised then StartDeferred(c, r, id)
    else Answered(c, r, id, NoAtom, Refusal)
  }

  // ----- Incremental sends ------------------------------------------------------------------

  function DeclaredSize(sensitive: bool, len: nat): nat {
    if sensitive then 0 else Min(len, U32 - 1)
  }

  function StartIncrSend(b: Owner, p: Pending, bytes: seq<byte>): Owner {
    var key := (p.requestor, p.property);
    var sends := b.sends - {key};
    if |sends| >= MAX_INCR_SENDS then Refused(b.(sends := sends), p)
    else
      b.(interest := b.interest + {p.requestor},
         answers := b.answers + [Answer(p.request, p.requestor, p.target, p.property,
                                        IncrMarker(p.token, DeclaredSize(b.sensitive, |bytes|)))],
         sends := sends[key := Send(p.request, p.typ, Session(bytes, 0, false))])
  }

  function FinishIncrSend(b: Owner, key: Key): Owner {
    if key !in b.sends then b
    else
      var sends := b.sends - {key};
      b.(sends := sends,
         interest := if StillNeeded(sends, key.0) then b.interest else b.interest - {key.0})
  }

  predicate StillNeeded(sends: map<Key, Send>, w: Window) {
    exists key :: key in sends && key.0 == w
  }

  /** `advance_incr_send`, reached by a deletion of the property `key`. */
  function OnDeleted(b: Owner, key: Key, flushed: bool): Owner
    requires key in b.sends ==> ValidSession(b.sends[key].session)
  {
    if key !in b.sends then b
    else
      var send := b.sends[key];
      var step := AdvanceOf(send.session, ChunkSize(b));
      if step.Done? then FinishIncrSend(b, key)
      else
        var chunk := if step.Append? then step.chunk else [];
        var c := b.(
          sends := b.sends[key := send.(session := Advanced(send.session, ChunkSize(b)))],
          writes := b.writes + [Write(key.0, key.1, send.typ, chunk)]);
        if flushed then c else FinishIncrSend(c, key)
  }

  function FinishAll(b: Owner, keys: seq<Key>): Owner
    decreases keys
  {
    if keys == [] then b else FinishAll(FinishIncrSend(b, keys[0]), keys[1..])
  }

  // ----- Orchestrator commands -----------------------------------------------------------------

  predicate IsPending(b: Owner, token: nat) {
    b.pending.Some? && b.pending.value.token == token
  }

  function OnDeliver(b: Owner, token: nat, bytes: seq<byte>): Owner {
    if !IsPending(b, token) then b
    else
      var p := b.pending.value;
      var c := b.(pending := None);
      if |bytes| > MAX_DELIVER then Refused(c, p)
      else if |bytes| <= b.directMax then
        c.(answers := c.answers + [Answer(p.request, p.requestor, p.target, p.property, Direct(token, bytes, p.typ))])
      else StartIncrSend(c, p, bytes)
  }

  function OnPasteFailed(b: Owner, token: nat): Owner {
    if IsPending(b, token) then RefusePending(b) else b
  }

  function ReleaseOwnership(b: Owner): Owner {
    b.(owned := false, advertised := [], sensitive := false)
  }

  function OnRelease(b: Owner): Owner {
    ReleaseOwnership(RefusePending(b).(files := false))
  }

  function Hint(sensitive: bool): seq<Atom> {
    if sensitive then [PasswordHint] else []
  }

  /** How taking the selection ends: the server's answer, or a flush that fails before it is asked. */
  datatype Acquisition = Acquired | Denied | FlushFailed

  /** `take_ownership`: a failed flush leaves the mark as it was. */
  function TakeOwnership(b: Owner, end: Acquisition): Owner {
    if end.FlushFailed? then b else b.(owned := end.Acquired?)
  }

  /** `on_offer`. */
  function OnOffer(b: Owner, formats: seq<Format>, sensitive: bool, end: Acquisition): Owner {
    TakeOwnership(
      RefusePending(b).(files := false, sensitive := sensitive, advertised := AllTargets(formats) + Hint(sensitive)), end)
  }

  /** `on_offer_files`; `mounted` is whether one of the two file systems came up. */
  function OnOfferFiles(b: Owner, sensitive: bool, mounted: bool, end: Acquisition): Owner {
    var c := RefusePending(b).(files := false, sensitive := sensitive);
    if mounted then
      TakeOwnership(c.(files := true, advertised := TargetsForFormat(Files) + Hint(sensitive)), end)
    else ReleaseOwnership(c)
  }

  function OnSelectionClear(b: Owner): Owner {
    if b.owned then b.(owned := false, advertised := [], files := false) else b
  }

  // ----- The object -----------------------------------------------------------------------------

  class Backend {
    const window: Window
    const directMax: nat
    var pending: Option<Pending>
    var nextPasteToken: nat
    var incrSends: map<Key, Send>
    var owned: bool
    var advertised: seq<Atom>
    var currentFiles: bool
    var offerSensitive: bool
    // The server, and history.
    var interest: set<Window>
    var answers: seq<Answer>
    var writes: seq<Write>
    ghost var requests: seq<Request>
    ghost var minted: map<nat, nat>

    ghost function View(): Owner
      reads this
    {
      Owner(window, directMax, pending, nextPasteToken, incrSends, owned, advertised, currentFiles, offerSensitive,
            interest, requests, minted, answers, writes)
    }

    constructor (window: Window, directMax: nat)
      ensures View() == NewOwner(window, directMax)
    {
      this.window, this.directMax := window, directMax;
      pending, nextPasteToken, incrSends := None, 0, map[];
      owned, advertised, currentFiles, offerSensitive := false, [], false, false;
      interest, answers, writes, requests, minted := {}, [], [], [], map[];
    }

    method Notify(request: nat, requestor: Window, target: Atom, property: Atom, content: Content)
      modifies this`answers
      ensures View() == old(View()).(answers := old(answers) + [Answer(request, requestor, target, property, content)])
    {
      answers := answers + [Answer(request, requestor, target, property, content)];
    }

    method RefuseTaken()
      modifies this`answers, this`pending
      ensures View() == RefusePending(old(View()))
    {
      if pending.Some? {
        var p := pending.value;
        pending := None;
        Notify(p.request, p.requestor, p.target, NoAtom, Refusal);
      }
    }

    method StartDeferredPaste(r: Request, id: nat)
      modifies this
      ensures View() == StartDeferred(old(View()), r, id)
    {
      var format := FormatForTarget(r.target);
      if format.None? || format.value == Files {
        Notify(id, r.requestor, r.target, NoAtom, Refusal);
        return;
      }
      RefuseTaken();
      var token := nextPasteToken;
      nextPasteToken := nextPasteToken + 1;
      minted := minted[token := id];
      pending := Some(Pending(id, r.requestor, PropertyOrTarget(r), r.target, TypeForFormat(format.value), token));
    }

    method OnSelectionRequest(r: Request, id: nat)
      requires id == |requests|
      modifies this
      ensures View() == OnRequest(old(View()), r)
    {
      requests := requests + [r];
      var property := PropertyOrTarget(r);
      if r.requestor == window {
        Notify(id, r.requestor, r.target, NoAtom, Refusal);
      } else if r.target == Targets {
        Notify(id, r.requestor, r.target, property, TargetList([Targets, Timestamp] + advertised));
      } else if r.target == Timestamp {
        Notify(id, r.requestor, r.target, property, Time);
      } else if r.target == PasswordHint && r.target in advertised {
        Notify(id, r.requestor, r.target, property, Secret);
      } else if r.target in advertised && currentFiles && IsFileTarget(r.target) {
        Notify(id, r.requestor, r.target, property, UriBytes(r.target == KdeCopied, r.target != UriList));
      } else if r.target in advertised {
        StartDeferredPaste(r, id);
      } else {
        Notify(id, r.requestor, r.target, NoAtom, Refusal);
      }
    }

    method StartIncrSendSession(p: Pending, bytes: seq<byte>)
      modifies this
      ensures View() == StartIncrSend(old(View()), p, bytes)
    {
      var key := (p.requestor, p.property);
      incrSends := incrSends - {key};
      if |incrSends| >= MAX_INCR_SENDS {
        Notify(p.request, p.requestor, p.target, NoAtom, Refusal);
        return;
      }
      interest := interest + {p.requestor};
      Notify(p.request, p.requestor, p.target, p.property, IncrMarker(p.token, DeclaredSize(offerSensitive, |bytes|)));
      incrSends := incrSends[key := Send(p.request, p.typ, Session(bytes, 0, false))];
    }

    method FinishIncrSendSession(key: Key)
      modifies this
      ensures View() == FinishIncrSend(old(View()), key)
    {
      if key !in incrSends {
        return;
      }
      incrSends := incrSends - {key};
      if !StillNeeded(incrSends, key.0) {
        interest := interest - {key.0};
      }
    }

    method AdvanceIncrSend(key: Key, flushed: bool)
      requires key in incrSends ==> ValidSession(incrSends[key].session)
      modifies this
      ensures View() == OnDeleted(old(View()), key, flushed)
    {
      if key !in incrSends {
        return;
      }
      var send := incrSends[key];
      var s, chunkSize := send.session, if directMax < 1 then 1 else Min(directMax, INCR_MAX_CHUNK);
      var chunk: seq<byte> := [];
      if s.terminated {
        FinishIncrSendSession(key);
        return;
      } else if s.offset < |s.payload| {
        var end := Min(s.offset + chunkSize, |s.payload|);
        chunk := s.payload[s.offset..end];
        s := Session(s.payload, end, s.terminated);
      } else {
        s := Session(s.payload, s.offset, true);
      }
      incrSends := incrSends[key := Send(send.request, send.typ, s)];
      writes := writes + [Write(key.0, key.1, send.typ, chunk)];
      if !flushed {
        FinishIncrSendSession(key);
      }
    }

    method CheckIncrTimeouts(expired: seq<Key>)
      modifies this
      ensures View() == FinishAll(old(View()), expired)
    {
      var i := 0;
      while i < |expired|
        invariant i <= |expired|
        invariant FinishAll(old(View()), expired) == FinishAll(View(), expired[i..])
      {
        assert expired[i..][1..] == expired[i + 1..];
        FinishIncrSendSession(expired[i]);
        i := i + 1;
      }
    }

    method Deliver(token: nat, bytes: seq<byte>)
      modifies this
      ensures View() == OnDeliver(old(View()), token, bytes)
    {
      if pending.None? || pending.value.token != token {
        return;
      }
      var p := pending.value;
      pending := None;
      if |bytes| > MAX_DELIVER {
        Notify(p.request, p.requestor, p.target, NoAtom, Refusal);
      } else if |bytes| <= directMax {
        Notify(p.request, p.requestor, p.target, p.property, Direct(token, bytes, p.typ));
      } else {
        StartIncrSendSession(p, bytes);
      }
    }

    method PasteFailed(token: nat)
      modifies this
      ensures View() == OnPasteFailed(old(View()), token)
    {
      if pending.Some? && pending.value.token == token {
        RefuseTaken();
      }
    }

    method DropOwnership()
      modifies this`owned, this`advertised, this`offerSensitive
      ensures View() == ReleaseOwnership(old(View()))
    {
      if owned {
        owned := false;
      }
      advertised := [];
      offerSensitive := false;
    }

    method Release()
      modifies this
      ensures View() == OnRelease(old(View()))
    {
      RefuseTaken();
      currentFiles := false;
      DropOwnership();
    }

    method TakeSelection(end: Acquisition)
      modifies this`owned
      ensures View() == TakeOwnership(old(View()), end)
    {
      if !end.FlushFailed? {
        owned := end.Acquired?;
      }
    }

    method Offer(formats: seq<Format>, sensitive: bool, end: Acquisition)
      modifies this
      ensures View() == OnOffer(old(View()), formats, sensitive, end)
    {
      RefuseTaken();
      currentFiles := false;
      offerSensitive := sensitive;
      advertised := AllTargets(formats);
      if sensitive {
        advertised := advertised + [PasswordHint];
      }
      assert advertised == AllTargets(formats) + Hint(sensitive);
      TakeSelection(end);
    }

    method OfferFiles(sensitive: bool, mounted: bool, end: Acquisition)
      modifies this
      ensures View() == OnOfferFiles(old(View()), sensitive, mounted, end)
    {
      RefuseTaken();
      currentFiles := false;
      offerSensitive := sensitive;
      if mounted {
        currentFiles := true;
        advertised := TargetsForFormat(Files);
        if sensitive {
          advertised := advertised + [PasswordHint];
        }
        assert advertised == TargetsForFormat(Files) + Hint(sensitive);
        TakeSelection(end);
      } else {
        DropOwnership();
      }
    }

    method SelectionCleared()
      modifies this
      ensures View() == OnSelectionClear(old(View()))
    {
      if owned {
        owned := false;
        advertised := [];
        currentFiles := false;
      }
    }
  }
}
