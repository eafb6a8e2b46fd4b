/**
 What a requestor gets from the selection's owner (clipboard/src/x11.rs): which targets are
 offered, what each request is answered with, and what a paste delivers in the end.
 */
module SelectionAnswers {
  import opened Wrappers
  import opened Bytes
  import opened IncrTransfer
  import opened Selection
  import opened SelectionRuns

  // ----- Targets and formats -------------------------------------------------------------

  /** The targets a format can be asked for by, and no others, are offered for it. */
  lemma TargetsOfFormat(format: Format, target: Atom)
    ensures target in TargetsForFormat(format) <==> FormatForTarget(target) == Some(format)
    ensures FormatForTarget(target) == Some(Text) <==> target in {Utf8String, PlainString, PlainText}
    ensures FormatForTarget(target) == Some(Png) <==> target == ImagePng
    ensures FormatForTarget(target) == Some(Files) <==> target in {UriList, GnomeCopied, KdeCopied}
  {
  }

  lemma {:induction false} AllTargetsIff(formats: seq<Format>, target: Atom)
    ensures target in AllTargets(formats) <==> exists f :: f in formats && FormatForTarget(target) == Some(f)
  {
    if formats != [] {
      AllTargetsIff(formats[1..], target);
      TargetsOfFormat(formats[0], target);
      assert forall f :: f in formats <==> f == formats[0] || f in formats[1..];
    }
  }

  /** An offer advertises exactly the targets of its formats, and the confidentiality hint exactly if it is sensitive. */
  lemma OfferAdvertises(b: Owner, formats: seq<Format>, sensitive: bool, end: Acquisition, target: Atom)
    ensures var next := OnOffer(b, formats, sensitive, end);
      && (target in next.advertised <==>
            || (exists f :: f in formats && FormatForTarget(target) == Some(f))
            || (sensitive && target == PasswordHint))
      && next.sensitive == sensitive && !next.files && next.pending.None? && next.sends == b.sends
      && (end == Acquired ==> next.owned) && (end == Denied ==> !next.owned) && (end == FlushFailed ==> next.owned == b.owned)
  {
    AllTargetsIff(formats, target);
  }

  /** A file offer that is mounted advertises the file targets, and the hint likewise; one that is not owns nothing. */
  lemma FilesOfferAdvertises(b: Owner, sensitive: bool, mounted: bool, end: Acquisition, target: Atom)
    ensures var next := OnOfferFiles(b, sensitive, mounted, end);
      && (target in next.advertised <==>
            mounted && (target in {UriList, GnomeCopied, KdeCopied} || (sensitive && target == PasswordHint)))
      && next.files == mounted && next.pending.None? && next.sends == b.sends
      && (!mounted ==> !next.owned && !next.sensitive) && (mounted ==> next.sensitive == sensitive)
      && (mounted && end == Acquired ==> next.owned) && (mounted && end == Denied ==> !next.owned)
      && (mounted && end == FlushFailed ==> next.owned == b.owned)
  {
    TargetsOfFormat(Files, target);
  }

  // ----- One request ------------------------------------------------------------------------

  /** The request is answered now, at its window, under the property it named or else its target. */
  predicate AnsweredWith(b: Owner, r: Request, content: Content) {
    var next := OnRequest(b, r);
    && next.pending == b.pending
    && next.answers == b.answers + [Answer(|b.requests|, r.requestor, r.target,
         if content.Refusal? then NoAtom else if r.property == NoAtom then r.target else r.property, content)]
  }

  /** The request is pending now, in place of an older one, which is refused. */
  predicate DeferredAs(b: Owner, r: Request, typ: Atom) {
    var next := OnRequest(b, r);
    && next.pending == Some(Pending(|b.requests|, r.requestor,
         if r.property == NoAtom then r.target else r.property, r.target, typ, b.nextToken))
    && next.answers == b.answers + (if b.pending.None? then [] else
         var p := b.pending.value; [Answer(p.request, p.requestor, p.target, NoAtom, Refusal)])
  }

  predicate IsListed(b: Owner, target: Atom) {
    target == Targets || target == Timestamp || target in b.advertised
  }

  /** The requests that are refused: our own, and those for what is not offered or cannot be converted. */
  predicate IsRefused(b: Owner, r: Request) {
    || r.requestor == b.self || !IsListed(b, r.target)
    || !(r.target in {Targets, Timestamp, PasswordHint, Utf8String, PlainString, PlainText, ImagePng}
         || (b.files && r.target in {UriList, GnomeCopied, KdeCopied}))
  }

  lemma RefusedIs(b: Owner, r: Request)
    requires IsRefused(b, r)
    ensures AnsweredWith(b, r, Refusal)
  {
  }

  /** The list of targets names exactly those that are offered, with the two that always are. */
  lemma TargetsAreListed(b: Owner, r: Request) returns (list: seq<Atom>)
    requires r.requestor != b.self && r.target == Targets
    ensures AnsweredWith(b, r, TargetList(list))
    ensures forall target :: target in list <==> IsListed(b, target)
  {
    list := [Targets, Timestamp] + b.advertised;
  }

  /** Files are answered by their URIs: KDE's own for KDE, and headed by `copy` for the two copied-files targets. */
  lemma FilesAreAnswered(b: Owner, r: Request)
    requires r.requestor != b.self && r.target in b.advertised && b.files
    requires r.target in {UriList, GnomeCopied, KdeCopied}
    ensures AnsweredWith(b, r, UriBytes(r.target == KdeCopied, r.target in {GnomeCopied, KdeCopied}))
  {
  }

  lemma OthersAreAnswered(b: Owner, r: Request)
    requires r.requestor != b.self
    ensures r.target == Timestamp ==> AnsweredWith(b, r, Time)
    ensures r.target == PasswordHint && r.target in b.advertised ==> AnsweredWith(b, r, Secret)
  {
  }

  /** Text and images are deferred, the property typed as UTF-8 for every text target, and as PNG for an image. */
  lemma DataIsDeferred(b: Owner, r: Request)
    requires r.requestor != b.self && r.target in b.advertised
    requires r.target in {Utf8String, PlainString, PlainText, ImagePng}
    ensures DeferredAs(b, r, if r.target == ImagePng then ImagePng else Utf8String)
    ensures OnRequest(b, r).minted == b.minted[b.nextToken := |b.requests|] && OnRequest(b, r).nextToken == b.nextToken + 1
  {
    DeferredIs(b, r);
  }

  predicate IsServed(b: Owner, r: Request) {
    var next := OnRequest(b, r);
    || (next.pending.Some? && next.pending.value.request == |b.requests|)
    || (next.answers != [] && next.answers[|next.answers| - 1].request == |b.requests|
        && !next.answers[|next.answers| - 1].content.Refusal?)
  }

  /** A request is served, now or by a delivery, if and only if it is none of those that are refused. */
  lemma ServedIff(b: Owner, r: Request)
    requires Inv(b)
    ensures IsServed(b, r) <==> !IsRefused(b, r)
  {
    if IsRefused(b, r) {
      RefusedIs(b, r);
    } else if r.target == Targets {
      var list := TargetsAreListed(b, r);
    } else if r.target in {Utf8String, PlainString, PlainText, ImagePng} {
      DataIsDeferred(b, r);
    } else if r.target in {UriList, GnomeCopied, KdeCopied} {
      FilesAreAnswered(b, r);
    } else {
      OthersAreAnswered(b, r);
    }
  }

  /** What an offer lists, it serves: every listed target, to every other window. */
  lemma OffersAreKept(b: Owner, formats: seq<Format>, sensitive: bool, end: Acquisition, r: Request)
    requires Files !in formats
    ensures var next := OnOffer(b, formats, sensitive, end);
      r.requestor != b.self && IsListed(next, r.target) ==> !IsRefused(next, r)
  {
    OfferAdvertises(b, formats, sensitive, end, r.target);
    TargetsOfFormat(Files, r.target);
    TargetsOfFormat(Text, r.target);
  }

  lemma FileOffersAreKept(b: Owner, sensitive: bool, end: Acquisition, r: Request)
    ensures var next := OnOfferFiles(b, sensitive, true, end);
      r.requestor != b.self && IsListed(next, r.target) ==> !IsRefused(next, r)
  {
    FilesOfferAdvertises(b, sensitive, true, end, r.target);
  }

  /** Once released, or lost to another owner, nothing is served but the two targets that always are. */
  lemma NothingIsServed(b: Owner, r: Request)
    requires r.target != Targets && r.target != Timestamp
    ensures IsRefused(OnRelease(b), r) && OnRelease(b).pending.None? && !OnRelease(b).owned && !OnRelease(b).files
    ensures b.owned ==> IsRefused(OnSelectionClear(b), r) && !OnSelectionClear(b).owned && !OnSelectionClear(b).files
  {
  }

  /** A new owner has nothing to release. */
  lemma NewIsReleased(self: Window, directMax: nat)
    ensures OnRelease(NewOwner(self, directMax)) == NewOwner(self, directMax)
    ensures !NewOwner(self, directMax).owned && NewOwner(self, directMax).sends == map[]
  {
  }

  // ----- One delivery ---------------------------------------------------------------------------

  /** A pending paste is delivered whole, by a session, or refused, by its size and by the room there is. */
  lemma DeliveredBySize(b: Owner, token: nat, bytes: seq<byte>)
    requires IsPending(b, token) && |b.sends| <= MAX_INCR_SENDS
    ensures var p, next := b.pending.value, OnDeliver(b, token, bytes);
      var key := (p.requestor, p.property);
      && next.pending.None?
      && (|bytes| > MAX_DELIVER ==> Ends(b, next, NoAtom, Refusal))
      && (|bytes| <= MAX_DELIVER && |bytes| <= b.directMax ==> Ends(b, next, p.property, Direct(token, bytes, p.typ)))
      && (b.directMax < |bytes| <= MAX_DELIVER && key !in b.sends && |b.sends| == MAX_INCR_SENDS ==>
            Ends(b, next, NoAtom, Refusal))
      && (b.directMax < |bytes| <= MAX_DELIVER && (key in b.sends || |b.sends| < MAX_INCR_SENDS) ==>
            && Ends(b, next, p.property, IncrMarker(token, if b.sensitive then 0 else if |bytes| < U32 then |bytes| else U32 - 1))
            && next.sends == b.sends[key := Send(p.request, p.typ, Session(bytes, 0, false))])
  {
    DeliveryIs(b, token, bytes);
  }

  /** The pending paste gets this answer, and nothing else is sent. */
  predicate Ends(b: Owner, next: Owner, property: Atom, content: Content)
    requires b.pending.Some?
  {
    var p := b.pending.value;
    next.answers == b.answers + [Answer(p.request, p.requestor, p.target, property, content)]
  }

  /** A failed paste is refused if it is the pending one; another token changes nothing. */
  lemma FailedIs(b: Owner, token: nat)
    ensures var next := OnPasteFailed(b, token);
      if b.pending.Some? && b.pending.value.token == token then
        next.pending.None? && Ends(b, next, NoAtom, Refusal) && next.sends == b.sends
      else next == b
  {
  }

  /** A chunk that cannot be flushed is the session's last: it goes, and our interest with the window's last one. */
  lemma FailedFlushEnds(b: Owner, key: Key)
    requires key in b.sends && ValidSession(b.sends[key].session) && !b.sends[key].session.terminated
    ensures var next := OnDeleted(b, key, false);
      && next.sends == b.sends - {key} && |next.writes| == |b.writes| + 1
      && (key.0 in next.interest <==> key.0 in b.interest && exists other :: other in next.sends && other.0 == key.0)
  {
    var c := b.sends[key := b.sends[key].(session := Advanced(b.sends[key].session, ChunkSize(b)))];
    assert c - {key} == b.sends - {key};
  }

  /** Chunks are as large as one request may be, at least a byte and at most a mebibyte. */
  lemma ChunkSizeIs(b: Owner)
    ensures 1 <= ChunkSize(b) <= INCR_MAX_CHUNK
    ensures 1 <= b.directMax <= INCR_MAX_CHUNK ==> ChunkSize(b) == b.directMax
    ensures b.directMax < 1 ==> ChunkSize(b) == 1
    ensures b.directMax > INCR_MAX_CHUNK ==> ChunkSize(b) == INCR_MAX_CHUNK
  {
  }

  // ----- From the marker to the paste --------------------------------------------------------------

  /**
   A payload announced by its marker and sent in chunks is read whole if and only if it fits
   the reader's cap. A reader that refuses it on its declared size reads no chunk of it and
   may use its property again; a concealed size is found out by reading, which may not.
   */
  lemma AnnouncedTransferIff(payload: seq<byte>, sensitive: bool, chunkSize: nat)
    requires chunkSize > 0
    ensures ReadIncr(DeclaredSize(sensitive, |payload|), Appends(Session(payload, 0, false), chunkSize)) ==
      if |payload| <= MAX_EAGER_READ then (Got(payload), false) else (Abandoned, sensitive)
  {
    var chunks := Appends(Session(payload, 0, false), chunkSize);
    SenderDeliversPayload(Session(payload, 0, false), chunkSize);
    assert payload[0..] == payload;
    WholeTransferIff([], chunks);
    assert [] + payload == payload;
  }
}
