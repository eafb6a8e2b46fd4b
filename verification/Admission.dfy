/**
 Who is let in and who is not (core/src/conn.rs `hello`, `components_approve`,
 `components_deny`, `components_revoke`; core/src/lib.rs for the spawn tokens).
 */
module Admission {
  import opened Wrappers
  import opened Enrollment
  import opened EnrollmentRuns

  // ----- Hello with a token --------------------------------------------------------------

  /** The role may be held: it is not exclusive, or nobody active holds it. */
  predicate IsFree(s: State, role: Role) {
    role == ClipboardBackend || role == InputBackend || role == SyncBackend ==>
      forall conn :: conn in s.conns ==> !(s.conns[conn].Active? && s.conns[conn].role == role)
  }

  predicate Covers(role: Role, scopes: seq<Scope>, h: Hello) {
    role == h.role && forall i {:trigger h.scopes[i]} :: 0 <= i < |h.scopes| ==> h.scopes[i] in scopes
  }

  predicate IsEnrolled(s: State, token: Token) {
    token in s.enrolledTokens && s.enrolledTokens[token] in s.enrolled
  }

  /** The token is the file token, or one that was granted what is asked for. */
  predicate IsGood(s: State, h: Hello, token: Token) {
    || token == s.fileToken
    || (token in s.spawnTokens && Covers(s.spawnTokens[token].role, s.spawnTokens[token].scopes, h))
    || (IsEnrolled(s, token)
        && var e := s.enrolled[s.enrolledTokens[token]]; Covers(e.role, e.scopes, h))
  }

  /** Every role and scope is of the vocabulary. */
  predicate IsKnown(h: Hello) {
    !h.role.UnknownRole? && forall i {:trigger h.scopes[i]} :: 0 <= i < |h.scopes| ==> !h.scopes[i].UnknownScope?
  }

  lemma WithinIff(scopes: seq<Scope>, granted: seq<Scope>)
    ensures Within(scopes, granted) <==> forall i {:trigger scopes[i]} :: 0 <= i < |scopes| ==> scopes[i] in granted
    ensures AllKnown(scopes) <==> forall i {:trigger scopes[i]} :: 0 <= i < |scopes| ==> !scopes[i].UnknownScope?
  {
    if Within(scopes, granted) {
      assert forall i :: 0 <= i < |scopes| ==> scopes[i] in scopes;
    }
    if AllKnown(scopes) {
      assert forall i :: 0 <= i < |scopes| ==> scopes[i] in scopes;
    }
  }

  lemma FreeIff(s: State, role: Role)
    ensures IsFree(s, role) <==> !ExclusiveRoleTaken(s, role)
  {
  }

  lemma RecognizedIff(s: State, h: Hello, token: Token, drawn: ComponentId)
    requires TokensApart(s)
    ensures Recognize(s, h, token, drawn).Ok? <==> IsGood(s, h, token)
    ensures Recognize(s, h, token, drawn).Ok? ==>
      Recognize(s, h, token, drawn).value.0 == if IsEnrolled(s, token) then s.enrolledTokens[token] else drawn
  {
    if token in s.spawnTokens {
      WithinIff(h.scopes, s.spawnTokens[token].scopes);
    }
    if IsEnrolled(s, token) {
      WithinIff(h.scopes, s.enrolled[s.enrolledTokens[token]].scopes);
    }
  }

  /** The connection as it is once let in, with exactly what it asked for. */
  predicate IsIn(p: Phase, component: ComponentId, h: Hello) {
    p.Active? && p.component == component && p.name == h.name && p.role == h.role && p.scopes == h.scopes
  }

  /**
   A hello with a token is granted if and only if the connection is fresh, role and scopes
   are known, nobody holds the role if it is exclusive, and the token is the file token or
   was granted what is asked for. Then the connection, and no other, has exactly that, and
   a spawn token is used up; otherwise nothing changes.
   */
  lemma HelloGrantedIff(s: State, conn: ConnId, h: Hello, request: RequestId, drawn: ComponentId, token: Token)
    requires TokensApart(s) && conn in s.conns && h.token == Some(token)
    ensures var (next, r) := OnHello(s, conn, h, request, drawn);
      && (r.Ok? <==> IsKnown(h) && s.conns[conn].Fresh? && IsFree(s, h.role) && IsGood(s, h, token))
      && (r.Ok? ==>
            && r == Ok(Granted(h.scopes)) && conn in next.conns && next.conns - {conn} == s.conns - {conn}
            && IsIn(next.conns[conn], if IsEnrolled(s, token) then s.enrolledTokens[token] else drawn, h)
            && next.spawnTokens == s.spawnTokens - {token} && next.enrolledTokens == s.enrolledTokens
            && next.pending == s.pending)
      && (r.Err? ==> next == s)
  {
    WithinIff(h.scopes, []);
    FreeIff(s, h.role);
    RecognizedIff(s, h, token, drawn);
  }

  /** The token was granted that role, with whatever scopes. */
  predicate IsForRole(s: State, token: Token, role: Role) {
    || (token in s.spawnTokens && s.spawnTokens[token].role == role)
    || (IsEnrolled(s, token) && s.enrolled[s.enrolledTokens[token]].role == role)
  }

  /** Which of the refusals it is. */
  lemma HelloRefusal(s: State, conn: ConnId, h: Hello, request: RequestId, drawn: ComponentId, token: Token)
    requires TokensApart(s) && conn in s.conns && h.token == Some(token)
    requires OnHello(s, conn, h, request, drawn).1.Err?
    ensures var e := OnHello(s, conn, h, request, drawn).1.error;
      && (e == InvalidParams <==> !IsKnown(h))
      && (e == PendingApproval <==> IsKnown(h) && s.conns[conn].Pending?)
      && (e == InvalidRequest <==> IsKnown(h) && s.conns[conn].Active?)
      && (e == RoleConflict ==> IsGood(s, h, token) && !IsFree(s, h.role))
      && (e == InvalidToken || e == ScopeDenied ==> !IsGood(s, h, token))
      && (e == ScopeDenied ==> IsForRole(s, token, h.role)) && (e == InvalidToken ==> !IsForRole(s, token, h.role))
  {
    WithinIff(h.scopes, []);
    FreeIff(s, h.role);
    RecognizedIff(s, h, token, drawn);
  }

  // ----- Hello without one -----------------------------------------------------------------

  /** A fresh connection without a token queues a request for exactly what it asks for, and is given nothing. */
  lemma HelloQueues(s: State, conn: ConnId, h: Hello, request: RequestId, drawn: ComponentId)
    requires conn in s.conns && s.conns[conn].Fresh? && h.token.None? && IsKnown(h)
    ensures var (next, r) := OnHello(s, conn, h, request, drawn);
      && r == Ok(Queued) && next.conns == s.conns[conn := Pending(request)]
      && next.pending == s.pending[request := PendingRequest(conn, h.name, h.role, h.scopes)]
      && next == s.(conns := next.conns, pending := next.pending)
  {
    WithinIff(h.scopes, []);
  }

  // ----- The file token ----------------------------------------------------------------------

  lemma {:induction false} FileTokenStays(s: State, run: seq<Step>)
    requires Legal(s, run)
    ensures After(s, run).fileToken == s.fileToken
    decreases run
  {
    if run != [] {
      FileTokenStays(Next(s, run[0]), run[1..]);
    }
  }

  /** In every reachable state a fresh connection is let in by the file token, with any scopes and any free role. */
  lemma FileTokenIsAlwaysGood(
      fileToken: Token, run: seq<Step>, s: State, conn: ConnId, h: Hello, request: RequestId, drawn: ComponentId)
    requires Legal(Initial(fileToken), run) && s == After(Initial(fileToken), run)
    requires conn in s.conns && s.conns[conn].Fresh? && h.token == Some(fileToken) && IsKnown(h) && IsFree(s, h.role)
    ensures OnHello(s, conn, h, request, drawn).1 == Ok(Granted(h.scopes))
  {
    RunKeepsInv(Initial(fileToken), run);
    FileTokenStays(Initial(fileToken), run);
    HelloGrantedIff(s, conn, h, request, drawn, fileToken);
  }

  // ----- Spawn tokens ---------------------------------------------------------------------------

  predicate HasGrant(s: State, token: Token, grant: Grant) {
    token in s.spawnTokens && s.spawnTokens[token] == grant
  }

  /** Takes the token out of service: it is used, or withdrawn. */
  predicate Spends(step: Step, token: Token) {
    || (step.HelloFrom? && step.h.token == Some(token))
    || (step.RevokeSpawn? && step.token == token)
    || (step.MintSpawn? && step.token == token)
  }

  lemma {:induction false} GrantStays(s: State, run: seq<Step>, token: Token, grant: Grant)
    requires HasGrant(s, token, grant) && Legal(s, run) && forall step :: step in run ==> !Spends(step, token)
    ensures HasGrant(After(s, run), token, grant)
    decreases run
  {
    if run != [] {
      assert !Spends(run[0], token);
      if run[0].HelloFrom? {
        HelloIs(s, run[0].conn, run[0].h, run[0].request, run[0].component);
      }
      GrantStays(Next(s, run[0]), run[1..], token, grant);
    }
  }

  /**
   A minted spawn token lets in one fresh connection, at any later moment until it is used
   or withdrawn, for exactly its role and no more than its scopes.
   */
  lemma SpawnTokenIsGoodIff(
      fileToken: Token, before: seq<Step>, token: Token, grant: Grant, run: seq<Step>, s: State,
      conn: ConnId, h: Hello, request: RequestId, drawn: ComponentId)
    requires Legal(Initial(fileToken), before) && Enabled(After(Initial(fileToken), before), MintSpawn(token, grant))
    requires Legal(OnMintSpawn(After(Initial(fileToken), before), token, grant), run)
    requires s == After(OnMintSpawn(After(Initial(fileToken), before), token, grant), run)
    requires forall step :: step in run ==> !Spends(step, token)
    requires conn in s.conns && s.conns[conn].Fresh? && h.token == Some(token) && IsKnown(h) && IsFree(s, h.role)
    ensures OnHello(s, conn, h, request, drawn).1.Ok? <==> Covers(grant.role, grant.scopes, h)
    ensures token !in OnHello(s, conn, h, request, drawn).0.spawnTokens
            || OnHello(s, conn, h, request, drawn).1.Err?
  {
    var minted := OnMintSpawn(After(Initial(fileToken), before), token, grant);
    RunKeepsInv(Initial(fileToken), before);
    StepKeepsInv(After(Initial(fileToken), before), MintSpawn(token, grant));
    RunKeepsInv(minted, run);
    GrantStays(minted, run, token, grant);
    HelloGrantedIff(s, conn, h, request, drawn, token);
  }

  /** A token of none of the three kinds lets nobody in. */
  lemma UnknownTokenIsRefused(s: State, conn: ConnId, h: Hello, request: RequestId, drawn: ComponentId, token: Token)
    requires TokensApart(s) && Unknown(s, token) && conn in s.conns && h.token == Some(token)
    ensures OnHello(s, conn, h, request, drawn).1.Err? && OnHello(s, conn, h, request, drawn).0 == s
  {
    HelloGrantedIff(s, conn, h, request, drawn, token);
  }

  /** A spawn token that is withdrawn lets nobody in, in any later run that does not draw it again; other grants stay. */
  lemma WithdrawnTokenStaysRefused(
      s: State, token: Token, run: seq<Step>, conn: ConnId, h: Hello, request: RequestId, drawn: ComponentId, other: Token)
    requires Inv(s) && token in s.spawnTokens
    requires Legal(OnRevokeSpawn(s, token), run) && forall step :: step in run ==> !Draws(step, token)
    requires conn in After(OnRevokeSpawn(s, token), run).conns && h.token == Some(token)
    ensures OnHello(After(OnRevokeSpawn(s, token), run), conn, h, request, drawn).1.Err?
    ensures other != token && other in s.spawnTokens ==> HasGrant(OnRevokeSpawn(s, token), other, s.spawnTokens[other])
  {
    var withdrawn := OnRevokeSpawn(s, token);
    StepKeepsInv(s, RevokeSpawn(token));
    RunKeepsInv(withdrawn, run);
    RunStaysUnknown(withdrawn, run, token);
    UnknownTokenIsRefused(After(withdrawn, run), conn, h, request, drawn, token);
  }

  // ----- Those who may approve ------------------------------------------------------------------

  predicate MayApprove(s: State, caller: ConnId) {
    caller in s.conns && s.conns[caller].Active? && ComponentsApprove in s.conns[caller].scopes
  }

  /**
   An approval goes through if and only if its caller may approve, the request is queued,
   what is granted is part of what was asked for and not the approval scope itself, and
   nobody holds the role if it is exclusive. The request has then left the queue; otherwise
   nothing changes.
   */
  lemma ApproveIff(
      s: State, caller: ConnId, request: RequestId, scopes: seq<Scope>, token: Token, component: ComponentId)
    requires caller in s.conns
    ensures var (next, r) := OnApprove(s, caller, request, scopes, token, component);
      && (r.Ok? <==>
            && MayApprove(s, caller) && request in s.pending && ComponentsApprove !in scopes
            && (forall i {:trigger scopes[i]} :: 0 <= i < |scopes| ==> scopes[i] in s.pending[request].scopes)
            && IsFree(s, s.pending[request].role))
      && (if r.Ok? then next.pending == s.pending - {request} && next.spawnTokens == s.spawnTokens else next == s)
  {
    if request in s.pending {
      WithinIff(scopes, s.pending[request].scopes);
      FreeIff(s, s.pending[request].role);
    }
  }

  /** Which of the refusals it is, for any of the three: by the caller's standing first. */
  lemma CallerRefusal(s: State, caller: ConnId, request: RequestId, scopes: seq<Scope>, token: Token, component: ComponentId)
    requires caller in s.conns && !MayApprove(s, caller)
    ensures var e := match s.conns[caller]
        case Fresh => NotEnrolled
        case Pending(_) => PendingApproval
        case Active(_, _, _, _, _) => ScopeDenied;
      && OnApprove(s, caller, request, scopes, token, component).1 == Err(e)
      && OnDeny(s, caller, request).1 == Err(e) && OnRevoke(s, caller, component).1 == Err(e)
  {
  }

  lemma RequestRefusal(s: State, caller: ConnId, request: RequestId, scopes: seq<Scope>, token: Token, component: ComponentId)
    requires caller in s.conns && MayApprove(s, caller)
    requires OnApprove(s, caller, request, scopes, token, component).1.Err?
    ensures OnApprove(s, caller, request, scopes, token, component).1.error ==
      if request in s.pending && ComponentsApprove !in scopes && Within(scopes, s.pending[request].scopes)
      then RoleConflict else InvalidParams
    ensures OnDeny(s, caller, request).1.Err? ==> OnDeny(s, caller, request).1.error == InvalidParams
    ensures OnRevoke(s, caller, component).1.Err? ==> OnRevoke(s, caller, component).1.error == InvalidParams
  {
  }

  /** A denial goes through if and only if its caller may approve and the request is queued: the asker is closed. */
  lemma DenyIff(s: State, caller: ConnId, request: RequestId)
    requires caller in s.conns
    ensures var (next, r) := OnDeny(s, caller, request);
      && (r.Ok? <==> MayApprove(s, caller) && request in s.pending)
      && (if r.Ok? then next == s.(pending := s.pending - {request}, closing := s.closing + {s.pending[request].conn})
          else next == s)
  {
  }

  predicate IsConnected(s: State, conn: ConnId, component: ComponentId) {
    conn in s.conns && s.conns[conn].Active? && s.conns[conn].component == component
  }

  /** A revocation goes through if and only if its caller may approve and the component is enrolled or connected. */
  lemma RevokeIff(s: State, caller: ConnId, component: ComponentId)
    requires caller in s.conns
    ensures var (next, r) := OnRevoke(s, caller, component);
      && (r.Ok? <==> MayApprove(s, caller) && (component in s.enrolled || exists conn :: IsConnected(s, conn, component)))
      && (r.Ok? ==> next.enrolled == s.enrolled - {component} && next.conns == s.conns)
      && (r.Ok? ==> forall conn :: conn in next.closing <==> conn in s.closing || IsConnected(s, conn, component))
      && (r.Err? ==> next == s)
  {
    assert forall conn :: conn in Connected(s, component) <==> IsConnected(s, conn, component);
    if Connected(s, component) != {} {
      var conn :| conn in Connected(s, component);
      assert IsConnected(s, conn, component);
    }
  }

  // ----- Connections --------------------------------------------------------------------------------

  /** How many connections a run opens. */
  function Opened(run: seq<Step>): nat {
    if run == [] then 0 else (if run[0].Connect? then 1 else 0) + Opened(run[1..])
  }

  lemma {:induction false} NumbersCount(s: State, run: seq<Step>)
    requires Legal(s, run)
    ensures After(s, run).nextConn == s.nextConn + Opened(run)
    decreases run
  {
    if run != [] {
      NumbersCount(Next(s, run[0]), run[1..]);
    }
  }

  /** The `n`-th connection of a run is number `n`, whatever is closed or torn down in between. */
  lemma ConnectionsAreNumbered(fileToken: Token, run: seq<Step>)
    requires Legal(Initial(fileToken), run)
    ensures After(Initial(fileToken), run).nextConn == Opened(run)
    ensures Opened(run) + 1 in OnConnect(After(Initial(fileToken), run)).conns
  {
    NumbersCount(Initial(fileToken), run);
  }

  /** A new connection has a number of its own and no rights; a torn down one leaves with its request, and nothing else. */
  lemma ConnectionsComeAndGo(s: State, conn: ConnId)
    requires Inv(s)
    ensures var n := s.nextConn + 1;
      n !in s.conns && n in OnConnect(s).conns && OnConnect(s).conns[n] == Fresh && OnConnect(s).conns - {n} == s.conns
    ensures var next := OnTeardown(s, conn);
      && next.conns == s.conns - {conn} && next.closing == (if conn in s.conns then s.closing - {conn} else s.closing)
      && (forall r :: r in next.pending ==> r in s.pending && next.pending[r] == s.pending[r] && s.pending[r].conn != conn)
      && (forall r :: r in s.pending && r !in next.pending ==> conn in s.conns && s.conns[conn] == Pending(r))
      && next.enrolled == s.enrolled && next.enrolledTokens == s.enrolledTokens && next.spawnTokens == s.spawnTokens
  {
    assert s.nextConn + 1 !in s.conns;
    assert OnConnect(s).conns - {s.nextConn + 1} == s.conns;
  }
}
