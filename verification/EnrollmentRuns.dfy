/**
 Every interleaving of the registry's handlers (core/src/conn.rs): exclusive roles,
 the approval queue, the token index, and where the approval scope comes from.
 */
module EnrollmentRuns {
  import opened Wrappers
  import opened Enrollment

  datatype Step =
    | Connect
    | HelloFrom(conn: ConnId, h: Hello, request: RequestId, component: ComponentId)
    | Approve(caller: ConnId, request: RequestId, scopes: seq<Scope>, token: Token, component: ComponentId)
    | Deny(caller: ConnId, request: RequestId)
    | Revoke(caller: ConnId, component: ComponentId)
    | Teardown(conn: ConnId)
    | MintSpawn(token: Token, grant: Grant)
    | RevokeSpawn(token: Token)

  /** A handler runs for a live connection, and what it draws at random is new. */
  predicate Enabled(s: State, step: Step) {
    match step
    case HelloFrom(conn, _, request, _) => conn in s.conns && request !in s.pending
    case Approve(caller, _, _, token, component) =>
      caller in s.conns && NewToken(s, token) && component !in s.enrolled
    case Deny(caller, _) => caller in s.conns
    case Revoke(caller, _) => caller in s.conns
    case MintSpawn(token, _) => NewToken(s, token)
    case _ => true
  }

  predicate NewToken(s: State, token: Token) {
    token != s.fileToken && token !in s.spawnTokens && token !in s.enrolledTokens && token !in s.admitted
  }

  function Next(s: State, step: Step): State
    requires Enabled(s, step)
  {
    match step
    case Connect => OnConnect(s)
    case HelloFrom(conn, h, request, component) => OnHello(s, conn, h, request, component).0
    case Approve(caller, request, scopes, token, component) => OnApprove(s, caller, request, scopes, token, component).0
    case Deny(caller, request) => OnDeny(s, caller, request).0
    case Revoke(caller, component) => OnRevoke(s, caller, component).0
    case Teardown(conn) => OnTeardown(s, conn)
    case MintSpawn(token, grant) => OnMintSpawn(s, token, grant)
    case RevokeSpawn(token) => OnRevokeSpawn(s, token)
  }

  // ----- What every step keeps ------------------------------------------------------------

  /** At most one active holder of each exclusive role. */
  predicate RolesExclusive(s: State) {
    forall a, b :: a in s.conns && b in s.conns && SameExclusiveRole(s.conns[a], s.conns[b]) ==> a == b
  }

  predicate SameExclusiveRole(p: Phase, q: Phase) {
    p.Active? && q.Active? && p.role == q.role && IsExclusive(p.role)
  }

  /** A queued request belongs to a live connection that still waits for it. */
  predicate QueueLive(s: State) {
    forall r :: r in s.pending ==> s.pending[r].conn in s.conns && s.conns[s.pending[r].conn] == Pending(r)
  }

  /** The token index and the enrolled table are inverse. */
  predicate TokensInverse(s: State) {
    && (forall t :: t in s.enrolledTokens ==>
          s.enrolledTokens[t] in s.enrolled && s.enrolled[s.enrolledTokens[t]].token == t)
    && (forall c :: c in s.enrolled ==>
          s.enrolled[c].token in s.enrolledTokens && s.enrolledTokens[s.enrolled[c].token] == c)
  }

  /** An active connection has no more than what let it in, which is never an approval for the approval scope. */
  predicate Entitled(p: Phase) {
    p.Active? ==>
      match p.via
      case ByFile => true
      case BySpawn(_, grant) => p.role == grant.role && Within(p.scopes, grant.scopes)
      case ByEnrollment(scopes, role) => p.role == role && Within(p.scopes, scopes) && ComponentsApprove !in scopes
  }

  predicate AllEntitled(s: State) {
    && (forall conn :: conn in s.conns ==> Entitled(s.conns[conn]))
    && (forall c :: c in s.enrolled ==> ComponentsApprove !in s.enrolled[c].scopes)
  }

  /** The families of tokens are apart, and a spawn token admits one connection at most. */
  predicate TokensApart(s: State) {
    && (forall t :: t in s.spawnTokens ==> t != s.fileToken && t !in s.enrolledTokens && t !in s.admitted)
    && s.fileToken !in s.enrolledTokens
    && (forall i, j :: 0 <= i < j < |s.admitted| ==> s.admitted[i] != s.admitted[j])
  }

  /** Two connections were never let in by one spawn token. */
  predicate SpawnOnce(s: State) {
    && (forall c :: c in s.conns && s.conns[c].Active? && s.conns[c].via.BySpawn? ==> s.conns[c].via.token in s.admitted)
    && (forall a, b :: a in s.conns && b in s.conns && SameSpawn(s.conns[a], s.conns[b]) ==> a == b)
  }

  predicate SameSpawn(p: Phase, q: Phase) {
    p.Active? && q.Active? && p.via.BySpawn? && q.via.BySpawn? && p.via.token == q.via.token
  }

  predicate ConnsBelow(s: State) {
    forall conn :: conn in s.conns ==> conn <= s.nextConn
  }

  predicate Inv(s: State) {
    RolesExclusive(s) && QueueLive(s) && TokensInverse(s) && AllEntitled(s) && TokensApart(s) && SpawnOnce(s) && ConnsBelow(s)
  }

  /** A connection becomes active in a role that is free. */
  lemma ActivationKeepsRoles(s: State, next: State, conn: ConnId, p: Phase)
    requires RolesExclusive(s) && p.Active? && !ExclusiveRoleTaken(s, p.role) && next.conns == s.conns[conn := p]
    ensures RolesExclusive(next)
  {
  }

  lemma QueueingKeepsInv(s: State, conn: ConnId, p: PendingRequest, request: RequestId)
    requires Inv(s) && conn in s.conns && s.conns[conn].Fresh? && request !in s.pending && p.conn == conn
    ensures Inv(s.(pending := s.pending[request := p], conns := s.conns[conn := Pending(request)]))
  {
  }

  /** An accepted hello with a token. */
  predicate Accepts(s: State, conn: ConnId, h: Hello, token: Token, drawn: ComponentId, id: ComponentId, via: Via) {
    && conn in s.conns && s.conns[conn].Fresh? && !ExclusiveRoleTaken(s, h.role)
    && Recognize(s, h, token, drawn) == Ok((id, via))
  }

  lemma AdmitKeepsTables(s: State, conn: ConnId, h: Hello, token: Token, drawn: ComponentId, id: ComponentId, via: Via)
    requires Inv(s) && Accepts(s, conn, h, token, drawn, id, via)
    ensures TokensInverse(Admit(s, conn, h, token, id, via)) && QueueLive(Admit(s, conn, h, token, id, via))
  {
  }

  lemma AdmitKeepsTokens(s: State, conn: ConnId, h: Hello, token: Token, drawn: ComponentId, id: ComponentId, via: Via)
    requires Inv(s) && Accepts(s, conn, h, token, drawn, id, via)
    ensures TokensApart(Admit(s, conn, h, token, id, via)) && SpawnOnce(Admit(s, conn, h, token, id, via))
  {
  }

  lemma AdmitKeepsEntitled(s: State, conn: ConnId, h: Hello, token: Token, drawn: ComponentId, id: ComponentId, via: Via)
    requires Inv(s) && Accepts(s, conn, h, token, drawn, id, via)
    ensures AllEntitled(Admit(s, conn, h, token, id, via)) && ConnsBelow(Admit(s, conn, h, token, id, via))
  {
    if via.ByEnrollment? {
      assert ComponentsApprove !in s.enrolled[s.enrolledTokens[token]].scopes;
    }
  }

  lemma AdmitKeepsInv(s: State, conn: ConnId, h: Hello, token: Token, drawn: ComponentId, id: ComponentId, via: Via)
    requires Inv(s) && Accepts(s, conn, h, token, drawn, id, via)
    ensures Inv(Admit(s, conn, h, token, id, via))
  {
    var next := Admit(s, conn, h, token, id, via);
    AdmitKeepsTables(s, conn, h, token, drawn, id, via);
    AdmitKeepsTokens(s, conn, h, token, drawn, id, via);
    AdmitKeepsEntitled(s, conn, h, token, drawn, id, via);
    ActivationKeepsRoles(s, next, conn, next.conns[conn]);
  }

  /** The three ways a hello can end. */
  lemma HelloIs(s: State, conn: ConnId, h: Hello, request: RequestId, drawn: ComponentId)
    requires conn in s.conns
    ensures var (next, r) := OnHello(s, conn, h, request, drawn);
      && (r.Err? ==> next == s)
      && (r == Ok(Queued) ==>
          s.conns[conn].Fresh? && next == s.(pending := s.pending[request := PendingRequest(conn, h.name, h.role, h.scopes)],
                        conns := s.conns[conn := Pending(request)]))
      && (r.Ok? && r.value.Granted? ==>
          h.token.Some? && Recognize(s, h, h.token.value, drawn).Ok?
          && var (id, via) := Recognize(s, h, h.token.value, drawn).value;
          Accepts(s, conn, h, h.token.value, drawn, id, via) && next == Admit(s, conn, h, h.token.value, id, via))
  {
  }

  lemma HelloKeepsInv(s: State, conn: ConnId, h: Hello, request: RequestId, component: ComponentId)
    requires Inv(s) && conn in s.conns && request !in s.pending
    ensures Inv(OnHello(s, conn, h, request, component).0)
  {
    HelloIs(s, conn, h, request, component);
    var (next, r) := OnHello(s, conn, h, request, component);
    match r {
      case Err(_) =>
      case Ok(Queued) => QueueingKeepsInv(s, conn, PendingRequest(conn, h.name, h.role, h.scopes), request);
      case Ok(Granted(_)) =>
        var (id, via) := Recognize(s, h, h.token.value, component).value;
        AdmitKeepsInv(s, conn, h, h.token.value, component, id, via);
    }
  }

  /** The request `request` of `r` is granted `scopes`, as `component` with `token`. */
  function Activated(s: State, request: RequestId, r: PendingRequest, scopes: seq<Scope>, token: Token, component: ComponentId)
    : State
  {
    s.(pending := s.pending - {request},
       enrolledTokens := s.enrolledTokens[token := component],
       enrolled := s.enrolled[component := Enrolled(token, r.name, r.role, scopes)],
       conns := s.conns[r.conn := Active(component, r.name, r.role, scopes, ByEnrollment(scopes, r.role))])
  }

  predicate Approvable(s: State, request: RequestId, scopes: seq<Scope>, token: Token, component: ComponentId) {
    && request in s.pending && ComponentsApprove !in scopes && !ExclusiveRoleTaken(s, s.pending[request].role)
    && NewToken(s, token) && component !in s.enrolled
  }

  lemma ActivatedTables(s: State, request: RequestId, scopes: seq<Scope>, token: Token, component: ComponentId)
    requires QueueLive(s) && TokensInverse(s) && Approvable(s, request, scopes, token, component)
    ensures QueueLive(Activated(s, request, s.pending[request], scopes, token, component))
    ensures TokensInverse(Activated(s, request, s.pending[request], scopes, token, component))
  {
  }

  lemma ActivatedRights(s: State, request: RequestId, scopes: seq<Scope>, token: Token, component: ComponentId)
    requires QueueLive(s) && AllEntitled(s) && TokensApart(s) && SpawnOnce(s) && ConnsBelow(s)
    requires Approvable(s, request, scopes, token, component)
    ensures var next := Activated(s, request, s.pending[request], scopes, token, component);
      AllEntitled(next) && TokensApart(next) && SpawnOnce(next) && ConnsBelow(next)
  {
  }

  lemma ApproveKeepsInv(
      s: State, caller: ConnId, request: RequestId, scopes: seq<Scope>, token: Token, component: ComponentId)
    requires Inv(s) && Enabled(s, Approve(caller, request, scopes, token, component))
    ensures Inv(OnApprove(s, caller, request, scopes, token, component).0)
  {
    if OnApprove(s, caller, request, scopes, token, component).1.Ok? {
      var r := s.pending[request];
      var next := Activated(s, request, r, scopes, token, component);
      ActivatedTables(s, request, scopes, token, component);
      ActivatedRights(s, request, scopes, token, component);
      ActivationKeepsRoles(s, next, r.conn, next.conns[r.conn]);
    }
  }

  lemma DenyKeepsInv(s: State, caller: ConnId, request: RequestId)
    requires Inv(s) && caller in s.conns
    ensures Inv(OnDeny(s, caller, request).0)
  {
  }

  lemma RevokedTables(s: State, component: ComponentId)
    requires TokensInverse(s) && component in s.enrolled
    ensures TokensInverse(s.(enrolledTokens := s.enrolledTokens - {s.enrolled[component].token},
                             enrolled := s.enrolled - {component}))
  {
  }

  lemma RevokeKeepsInv(s: State, caller: ConnId, component: ComponentId)
    requires Inv(s) && caller in s.conns
    ensures Inv(OnRevoke(s, caller, component).0)
  {
    var next := OnRevoke(s, caller, component).0;
    assert next.conns == s.conns && next.pending == s.pending;
    if component in s.enrolled {
      RevokedTables(s, component);
    }
    assert TokensInverse(next);
    assert RolesExclusive(next) && QueueLive(next) && AllEntitled(next) && TokensApart(next) && SpawnOnce(next);
  }

  lemma TeardownKeepsConns(s: State, conn: ConnId)
    requires RolesExclusive(s) && QueueLive(s) && SpawnOnce(s) && ConnsBelow(s)
    ensures var next := OnTeardown(s, conn);
      RolesExclusive(next) && QueueLive(next) && SpawnOnce(next) && ConnsBelow(next)
  {
  }

  lemma TeardownKeepsInv(s: State, conn: ConnId)
    requires Inv(s)
    ensures Inv(OnTeardown(s, conn))
  {
    TeardownKeepsConns(s, conn);
    assert TokensInverse(OnTeardown(s, conn)) && AllEntitled(OnTeardown(s, conn)) && TokensApart(OnTeardown(s, conn));
  }

  lemma ConnectKeepsConns(s: State)
    requires RolesExclusive(s) && QueueLive(s) && SpawnOnce(s) && ConnsBelow(s)
    ensures RolesExclusive(OnConnect(s)) && QueueLive(OnConnect(s)) && SpawnOnce(OnConnect(s)) && ConnsBelow(OnConnect(s))
  {
  }

  lemma ConnectKeepsInv(s: State)
    requires Inv(s)
    ensures Inv(OnConnect(s))
  {
    ConnectKeepsConns(s);
    assert TokensInverse(OnConnect(s)) && AllEntitled(OnConnect(s)) && TokensApart(OnConnect(s));
  }

  lemma StepKeepsInv(s: State, step: Step)
    requires Inv(s) && Enabled(s, step)
    ensures Inv(Next(s, step))
  {
    match step {
      case Connect => ConnectKeepsInv(s);
      case HelloFrom(conn, h, request, component) => HelloKeepsInv(s, conn, h, request, component);
      case Approve(caller, request, scopes, token, component) =>
        ApproveKeepsInv(s, caller, request, scopes, token, component);
      case Deny(caller, request) => DenyKeepsInv(s, caller, request);
      case Revoke(caller, component) => RevokeKeepsInv(s, caller, component);
      case Teardown(conn) => TeardownKeepsInv(s, conn);
      case MintSpawn(token, grant) => SpawnTokensKeepInv(s, OnMintSpawn(s, token, grant));
      case RevokeSpawn(token) => SpawnTokensKeepInv(s, OnRevokeSpawn(s, token));
    }
  }

  lemma SpawnTokensKeepInv(s: State, next: State)
    requires Inv(s) && next == s.(spawnTokens := next.spawnTokens) && TokensApart(next)
    ensures Inv(next)
  {
    assert RolesExclusive(next) && QueueLive(next) && TokensInverse(next);
    assert AllEntitled(next) && SpawnOnce(next) && ConnsBelow(next);
  }

  predicate Legal(s: State, run: seq<Step>)
    decreases run
  {
    run == [] || (Enabled(s, run[0]) && Legal(Next(s, run[0]), run[1..]))
  }

  function After(s: State, run: seq<Step>): State
    requires Legal(s, run)
    decreases run
  {
    if run == [] then s else After(Next(s, run[0]), run[1..])
  }

  lemma {:induction false} RunKeepsInv(s: State, run: seq<Step>)
    requires Inv(s) && Legal(s, run)
    ensures Inv(After(s, run))
    decreases run
  {
    if run != [] {
      StepKeepsInv(s, run[0]);
      RunKeepsInv(Next(s, run[0]), run[1..]);
    }
  }

  /** The registry is consistent in every reachable state. */
  lemma RegistryIsConsistent(fileToken: Token, run: seq<Step>, s: State)
    requires Legal(Initial(fileToken), run) && s == After(Initial(fileToken), run)
    ensures RolesExclusive(s) && QueueLive(s) && TokensInverse(s) && SpawnOnce(s)
    ensures forall i, j :: 0 <= i < j < |s.admitted| ==> s.admitted[i] != s.admitted[j]
  {
    RunKeepsInv(Initial(fileToken), run);
  }

  /** Whoever may approve was let in by the file token, or by a spawn grant that says so. */
  lemma ApprovalScopeHasARoot(fileToken: Token, run: seq<Step>, s: State, conn: ConnId)
    requires Legal(Initial(fileToken), run) && s == After(Initial(fileToken), run)
    requires conn in s.conns && RequireApprover(s, conn) == None
    ensures var via := s.conns[conn].via;
      via.ByFile? || (via.BySpawn? && ComponentsApprove in via.grant.scopes && via.grant.role == s.conns[conn].role)
  {
    RunKeepsInv(Initial(fileToken), run);
    assert Entitled(s.conns[conn]);
  }

  // ----- A token over the rest of a run ------------------------------------------------------

  predicate Unknown(s: State, token: Token) {
    token != s.fileToken && token !in s.spawnTokens && token !in s.enrolledTokens
  }

  /** Draws `token` at random, for an approval or a spawn grant. */
  predicate Draws(step: Step, token: Token) {
    (step.Approve? && step.token == token) || (step.MintSpawn? && step.token == token)
  }

  lemma StaysUnknown(s: State, step: Step, token: Token)
    requires Unknown(s, token) && Enabled(s, step) && !Draws(step, token)
    ensures Unknown(Next(s, step), token)
  {
    if step.HelloFrom? {
      HelloIs(s, step.conn, step.h, step.request, step.component);
    }
  }

  lemma {:induction false} RunStaysUnknown(s: State, run: seq<Step>, token: Token)
    requires Unknown(s, token) && Legal(s, run) && (forall step :: step in run ==> !Draws(step, token))
    ensures Unknown(After(s, run), token)
    decreases run
  {
    if run != [] {
      assert !Draws(run[0], token);
      StaysUnknown(s, run[0], token);
      RunStaysUnknown(Next(s, run[0]), run[1..], token);
    }
  }

  /** `conn` is being closed, or gone for good: its number is never given again. */
  predicate OnItsWayOut(s: State, conn: ConnId) {
    conn <= s.nextConn && (conn in s.conns ==> conn in s.closing)
  }

  lemma StaysOnItsWay(s: State, step: Step, conn: ConnId)
    requires OnItsWayOut(s, conn) && QueueLive(s) && Enabled(s, step)
    ensures OnItsWayOut(Next(s, step), conn)
  {
    if step.HelloFrom? {
      HelloIs(s, step.conn, step.h, step.request, step.component);
    }
  }

  lemma {:induction false} RunStaysOnItsWay(s: State, run: seq<Step>, conn: ConnId)
    requires Inv(s) && OnItsWayOut(s, conn) && Legal(s, run)
    ensures OnItsWayOut(After(s, run), conn)
    decreases run
  {
    if run != [] {
      StepKeepsInv(s, run[0]);
      StaysOnItsWay(s, run[0], conn);
      RunStaysOnItsWay(Next(s, run[0]), run[1..], conn);
    }
  }

  /**
   In every run behind a revocation, the component's token is refused, unless it is drawn
   again, and the connections the component had are closing until they are gone.
   */
  lemma RevokedTokenStaysRefused(
      s: State, caller: ConnId, component: ComponentId, run: seq<Step>, h: Hello, drawn: ComponentId)
    requires Inv(s) && caller in s.conns && component in s.enrolled && OnRevoke(s, caller, component).1.Ok?
    requires Legal(OnRevoke(s, caller, component).0, run)
    requires forall step :: step in run ==> !Draws(step, s.enrolled[component].token)
    ensures Recognize(After(OnRevoke(s, caller, component).0, run), h, s.enrolled[component].token, drawn)
      == Err(InvalidToken)
    ensures forall conn :: conn in Connected(s, component) ==>
      OnItsWayOut(After(OnRevoke(s, caller, component).0, run), conn)
  {
    var revoked := OnRevoke(s, caller, component).0;
    RunStaysUnknown(revoked, run, s.enrolled[component].token);
    RevokeKeepsInv(s, caller, component);
    forall conn | conn in Connected(s, component) ensures OnItsWayOut(After(revoked, run), conn) {
      RunStaysOnItsWay(revoked, run, conn);
    }
  }

  /** `token` speaks for `component`, which may be `role` and have `scopes`. */
  predicate SpeaksFor(s: State, token: Token, component: ComponentId, role: Role, scopes: seq<Scope>) {
    && token in s.enrolledTokens && s.enrolledTokens[token] == component && component in s.enrolled
    && s.enrolled[component].role == role && s.enrolled[component].scopes == scopes
  }

  lemma StillSpeaks(s: State, step: Step, token: Token, component: ComponentId, role: Role, scopes: seq<Scope>)
    requires Inv(s) && SpeaksFor(s, token, component, role, scopes) && Enabled(s, step)
    requires !(step.Revoke? && step.component == component)
    ensures SpeaksFor(Next(s, step), token, component, role, scopes)
  {
    if step.HelloFrom? {
      HelloIs(s, step.conn, step.h, step.request, step.component);
    }
  }

  lemma {:induction false} RunStillSpeaks(
      s: State, run: seq<Step>, token: Token, component: ComponentId, role: Role, scopes: seq<Scope>)
    requires Inv(s) && SpeaksFor(s, token, component, role, scopes) && Legal(s, run)
    requires forall step :: step in run ==> !(step.Revoke? && step.component == component)
    ensures Inv(After(s, run)) && SpeaksFor(After(s, run), token, component, role, scopes)
    decreases run
  {
    if run != [] {
      assert run[0] in run;
      StepKeepsInv(s, run[0]);
      StillSpeaks(s, run[0], token, component, role, scopes);
      RunStillSpeaks(Next(s, run[0]), run[1..], token, component, role, scopes);
    }
  }

  /**
   In every run behind an approval, until the component is revoked, its token is good for
   exactly the role that was asked for and the scopes that were granted.
   */
  lemma ApprovedTokenIsGoodIff(
      s: State, caller: ConnId, request: RequestId, scopes: seq<Scope>, token: Token, component: ComponentId,
      run: seq<Step>, h: Hello, drawn: ComponentId)
    requires Inv(s) && Enabled(s, Approve(caller, request, scopes, token, component))
    requires OnApprove(s, caller, request, scopes, token, component).1.Ok?
    requires Legal(OnApprove(s, caller, request, scopes, token, component).0, run)
    requires forall step :: step in run ==> !(step.Revoke? && step.component == component)
    ensures request in s.pending
    ensures Recognize(After(OnApprove(s, caller, request, scopes, token, component).0, run), h, token, drawn).Ok?
      <==> h.role == s.pending[request].role && Within(h.scopes, scopes)
  {
    var approved := OnApprove(s, caller, request, scopes, token, component).0;
    StepKeepsInv(s, Approve(caller, request, scopes, token, component));
    RunStillSpeaks(approved, run, token, component, s.pending[request].role, scopes);
  }

  lemma StaysActive(s: State, step: Step, conn: ConnId)
    requires Inv(s) && conn in s.conns && s.conns[conn].Active? && Enabled(s, step) && step != Teardown(conn)
    ensures conn in Next(s, step).conns && Next(s, step).conns[conn] == s.conns[conn]
  {
    if step.HelloFrom? {
      HelloIs(s, step.conn, step.h, step.request, step.component);
    }
  }

  lemma {:induction false} RunStaysActive(s: State, run: seq<Step>, conn: ConnId)
    requires Inv(s) && conn in s.conns && s.conns[conn].Active? && Legal(s, run) && Teardown(conn) !in run
    ensures conn in After(s, run).conns && After(s, run).conns[conn] == s.conns[conn]
    decreases run
  {
    if run != [] {
      assert run[0] in run;
      StepKeepsInv(s, run[0]);
      StaysActive(s, run[0], conn);
      RunStaysActive(Next(s, run[0]), run[1..], conn);
    }
  }

  /**
   An approval activates the connection that asked and no other, within what it asked for,
   and in every later run that connection is active as approved until it is torn down.
   */
  lemma ApprovedConnectionStaysActive(
      s: State, caller: ConnId, request: RequestId, scopes: seq<Scope>, token: Token, component: ComponentId,
      run: seq<Step>, conn: ConnId)
    requires Inv(s) && Enabled(s, Approve(caller, request, scopes, token, component))
    requires OnApprove(s, caller, request, scopes, token, component).1.Ok? && conn == s.pending[request].conn
    requires Legal(OnApprove(s, caller, request, scopes, token, component).0, run) && Teardown(conn) !in run
    ensures conn in s.conns && s.conns[conn] == Pending(request) && Within(scopes, s.pending[request].scopes)
    ensures OnApprove(s, caller, request, scopes, token, component).0.conns - {conn} == s.conns - {conn}
    ensures var end := After(OnApprove(s, caller, request, scopes, token, component).0, run);
      && conn in end.conns && var r := s.pending[request];
      end.conns[conn] == Active(component, r.name, r.role, scopes, ByEnrollment(scopes, r.role))
  {
    StepKeepsInv(s, Approve(caller, request, scopes, token, component));
    RunStaysActive(OnApprove(s, caller, request, scopes, token, component).0, run, conn);
  }
}
