/**
 The enrollment registry (core/src/conn.rs `hello`, `components_approve`,
 `components_deny`, `components_revoke`, `teardown`; core/src/state.rs `Registry`;
 core/src/lib.rs for the spawn tokens).

 Every handler works under the registry's lock, so a run interleaves whole handlers of
 any number of connections. Tokens and identifiers are numbers drawn fresh by the code.
 */
module Enrollment {
  import opened Wrappers

  type ConnId = nat
  type Token = nat
  type ComponentId = nat
  type RequestId = nat

  datatype Role =
    | Gui | ClipboardBackend | InputBackend | MenuBackend | SyncBackend | Tray | Custom | UnknownRole(name: nat)

  /** `components.approve`, the other scopes of the vocabulary, and anything else a peer may write. */
  datatype Scope = ComponentsApprove | KnownScope(n: nat) | UnknownScope(n: nat)

  datatype Grant = Grant(role: Role, scopes: seq<Scope>)

  datatype Enrolled = Enrolled(token: Token, name: string, role: Role, scopes: seq<Scope>)

  datatype PendingRequest = PendingRequest(conn: ConnId, name: string, role: Role, scopes: seq<Scope>)

  /** What let a connection in. The code keeps only the outcome; this is history. */
  datatype Via = ByFile | BySpawn(token: Token, grant: Grant) | ByEnrollment(scopes: seq<Scope>, role: Role)

  datatype Phase =
    | Fresh
    | Pending(request: RequestId)
    | Active(component: ComponentId, name: string, role: Role, scopes: seq<Scope>, via: Via)

  datatype Error =
    | InvalidParams | PendingApproval | InvalidRequest | NotEnrolled | InvalidToken | ScopeDenied | RoleConflict

  /** `spent` and `admitted` are history: spawn tokens consumed, and every admission by one. */
  datatype State = State(
    nextConn: ConnId, fileToken: Token, spawnTokens: map<Token, Grant>,
    enrolledTokens: map<Token, ComponentId>, enrolled: map<ComponentId, Enrolled>,
    pending: map<RequestId, PendingRequest>, conns: map<ConnId, Phase>,
    closing: set<ConnId>, admitted: seq<Token>)

  function Initial(fileToken: Token): State {
    State(0, fileToken, map[], map[], map[], map[], map[], {}, [])
  }

  predicate IsExclusive(role: Role) {
    role == ClipboardBackend || role == InputBackend || role == SyncBackend
  }

  predicate RoleTaken(s: State, role: Role) {
    exists conn :: conn in s.conns && s.conns[conn].Active? && s.conns[conn].role == role
  }

  predicate ExclusiveRoleTaken(s: State, role: Role) {
    IsExclusive(role) && RoleTaken(s, role)
  }

  predicate Within(scopes: seq<Scope>, granted: seq<Scope>) {
    forall scope :: scope in scopes ==> scope in granted
  }

  predicate AllKnown(scopes: seq<Scope>) {
    forall scope :: scope in scopes ==> !scope.UnknownScope?
  }

  // ----- hello -------------------------------------------------------------------------

  datatype Hello = Hello(name: string, role: Role, scopes: seq<Scope>, token: Option<Token>)

  datatype Welcome = Queued | Granted(scopes: seq<Scope>)

  /** Which component a token speaks for, and what admitted it. */
  function Recognize(s: State, h: Hello, token: Token, drawn: ComponentId): Result<(ComponentId, Via), Error> {
    if token == s.fileToken then Ok((drawn, ByFile))
    else if token in s.spawnTokens then
      var grant := s.spawnTokens[token];
      if grant.role != h.role then Err(InvalidToken)
      else if !Within(h.scopes, grant.scopes) then Err(ScopeDenied)
      else Ok((drawn, BySpawn(token, grant)))
    else if token in s.enrolledTokens && s.enrolledTokens[token] in s.enrolled then
      var e := s.enrolled[s.enrolledTokens[token]];
      if e.role != h.role then Err(InvalidToken)
      else if !Within(h.scopes, e.scopes) then Err(ScopeDenied)
      else Ok((s.enrolledTokens[token], ByEnrollment(e.scopes, e.role)))
    else Err(InvalidToken)
  }

  function Admit(s: State, conn: ConnId, h: Hello, token: Token, component: ComponentId, via: Via): State {
    var renamed :=
      if token in s.enrolledTokens && s.enrolledTokens[token] in s.enrolled then
        s.enrolled[s.enrolledTokens[token] := s.enrolled[s.enrolledTokens[token]].(name := h.name)]
      else s.enrolled;
    s.(spawnTokens := s.spawnTokens - {token}, enrolled := renamed,
       conns := s.conns[conn := Active(component, h.name, h.role, h.scopes, via)],
       admitted := if via.BySpawn? then s.admitted + [token] else s.admitted)
  }

  /** `request` and `component` are the identifiers this hello would draw. */
  function OnHello(s: State, conn: ConnId, h: Hello, request: RequestId, component: ComponentId)
    : (State, Result<Welcome, Error>)
    requires conn in s.conns
  {
    if h.role.UnknownRole? || !AllKnown(h.scopes) then (s, Err(InvalidParams))
    else if s.conns[conn].Pending? then (s, Err(PendingApproval))
    else if s.conns[conn].Active? then (s, Err(InvalidRequest))
    else if h.token.None? then
      (s.(pending := s.pending[request := PendingRequest(conn, h.name, h.role, h.scopes)],
          conns := s.conns[conn := Pending(request)]), Ok(Queued))
    else
      match Recognize(s, h, h.token.value, component)
      case Err(e) => (s, Err(e))
      case Ok((id, via)) =>
        if ExclusiveRoleTaken(s, h.role) then (s, Err(RoleConflict))
        else (Admit(s, conn, h, h.token.value, id, via), Ok(Granted(h.scopes)))
  }

  // ----- The components.approve holders ----------------------------------------------------

  /** `require_scope("components.approve")`, phase before scope. */
  function RequireApprover(s: State, caller: ConnId): Option<Error>
    requires caller in s.conns
  {
    match s.conns[caller]
    case Fresh => Some(NotEnrolled)
    case Pending(_) => Some(PendingApproval)
    case Active(_, _, _, scopes, _) => if ComponentsApprove in scopes then None else Some(ScopeDenied)
  }

  function OnApprove(
      s: State, caller: ConnId, request: RequestId, scopes: seq<Scope>, token: Token, component: ComponentId)
    : (State, Result<(), Error>)
    requires caller in s.conns
  {
    var denied := RequireApprover(s, caller);
    if denied.Some? then (s, Err(denied.value))
    else if ComponentsApprove in scopes || request !in s.pending then (s, Err(InvalidParams))
    else
      var r := s.pending[request];
      if !Within(scopes, r.scopes) then (s, Err(InvalidParams))
      else if ExclusiveRoleTaken(s, r.role) then (s, Err(RoleConflict))
      else
        (s.(pending := s.pending - {request},
            enrolledTokens := s.enrolledTokens[token := component],
            enrolled := s.enrolled[component := Enrolled(token, r.name, r.role, scopes)],
            conns := s.conns[r.conn := Active(component, r.name, r.role, scopes, ByEnrollment(scopes, r.role))]),
         Ok(()))
  }

  function OnDeny(s: State, caller: ConnId, request: RequestId): (State, Result<(), Error>)
    requires caller in s.conns
  {
    var denied := RequireApprover(s, caller);
    if denied.Some? then (s, Err(denied.value))
    else if request !in s.pending then (s, Err(InvalidParams))
    else
      (s.(pending := s.pending - {request}, closing := s.closing + {s.pending[request].conn}), Ok(()))
  }

  function Connected(s: State, component: ComponentId): set<ConnId> {
    set conn | conn in s.conns && s.conns[conn].Active? && s.conns[conn].component == component
  }

  /** The caller's own connection is closed too, after its reply. */
  function OnRevoke(s: State, caller: ConnId, component: ComponentId): (State, Result<(), Error>)
    requires caller in s.conns
  {
    var denied := RequireApprover(s, caller);
    if denied.Some? then (s, Err(denied.value))
    else
      var next :=
        if component in s.enrolled then
          s.(enrolledTokens := s.enrolledTokens - {s.enrolled[component].token}, enrolled := s.enrolled - {component})
        else s;
      (next.(closing := next.closing + Connected(s, component)),
       if component in s.enrolled || Connected(s, component) != {} then Ok(()) else Err(InvalidParams))
  }

  // ----- Connections and spawn tokens -----------------------------------------------------------

  function OnConnect(s: State): State {
    s.(nextConn := s.nextConn + 1, conns := s.conns[s.nextConn + 1 := Fresh])
  }

  function OnTeardown(s: State, conn: ConnId): State {
    if conn !in s.conns then s
    else
      s.(conns := s.conns - {conn}, closing := s.closing - {conn},
         pending := if s.conns[conn].Pending? then s.pending - {s.conns[conn].request} else s.pending)
  }

  function OnMintSpawn(s: State, token: Token, grant: Grant): State {
    s.(spawnTokens := s.spawnTokens[token := grant])
  }

  function OnRevokeSpawn(s: State, token: Token): State {
    s.(spawnTokens := s.spawnTokens - {token})
  }

  class Registry {
    var nextConnId: ConnId
    const fileToken: Token
    var spawnTokens: map<Token, Grant>
    var enrolledTokens: map<Token, ComponentId>
    var enrolled: map<ComponentId, Enrolled>
    var pending: map<RequestId, PendingRequest>
    var conns: map<ConnId, Phase>
    var closing: set<ConnId>
    ghost var admitted: seq<Token>

    ghost function View(): State
      reads this
    {
      State(nextConnId, fileToken, spawnTokens, enrolledTokens, enrolled, pending, conns, closing, admitted)
    }

    constructor (fileToken: Token)
      ensures View() == Initial(fileToken)
    {
      this.fileToken := fileToken;
      nextConnId, spawnTokens, enrolledTokens, enrolled := 0, map[], map[], map[];
      pending, conns, closing, admitted := map[], map[], {}, [];
    }

    method RoleIsTaken(role: Role) returns (taken: bool)
      ensures taken == ExclusiveRoleTaken(View(), role)
    {
      taken := false;
      if IsExclusive(role) {
        taken := exists conn :: conn in conns && conns[conn].Active? && conns[conn].role == role;
      }
    }

    method SayHello(conn: ConnId, h: Hello, request: RequestId, component: ComponentId)
      returns (r: Result<Welcome, Error>)
      requires conn in conns
      modifies this
      ensures (View(), r) == OnHello(old(View()), conn, h, request, component)
    {
      if h.role.UnknownRole? || !AllKnown(h.scopes) {
        return Err(InvalidParams);
      }
      match conns[conn] {
        case Pending(_) => return Err(PendingApproval);
        case Active(_, _, _, _, _) => return Err(InvalidRequest);
        case Fresh =>
      }
      if h.token.None? {
        pending := pending[request := PendingRequest(conn, h.name, h.role, h.scopes)];
        conns := conns[conn := Pending(request)];
        return Ok(Queued);
      }
      var token := h.token.value;
      var id := component;
      var via := ByFile;
      if token == fileToken {
      } else if token in spawnTokens {
        var grant := spawnTokens[token];
        if grant.role != h.role {
          return Err(InvalidToken);
        }
        if !Within(h.scopes, grant.scopes) {
          return Err(ScopeDenied);
        }
        via := BySpawn(token, grant);
      } else if token in enrolledTokens && enrolledTokens[token] in enrolled {
        id := enrolledTokens[token];
        var e := enrolled[id];
        if e.role != h.role {
          return Err(InvalidToken);
        }
        if !Within(h.scopes, e.scopes) {
          return Err(ScopeDenied);
        }
        via := ByEnrollment(e.scopes, e.role);
      } else {
        return Err(InvalidToken);
      }
      var taken := RoleIsTaken(h.role);
      if taken {
        return Err(RoleConflict);
      }
      spawnTokens := spawnTokens - {token};
      if token in enrolledTokens && enrolledTokens[token] in enrolled {
        enrolled := enrolled[enrolledTokens[token] := enrolled[enrolledTokens[token]].(name := h.name)];
      }
      Activate(conn, id, h.name, h.role, h.scopes, via);
      admitted := if via.BySpawn? then admitted + [token] else admitted;
      return Ok(Granted(h.scopes));
    }

    method Activate(
        conn: ConnId, id: ComponentId, name: string, role: Role, scopes: seq<Scope>, via: Via)
      modifies this`conns
      ensures View() == old(View()).(conns := old(conns)[conn := Active(id, name, role, scopes, via)])
    {
      conns := conns[conn := Active(id, name, role, scopes, via)];
    }

    method ApproverError(caller: ConnId) returns (denied: Option<Error>)
      requires caller in conns
      ensures denied == RequireApprover(View(), caller)
    {
      match conns[caller] {
        case Fresh => denied := Some(NotEnrolled);
        case Pending(_) => denied := Some(PendingApproval);
        case Active(_, _, _, scopes, _) => denied := if ComponentsApprove in scopes then None else Some(ScopeDenied);
      }
    }

    method Approve(caller: ConnId, request: RequestId, scopes: seq<Scope>, token: Token, component: ComponentId)
      returns (r: Result<(), Error>)
      requires caller in conns
      modifies this
      ensures (View(), r) == OnApprove(old(View()), caller, request, scopes, token, component)
    {
      var denied := ApproverError(caller);
      if denied.Some? {
        return Err(denied.value);
      }
      if ComponentsApprove in scopes || request !in pending {
        return Err(InvalidParams);
      }
      var p := pending[request];
      if !Within(scopes, p.scopes) {
        return Err(InvalidParams);
      }
      var taken := RoleIsTaken(p.role);
      if taken {
        return Err(RoleConflict);
      }
      pending := pending - {request};
      enrolledTokens := enrolledTokens[token := component];
      enrolled := enrolled[component := Enrolled(token, p.name, p.role, scopes)];
      Activate(p.conn, component, p.name, p.role, scopes, ByEnrollment(scopes, p.role));
      return Ok(());
    }

    method Deny(caller: ConnId, request: RequestId) returns (r: Result<(), Error>)
      requires caller in conns
      modifies this
      ensures (View(), r) == OnDeny(old(View()), caller, request)
    {
      var denied := ApproverError(caller);
      if denied.Some? {
        return Err(denied.value);
      }
      if request !in pending {
        return Err(InvalidParams);
      }
      var conn := pending[request].conn;
      pending := pending - {request};
      closing := closing + {conn};
      return Ok(());
    }

    method Revoke(caller: ConnId, component: ComponentId) returns (r: Result<(), Error>)
      requires caller in conns
      modifies this
      ensures (View(), r) == OnRevoke(old(View()), caller, component)
    {
      var denied := ApproverError(caller);
      if denied.Some? {
        return Err(denied.value);
      }
      var known := false;
      if component in enrolled {
        enrolledTokens := enrolledTokens - {enrolled[component].token};
        enrolled := enrolled - {component};
        known := true;
      }
      var connected := set conn | conn in conns && conns[conn].Active? && conns[conn].component == component;
      if connected != {} {
        known := true;
      }
      closing := closing + connected;
      if !known {
        return Err(InvalidParams);
      }
      return Ok(());
    }

    method Connect() returns (conn: ConnId)
      modifies this`nextConnId, this`conns
      ensures View() == OnConnect(old(View())) && conn == nextConnId
    {
      nextConnId := nextConnId + 1;
      conn := nextConnId;
      conns := conns[conn := Fresh];
    }

    method Teardown(conn: ConnId)
      modifies this`conns, this`pending, this`closing
      ensures View() == OnTeardown(old(View()), conn)
    {
      if conn in conns {
        var phase := conns[conn];
        conns := conns - {conn};
        closing := closing - {conn};
        if phase.Pending? {
          pending := pending - {phase.request};
        }
      }
    }

    method MintSpawnToken(token: Token, grant: Grant)
      modifies this`spawnTokens
      ensures View() == OnMintSpawn(old(View()), token, grant)
    {
      spawnTokens := spawnTokens[token := grant];
    }

    method RevokeSpawnToken(token: Token)
      modifies this`spawnTokens
      ensures View() == OnRevokeSpawn(old(View()), token)
    {
      spawnTokens := spawnTokens - {token};
    }
  }
}
