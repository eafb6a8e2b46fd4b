/**
 One Core's table together with the sessions that read it and the latched reset
 wake that cuts revoked sessions (core/src/clipnet.rs `pipe_consumer`, `run_fill`;
 core/src/conn.rs `transactions_revoke`, `teardown`).

 Every step below is one section of the source between two awaits or two lock
 acquisitions, so a run is an arbitrary interleaving of removers and sessions. A
 remover takes its entry out under the lock and sends `notify_waiters` later: the
 wakes still to be sent are counted in `wakes`.
 */
module SessionWorld {
  import opened Wrappers
  import opened ClipboardTable

  type Sid = nat

  /**
   Where a session stands in its loop.
   - Begun: `begin_session` done, no waiter yet.
   - Armed: a fresh waiter is enabled, the liveness check is still to come.
   - Watching: checked live; parked on its waiter, or busy and back to it later.
   - Leaving: out of the loop; only `end_session` remains.
   */
  datatype Pc = Begun | Armed | Watching | Leaving

  /** `fired`: the enabled waiter has received a wake. */
  datatype Session = Session(tx: TxId, pc: Pc, fired: bool)

  datatype World = World(table: Table, sessions: map<Sid, Session>, wakes: nat)

  const START := World(EMPTY, map[], 0)

  datatype Op =
    | LocalCopy(tx: Tx, now: nat)
    | RemoteCopy(tx: Tx)
    | PublishOp(tx: Tx, spare: TxId)
    | AdoptOp(tx: Tx)
    | RevokeOp(id: TxId)
    | ConnGone(conn: ConnId)
    | EvictOp(id: TxId)
    | ResetAll

  datatype Step =
    | TableStep(op: Op)
    | SendWake             // the `notify_waiters` of one earlier removal
    | StrayWake            // a wake nobody in this Core owed
    | Open(sid: Sid, id: TxId)
    | Arm(sid: Sid)
    | Check(sid: Sid)
    | Rearm(sid: Sid)
    | Leave(sid: Sid)
    | Close(sid: Sid)

  function Apply(t: Table, op: Op): Table {
    match op
    case LocalCopy(tx, now) => AnnounceLocal(t, tx, now)
    case RemoteCopy(tx) => AnnounceRemote(t, tx)
    case PublishOp(tx, spare) => Publish(t, tx, spare)
    case AdoptOp(tx) => var r := Adopt(t, tx); if r.Ok? then r.value else t
    case RevokeOp(id) => var r := Revoke(t, id); if r.Ok? then r.value else t
    case ConnGone(conn) => RevokeOwnedBy(t, conn)
    case EvictOp(id) => Evict(t, id)
    case ResetAll => EMPTY
  }

  /** Does the caller of `op` go on to call `notify_waiters`? */
  ghost predicate OwesWake(t: Table, op: Op) {
    match op
    case RevokeOp(id) => id in t.txs && Revoke(t, id).Ok?
    case ConnGone(conn) => exists id :: id in t.txs && id !in RevokeOwnedBy(t, conn).txs
    case EvictOp(id) => id in t.txs && id !in Evict(t, id).txs
    case ResetAll => true
    case _ => false
  }

  /** What the callers of conn.rs and clipnet.rs pass to an install. */
  predicate CallerBuilds(op: Op) {
    match op
    case LocalCopy(tx, _) => tx.producer.Clipboard? && !tx.superseded && tx.sessions == 0
    case RemoteCopy(tx) => tx.producer.Clipboard? && !tx.superseded && tx.sessions == 0
    case PublishOp(tx, _) =>
      tx.producer.Published? && tx.producer.owners != [] && !tx.superseded && tx.sessions == 0
    case AdoptOp(tx) =>
      tx.producer.Published? && tx.producer.owners != [] && !tx.superseded && tx.sessions == 0
    case _ => true
  }

  /** A local copy and a republish mint an identifier the table does not hold. */
  predicate MintsFresh(t: Table, op: Op) {
    match op
    case LocalCopy(tx, _) => tx.id !in t.txs
    case PublishOp(_, spare) => spare !in t.txs
    case _ => true
  }

  /** The identifier `op` would newly install, if it installs one. */
  function Installed(t: Table, op: Op): Option<TxId> {
    match op
    case LocalCopy(tx, _) => Some(tx.id)
    case RemoteCopy(tx) => if Wins(t, tx) then Some(tx.id) else None
    case PublishOp(tx, spare) => Some(if tx.id in t.txs then spare else tx.id)
    case AdoptOp(tx) => if tx.id in t.txs then None else Some(tx.id)
    case _ => None
  }

  function Wake(s: Session): Session {
    if s.pc == Armed || s.pc == Watching then s.(fired := true) else s
  }

  function WakeAll(sessions: map<Sid, Session>): map<Sid, Session> {
    map sid | sid in sessions :: Wake(sessions[sid])
  }

  ghost predicate Enabled(w: World, step: Step) {
    match step
    case TableStep(op) => CallerBuilds(op) && MintsFresh(w.table, op)
    case SendWake => w.wakes > 0
    case StrayWake => true
    case Open(sid, id) => sid !in w.sessions && id in w.table.txs
    case Arm(sid) => sid in w.sessions && w.sessions[sid].pc == Begun
    case Check(sid) => sid in w.sessions && w.sessions[sid].pc == Armed
    case Rearm(sid) => sid in w.sessions && w.sessions[sid].pc == Watching && w.sessions[sid].fired
    case Leave(sid) => sid in w.sessions && w.sessions[sid].pc != Leaving
    case Close(sid) => sid in w.sessions && w.sessions[sid].pc == Leaving
  }

  ghost function Next(w: World, step: Step): World
    requires Enabled(w, step)
  {
    match step
    case TableStep(op) =>
      World(Apply(w.table, op), w.sessions, w.wakes + if OwesWake(w.table, op) then 1 else 0)
    case SendWake => World(w.table, WakeAll(w.sessions), w.wakes - 1)
    case StrayWake => w.(sessions := WakeAll(w.sessions))
    case Open(sid, id) =>
      w.(table := Begin(w.table, id), sessions := w.sessions[sid := Session(id, Begun, false)])
    case Arm(sid) => w.(sessions := w.sessions[sid := w.sessions[sid].(pc := Armed, fired := false)])
    case Check(sid) =>
      var live := w.sessions[sid].tx in w.table.txs;
      w.(sessions := w.sessions[sid := w.sessions[sid].(pc := if live then Watching else Leaving)])
    case Rearm(sid) => w.(sessions := w.sessions[sid := w.sessions[sid].(pc := Armed, fired := false)])
    case Leave(sid) => w.(sessions := w.sessions[sid := w.sessions[sid].(pc := Leaving)])
    case Close(sid) =>
      w.(table := End(w.table, w.sessions[sid].tx), sessions := w.sessions - {sid})
  }

  // ----- The table invariant -------------------------------------------------

  predicate TableInv(t: Table) {
    && (t.current.Some? ==> t.current.value in t.txs)
    && (forall id <- t.txs :: t.txs[id].id == id)
    && (forall id <- t.txs :: t.txs[id].producer.Clipboard? ==>
          if t.current == Some(id) then !t.txs[id].superseded
          else t.txs[id].superseded && t.txs[id].sessions > 0)
    && (forall id <- t.txs :: t.txs[id].producer.Published? ==>
          && t.current != Some(id)
          && !t.txs[id].superseded
          && t.txs[id].producer.owners != [])
  }

  lemma JoinedKeepsOwners(owners: seq<ConnId>, joining: seq<ConnId>)
    requires owners != []
    ensures Joined(owners, joining) != []
    decreases joining
  {
  }

  lemma InstallKeepsTable(t: Table, tx: Tx)
    requires TableInv(t) && tx.id !in t.txs && tx.producer.Clipboard? && !tx.superseded
    ensures TableInv(Install(t, tx))
  {
  }

  lemma PublishKeepsTable(t: Table, tx: Tx)
    requires TableInv(t) && tx.id !in t.txs && tx.producer.Published? && tx.producer.owners != [] && !tx.superseded
    ensures TableInv(t.(txs := t.txs[tx.id := tx]))
  {
  }

  lemma AdoptKeepsTable(t: Table, tx: Tx)
    requires TableInv(t) && CallerBuilds(AdoptOp(tx)) && Adopt(t, tx).Ok?
    ensures TableInv(Adopt(t, tx).value)
  {
    if tx.id !in t.txs {
      PublishKeepsTable(t, tx);
    } else {
      JoinedKeepsOwners(t.txs[tx.id].producer.owners, tx.producer.owners);
    }
  }

  lemma RemovalKeepsTable(t: Table, id: TxId)
    requires TableInv(t) && t.current != Some(id)
    ensures TableInv(t.(txs := t.txs - {id}))
  {
  }

  lemma WithdrawalKeepsTable(t: Table, conn: ConnId)
    requires TableInv(t)
    ensures TableInv(RevokeOwnedBy(t, conn))
  {
  }

  lemma ApplyKeepsTable(t: Table, op: Op)
    requires TableInv(t) && CallerBuilds(op) && MintsFresh(t, op)
    ensures TableInv(Apply(t, op))
  {
    match op {
      case LocalCopy(tx, now) => InstallKeepsTable(t, tx.(stamp := LocalStamp(t, now)));
      case RemoteCopy(tx) =>
        if Wins(t, tx) {
          InstallKeepsTable(t, tx);
        }
      case PublishOp(tx, spare) => PublishKeepsTable(t, tx.(id := Installed(t, op).value));
      case AdoptOp(tx) =>
        if Adopt(t, tx).Ok? {
          AdoptKeepsTable(t, tx);
        }
      case RevokeOp(id) =>
        if t.current != Some(id) {
          RemovalKeepsTable(t, id);
        }
      case ConnGone(conn) => WithdrawalKeepsTable(t, conn);
      case EvictOp(id) =>
        if t.current != Some(id) {
          RemovalKeepsTable(t, id);
        }
      case ResetAll =>
    }
  }

  /**
   Whatever order copies, publications, revocations, sessions and wakes come in,
   the current clip is present and alive, every other clip is superseded and still
   read, and published entries stay outside the election with an owner.
   */
  lemma StepKeepsTable(w: World, step: Step)
    requires TableInv(w.table) && Enabled(w, step)
    ensures TableInv(Next(w, step).table)
  {
    if step.TableStep? {
      ApplyKeepsTable(w.table, step.op);
    }
  }

  // ----- Session accounting --------------------------------------------------

  ghost function Readers(sessions: map<Sid, Session>, id: TxId): set<Sid> {
    set sid | sid in sessions && sessions[sid].tx == id
  }

  /** The counter of `id`, if it is in the table, is the number of its open sessions. */
  ghost predicate ExactAt(w: World, id: TxId) {
    id in w.table.txs ==> w.table.txs[id].sessions == |Readers(w.sessions, id)|
  }

  ghost predicate Exact(w: World) {
    forall id <- w.table.txs :: ExactAt(w, id)
  }

  /** `id` is installed while a session of an earlier installation is still open. */
  ghost predicate Reinstalls(w: World, step: Step, id: TxId) {
    step.TableStep? && Installed(w.table, step.op) == Some(id) && Readers(w.sessions, id) != {}
  }

  ghost predicate NoReinstall(w: World, step: Step) {
    forall id :: !Reinstalls(w, step, id)
  }

  lemma ReadersOfOthers(before: map<Sid, Session>, after: map<Sid, Session>, id: TxId)
    requires before.Keys == after.Keys
    requires forall sid <- before :: before[sid].tx == after[sid].tx
    ensures Readers(before, id) == Readers(after, id)
  {
  }

  /** A table operation starts entries at zero and leaves every other counter alone. */
  lemma ApplyKeepsCounters(t: Table, op: Op, id: TxId)
    requires TableInv(t) && CallerBuilds(op) && MintsFresh(t, op)
    requires id in Apply(t, op).txs
    ensures if Installed(t, op) == Some(id) then Apply(t, op).txs[id].sessions == 0
            else id in t.txs && Apply(t, op).txs[id].sessions == t.txs[id].sessions
  {
  }

  lemma CounterFollows(w: World, step: Step, id: TxId)
    requires TableInv(w.table) && ExactAt(w, id) && Enabled(w, step) && !Reinstalls(w, step, id)
    ensures ExactAt(Next(w, step), id)
  {
    if id in Next(w, step).table.txs {
      match step
      case TableStep(op) => ApplyKeepsCounters(w.table, op, id);
      case Open(sid, target) => ReadersAfterOpen(w.sessions, sid, target, id);
      case Close(sid) => ReadersAfterClose(w.sessions, sid, id);
      case _ => ReadersOfOthers(w.sessions, Next(w, step).sessions, id);
    }
  }

  lemma ReadersAfterOpen(sessions: map<Sid, Session>, sid: Sid, target: TxId, id: TxId)
    requires sid !in sessions
    ensures |Readers(sessions[sid := Session(target, Begun, false)], id)|
            == |Readers(sessions, id)| + if id == target then 1 else 0
  {
    assert Readers(sessions[sid := Session(target, Begun, false)], id)
        == Readers(sessions, id) + if id == target then {sid} else {};
  }

  lemma ReadersAfterClose(sessions: map<Sid, Session>, sid: Sid, id: TxId)
    requires sid in sessions
    ensures |Readers(sessions, id)|
            == |Readers(sessions - {sid}, id)| + if id == sessions[sid].tx then 1 else 0
  {
    assert Readers(sessions, id)
        == Readers(sessions - {sid}, id) + if id == sessions[sid].tx then {sid} else {};
  }

  /**
   A table operation leaves every counter right exactly when it installs no identifier
   that is still read: the new entry starts at zero whatever is open.
   */
  lemma InstallExactIff(w: World, step: Step)
    requires TableInv(w.table) && Exact(w) && Enabled(w, step) && step.TableStep?
    ensures Exact(Next(w, step)) <==> NoReinstall(w, step)
  {
    var w' := Next(w, step);
    if NoReinstall(w, step) {
      forall id <- w'.table.txs ensures ExactAt(w', id) {
        assert !Reinstalls(w, step, id);
        CounterFollows(w, step, id);
      }
    } else {
      var id :| Reinstalls(w, step, id);
      assert id in w'.table.txs && w'.table.txs[id].sessions == 0;
      assert |Readers(w'.sessions, id)| != 0;
    }
  }

  lemma CloseDropsIff(w: World, sid: Sid, id: TxId)
    requires ExactAt(w, id) && sid in w.sessions && id in w.table.txs && w.table.txs[id].superseded
    ensures id !in End(w.table, w.sessions[sid].tx).txs <==> Readers(w.sessions, id) == {sid}
  {
    var readers := Readers(w.sessions, id);
    if w.sessions[sid].tx == id {
      assert sid in readers;
      if |readers| == 1 {
        assert |readers - {sid}| == 0;
      }
    } else {
      assert sid !in readers;
    }
  }

  /** Operations leave superseded clips alone, but for a reset. */
  lemma OnlyAResetDrops(w: World, step: Step, id: TxId)
    requires TableInv(w.table) && Enabled(w, step) && !step.Close?
    requires id in w.table.txs && w.table.txs[id].superseded
    ensures id !in Next(w, step).table.txs <==> step == TableStep(ResetAll)
  {
    assert w.table.txs[id].producer.Clipboard?;
  }

  /** A superseded clip goes exactly when its last session closes, or at a reset. */
  lemma SupersededGoesWithLastReader(w: World, step: Step, id: TxId)
    requires TableInv(w.table) && ExactAt(w, id) && Enabled(w, step)
    requires id in w.table.txs && w.table.txs[id].superseded
    ensures id !in Next(w, step).table.txs <==>
            || step == TableStep(ResetAll)
            || (step.Close? && Readers(w.sessions, id) == {step.sid})
  {
    if step.Close? {
      CloseDropsIff(w, step.sid, id);
    } else {
      OnlyAResetDrops(w, step, id);
    }
  }

  // ----- No revocation is lost ----------------------------------------------

  /** Parked on `id` with no wake received, a session has its entry there or its wake on the way. */
  ghost predicate NoneLost(w: World, id: TxId) {
    forall sid <- w.sessions :: w.sessions[sid] == Session(id, Watching, false) ==> id in w.table.txs || w.wakes > 0
  }

  ghost predicate IsPublished(w: World, id: TxId) {
    id in w.table.txs ==> w.table.txs[id].producer.Published?
  }

  /** What keeps a session from losing its entry unnoticed: a right counter, or an entry no supersession drops. */
  ghost predicate Guarded(w: World, id: TxId) {
    ExactAt(w, id) || IsPublished(w, id)
  }

  /** An entry leaves the table with a wake owed, or when nothing reads it. */
  lemma LeavesTableQuietly(w: World, step: Step, id: TxId)
    requires TableInv(w.table) && Guarded(w, id) && Enabled(w, step)
    requires id in w.table.txs && id !in Next(w, step).table.txs
    ensures Next(w, step).wakes > 0 || Readers(Next(w, step).sessions, id) == {}
  {
    match step
    case Close(sid) =>
      assert sid in Readers(w.sessions, id);
      assert |Readers(w.sessions, id) - {sid}| == 0;
      assert Readers(Next(w, step).sessions, id) == Readers(w.sessions, id) - {sid};
    case _ =>
  }

  lemma StepKeepsNoneLost(w: World, step: Step, id: TxId)
    requires TableInv(w.table) && Guarded(w, id) && NoneLost(w, id) && Enabled(w, step)
    ensures NoneLost(Next(w, step), id)
  {
    var w' := Next(w, step);
    forall sid <- w'.sessions | w'.sessions[sid] == Session(id, Watching, false)
      ensures id in w'.table.txs || w'.wakes > 0
    {
      assert sid in Readers(w'.sessions, id);
      if id in w.table.txs && id !in w'.table.txs {
        LeavesTableQuietly(w, step, id);
      }
    }
  }

  /** A copy under the identifier `id`: only these make an entry a supersession can drop. */
  predicate Copies(step: Step, id: TxId) {
    step.TableStep? && (step.op.LocalCopy? || step.op.RemoteCopy?) && step.op.tx.id == id
  }

  /** A copy installs `id` under an open session of its own. */
  ghost predicate CopiesOver(w: World, step: Step, id: TxId) {
    Copies(step, id) && Reinstalls(w, step, id)
  }

  lemma PublishedStays(w: World, step: Step, id: TxId)
    requires TableInv(w.table) && IsPublished(w, id) && Enabled(w, step)
    requires !(Copies(step, id) && Installed(w.table, step.op) == Some(id))
    ensures IsPublished(Next(w, step), id)
  {
  }

  /** What is installed anew is published, or nothing reads it yet. */
  lemma InstallsGuarded(w: World, step: Step, id: TxId)
    requires TableInv(w.table) && Enabled(w, step) && !CopiesOver(w, step, id)
    requires step.TableStep? && Installed(w.table, step.op) == Some(id)
    ensures Guarded(Next(w, step), id)
  {
  }

  /** Nothing but a copy over open sessions takes the guard away. */
  lemma StepKeepsGuarded(w: World, step: Step, id: TxId)
    requires TableInv(w.table) && Guarded(w, id) && Enabled(w, step) && !CopiesOver(w, step, id)
    ensures Guarded(Next(w, step), id)
  {
    if step.TableStep? && Installed(w.table, step.op) == Some(id) {
      InstallsGuarded(w, step, id);
    } else if ExactAt(w, id) {
      CounterFollows(w, step, id);
    } else {
      PublishedStays(w, step, id);
    }
  }

  // ----- Whole runs ----------------------------------------------------------

  ghost predicate IsRun(w: World, steps: seq<Step>)
    decreases steps
  {
    steps == [] || (Enabled(w, steps[0]) && IsRun(Next(w, steps[0]), steps[1..]))
  }

  ghost function After(w: World, steps: seq<Step>): World
    requires IsRun(w, steps)
    decreases steps
  {
    if steps == [] then w else After(Next(w, steps[0]), steps[1..])
  }

  ghost predicate NeverReinstalls(w: World, steps: seq<Step>, id: TxId)
    requires IsRun(w, steps)
    decreases steps
  {
    steps == [] || (!Reinstalls(w, steps[0], id) && NeverReinstalls(Next(w, steps[0]), steps[1..], id))
  }

  ghost predicate NeverCopiesOver(w: World, steps: seq<Step>, id: TxId)
    requires IsRun(w, steps)
    decreases steps
  {
    steps == [] || (!CopiesOver(w, steps[0], id) && NeverCopiesOver(Next(w, steps[0]), steps[1..], id))
  }

  lemma {:induction false} RunsKeepTable(w: World, steps: seq<Step>)
    requires TableInv(w.table) && IsRun(w, steps)
    ensures TableInv(After(w, steps).table)
    decreases steps
  {
    if steps != [] {
      StepKeepsTable(w, steps[0]);
      RunsKeepTable(Next(w, steps[0]), steps[1..]);
    }
  }

  /** In every reachable state the table is consistent. */
  lemma TableAlwaysConsistent(steps: seq<Step>)
    requires IsRun(START, steps)
    ensures TableInv(After(START, steps).table)
  {
    RunsKeepTable(START, steps);
  }

  lemma {:induction false} RunsKeepCounter(w: World, steps: seq<Step>, id: TxId)
    requires TableInv(w.table) && ExactAt(w, id) && IsRun(w, steps) && NeverReinstalls(w, steps, id)
    ensures ExactAt(After(w, steps), id)
    decreases steps
  {
    if steps != [] {
      StepKeepsTable(w, steps[0]);
      CounterFollows(w, steps[0], id);
      RunsKeepCounter(Next(w, steps[0]), steps[1..], id);
    }
  }

  lemma {:induction false} RunsLoseNone(w: World, steps: seq<Step>, id: TxId)
    requires TableInv(w.table) && Guarded(w, id) && NoneLost(w, id)
    requires IsRun(w, steps) && NeverCopiesOver(w, steps, id)
    ensures NoneLost(After(w, steps), id)
    decreases steps
  {
    if steps != [] {
      StepKeepsTable(w, steps[0]);
      StepKeepsGuarded(w, steps[0], id);
      StepKeepsNoneLost(w, steps[0], id);
      RunsLoseNone(Next(w, steps[0]), steps[1..], id);
    }
  }

  /** Where an identifier is never installed under a session of its own, its counter is exact. */
  lemma CountersAreExact(steps: seq<Step>, id: TxId)
    requires IsRun(START, steps) && NeverReinstalls(START, steps, id)
    ensures ExactAt(After(START, steps), id)
  {
    RunsKeepCounter(START, steps, id);
  }

  /**
   In every run that never copies `id` over an open session of its own, a session parked
   without a wake still has its transaction, or the remover has not sent its wake yet:
   however often `id` is published, adopted, removed and installed again.
   */
  lemma NoRevocationIsLost(steps: seq<Step>, id: TxId)
    requires IsRun(START, steps) && NeverCopiesOver(START, steps, id)
    ensures NoneLost(After(START, steps), id)
  {
    RunsLoseNone(START, steps, id);
  }

  /** Once every owed wake is sent, a session without its entry is woken and leaves at its next turn. */
  lemma RevokedSessionIsCut(w: World, sid: Sid)
    requires sid in w.sessions && NoneLost(w, w.sessions[sid].tx) && w.wakes == 0
    requires w.sessions[sid].pc == Watching && w.sessions[sid].tx !in w.table.txs
    ensures Enabled(w, Rearm(sid))
    ensures var w' := Next(w, Rearm(sid));
            Enabled(w', Check(sid)) && Next(w', Check(sid)).sessions[sid].pc == Leaving
  {
  }

  // ----- What a copy over open sessions leads to ----------------------------------

  lemma Prepend(w: World, step: Step, rest: seq<Step>)
    requires Enabled(w, step) && IsRun(Next(w, step), rest)
    ensures IsRun(w, [step] + rest) && After(w, [step] + rest) == After(Next(w, step), rest)
  {
    assert ([step] + rest)[1..] == rest;
  }

  /** Every way to go on, without copying `id` over its sessions again, loses nobody. */
  ghost predicate StaysSafe(w: World, id: TxId) {
    forall rest :: IsRun(w, rest) && NeverCopiesOver(w, rest, id) ==> NoneLost(After(w, rest), id)
  }

  /** What a step can spoil was spoilt before it. */
  lemma StaysSafeBack(w: World, step: Step, id: TxId)
    requires Enabled(w, step) && !CopiesOver(w, step, id)
    ensures StaysSafe(w, id) ==> StaysSafe(Next(w, step), id)
  {
    var w' := Next(w, step);
    if StaysSafe(w, id) {
      forall rest | IsRun(w', rest) && NeverCopiesOver(w', rest, id) ensures NoneLost(After(w', rest), id) {
        Prepend(w, step, rest);
        assert ([step] + rest)[1..] == rest;
        assert NeverCopiesOver(w, [step] + rest, id);
      }
    }
  }

  lemma SafeNow(w: World, id: TxId)
    requires StaysSafe(w, id)
    ensures NoneLost(w, id)
  {
    assert IsRun(w, []) && NeverCopiesOver(w, [], id) && After(w, []) == w;
  }

  lemma {:induction false} FreshNumber(used: set<nat>) returns (n: nat)
    ensures n !in used && forall k <- used :: k < n
  {
    if used == {} {
      n := 0;
    } else {
      var k :| k in used;
      var m := FreshNumber(used - {k});
      n := if m <= k then k + 1 else m;
      forall j <- used ensures j < n {
        assert j == k || j in used - {k};
      }
    }
  }

  /** `id` is the current clip, with a counter of `count` whatever reads it. */
  predicate CurrentWith(t: Table, id: TxId, count: nat) {
    && t.current == Some(id) && id in t.txs
    && t.txs[id].producer.Clipboard? && !t.txs[id].superseded && t.txs[id].sessions == count
  }

  predicate IsParked(w: World, sid: Sid, id: TxId) {
    sid in w.sessions && w.sessions[sid] == Session(id, Watching, false)
  }

  const COPY := Tx(0, None, 0, Clipboard, Local(7), false, 0, false)

  /** The next copy drops an entry whose counter is zero, and owes no wake. */
  lemma NextCopyLoses(w: World, id: TxId, sid: Sid)
    requires CurrentWith(w.table, id, 0) && w.wakes == 0 && IsParked(w, sid, id)
    ensures !StaysSafe(w, id)
  {
    var minted := FreshNumber(w.table.txs.Keys);
    var copy := TableStep(LocalCopy(COPY.(id := minted), 0));
    var w' := Next(w, copy);
    assert IsParked(w', sid, id) && id !in w'.table.txs && w'.wakes == 0;
    StaysSafeBack(w, copy, id);
    if StaysSafe(w, id) {
      SafeNow(w', id);
    }
  }

  /** A session of the earlier installation takes the count of one of the new. */
  lemma LateCloseLoses(w: World, id: TxId, late: Sid, sid: Sid)
    requires CurrentWith(w.table, id, 1) && w.wakes == 0 && IsParked(w, sid, id)
    requires late != sid && late in w.sessions && w.sessions[late].tx == id && w.sessions[late].pc == Leaving
    ensures !StaysSafe(w, id)
  {
    var w' := Next(w, Close(late));
    assert IsParked(w', sid, id);
    NextCopyLoses(w', id, sid);
    StaysSafeBack(w, Close(late), id);
  }

  lemma LateLeaveLoses(w: World, id: TxId, late: Sid, sid: Sid)
    requires CurrentWith(w.table, id, 1) && w.wakes == 0 && IsParked(w, sid, id)
    requires late != sid && late in w.sessions && w.sessions[late].tx == id
    ensures !StaysSafe(w, id)
  {
    if w.sessions[late].pc == Leaving {
      LateCloseLoses(w, id, late, sid);
    } else {
      LateCloseLoses(Next(w, Leave(late)), id, late, sid);
      StaysSafeBack(w, Leave(late), id);
    }
  }

  lemma NewReaderLoses(w: World, id: TxId, late: Sid)
    requires CurrentWith(w.table, id, 0) && w.wakes == 0
    requires late in w.sessions && w.sessions[late].tx == id
    ensures !StaysSafe(w, id)
  {
    var sid := FreshNumber(w.sessions.Keys);
    var w1 := Next(w, Open(sid, id));
    var w2 := Next(w1, Arm(sid));
    var w3 := Next(w2, Check(sid));
    assert IsParked(w3, sid, id);
    LateLeaveLoses(w3, id, late, sid);
    StaysSafeBack(w2, Check(sid), id);
    StaysSafeBack(w1, Arm(sid), id);
    StaysSafeBack(w, Open(sid, id), id);
  }

  lemma {:induction false} UndercountLoses(w: World, id: TxId, late: Sid)
    requires CurrentWith(w.table, id, 0) && late in w.sessions && w.sessions[late].tx == id
    ensures !StaysSafe(w, id)
    decreases w.wakes
  {
    if w.wakes == 0 {
      NewReaderLoses(w, id, late);
    } else {
      UndercountLoses(Next(w, SendWake), id, late);
      StaysSafeBack(w, SendWake, id);
    }
  }

  /**
   A copy that installs `id` leaves every later run free of lost revocations, up to the
   next copy over open sessions, if and only if no session is open on `id` at that moment.
   */
  lemma CopyIsSafeIff(w: World, step: Step, id: TxId)
    requires TableInv(w.table) && Guarded(w, id) && NoneLost(w, id) && Enabled(w, step)
    requires Copies(step, id) && Installed(w.table, step.op) == Some(id)
    ensures StaysSafe(Next(w, step), id) <==> Readers(w.sessions, id) == {}
  {
    var w' := Next(w, step);
    if Readers(w.sessions, id) == {} {
      StepKeepsTable(w, step);
      StepKeepsGuarded(w, step, id);
      StepKeepsNoneLost(w, step, id);
      forall rest | IsRun(w', rest) && NeverCopiesOver(w', rest, id) ensures NoneLost(After(w', rest), id) {
        RunsLoseNone(w', rest, id);
      }
    } else {
      var late :| late in Readers(w.sessions, id);
      UndercountLoses(w', id, late);
    }
  }

  // ----- Such a copy can be reached --------------------------------------------------

  const CLIP := Tx(1, Some(1), 5, Clipboard, Remote(1, 1), false, 0, false)
  const REDELIVERED := [TableStep(RemoteCopy(CLIP)), Open(0, 1), TableStep(ResetAll), TableStep(RemoteCopy(CLIP))]
  const UNDERCOUNTED := World(Table(Some(1), map[1 := CLIP]), map[0 := Session(1, Begun, false)], 1)

  /** A reset, and a second delivery of the same announce while the first one is still read. */
  lemma RedeliveryUndercounts()
    ensures IsRun(START, REDELIVERED) && After(START, REDELIVERED) == UNDERCOUNTED
  {
    var deliver := TableStep(RemoteCopy(CLIP));
    var w1 := World(Table(Some(1), map[1 := CLIP]), map[], 0);
    var w2 := World(Table(Some(1), map[1 := CLIP.(sessions := 1)]), map[0 := Session(1, Begun, false)], 0);
    var w3 := World(EMPTY, w2.sessions, 1);
    assert Next(START, deliver) == w1 && Next(w1, Open(0, 1)) == w2 && Next(w2, TableStep(ResetAll)) == w3;
    assert Next(w3, deliver) == UNDERCOUNTED;
    Prepend(w3, deliver, []);
    Prepend(w2, TableStep(ResetAll), [deliver]);
    Prepend(w1, Open(0, 1), [TableStep(ResetAll), deliver]);
    Prepend(START, deliver, [Open(0, 1), TableStep(ResetAll), deliver]);
    assert [deliver] + [] == [deliver];
    assert [TableStep(ResetAll)] + [deliver] == [TableStep(ResetAll), deliver];
    assert [Open(0, 1)] + [TableStep(ResetAll), deliver] == [Open(0, 1), TableStep(ResetAll), deliver];
    assert [deliver] + [Open(0, 1), TableStep(ResetAll), deliver] == REDELIVERED;
  }

  lemma {:induction false} RunsJoin(w: World, first: seq<Step>, rest: seq<Step>)
    requires IsRun(w, first) && IsRun(After(w, first), rest)
    ensures IsRun(w, first + rest) && After(w, first + rest) == After(After(w, first), rest)
    decreases first
  {
    if first == [] {
      assert first + rest == rest;
    } else {
      RunsJoin(Next(w, first[0]), first[1..], rest);
      Prepend(w, first[0], first[1..] + rest);
      assert [first[0]] + (first[1..] + rest) == first + rest;
    }
  }

  /** From there a run goes on to a session that is parked for good on an entry that is gone. */
  lemma ReinstallLosesARevocation()
    ensures exists steps :: IsRun(START, steps) && !NoneLost(After(START, steps), 1)
  {
    RedeliveryUndercounts();
    UndercountLoses(UNDERCOUNTED, 1, 0);
    var rest :| IsRun(UNDERCOUNTED, rest) && !NoneLost(After(UNDERCOUNTED, rest), 1);
    RunsJoin(START, REDELIVERED, rest);
  }
}
