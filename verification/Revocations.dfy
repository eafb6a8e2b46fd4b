/**
 From a removal to the sessions it cuts (core/src/clipnet.rs `pipe_consumer`, `run_fill`;
 core/src/conn.rs `transactions_revoke`, `teardown`): over every run behind it.
 */
module Revocations {
  import opened Wrappers
  import opened ClipboardTable
  import opened SessionWorld
  import opened TableLaws

  /** The operations that are to take the published entry `id` out of the table. */
  predicate Removes(t: Table, op: Op, id: TxId) {
    && id in t.txs && t.txs[id].producer.Published?
    && match op
       case RevokeOp(other) => other == id
       case EvictOp(other) => other == id
       case ConnGone(conn) => OwnedAlone(t.txs[id], conn)
       case ResetAll => true
       case _ => false
  }

  /** `id` is not installed again. */
  ghost predicate NeverInstalls(w: World, steps: seq<Step>, id: TxId)
    requires IsRun(w, steps)
    decreases steps
  {
    steps == [] || (
      && (steps[0].TableStep? ==> Installed(w.table, steps[0].op) != Some(id))
      && NeverInstalls(Next(w, steps[0]), steps[1..], id))
  }

  lemma RemovalOwesAWake(t: Table, op: Op, id: TxId)
    requires Removes(t, op, id)
    ensures id !in Apply(t, op).txs && OwesWake(t, op)
  {
    match op
    case RevokeOp(_) => RevokeIff(t, id);
    case EvictOp(_) => EvictIff(t, id);
    case ConnGone(conn) => ConnGoneIff(t, conn, id);
    case ResetAll =>
  }

  lemma StaysGone(w: World, step: Step, id: TxId)
    requires Enabled(w, step) && id !in w.table.txs
    requires step.TableStep? ==> Installed(w.table, step.op) != Some(id)
    ensures id !in Next(w, step).table.txs
  {
  }

  lemma {:induction false} RunStaysGone(w: World, steps: seq<Step>, id: TxId)
    requires TableInv(w.table) && NoneLost(w, id) && id !in w.table.txs
    requires IsRun(w, steps) && NeverInstalls(w, steps, id)
    ensures id !in After(w, steps).table.txs && NoneLost(After(w, steps), id)
    decreases steps
  {
    if steps != [] {
      StepKeepsTable(w, steps[0]);
      StaysGone(w, steps[0], id);
      StepKeepsNoneLost(w, steps[0], id);
      RunStaysGone(Next(w, steps[0]), steps[1..], id);
    }
  }

  /** The session can only leave: at its next check if it is armed, and woken to it if it is parked. */
  ghost predicate IsCut(w: World, sid: Sid)
    requires sid in w.sessions
  {
    match w.sessions[sid].pc
    case Begun => Enabled(w, Arm(sid)) && var w' := Next(w, Arm(sid)); ChecksOut(w', sid)
    case Armed => ChecksOut(w, sid)
    case Watching => Enabled(w, Rearm(sid)) && var w' := Next(w, Rearm(sid)); ChecksOut(w', sid)
    case Leaving => Enabled(w, Close(sid))
  }

  ghost predicate ChecksOut(w: World, sid: Sid) {
    Enabled(w, Check(sid)) && sid in Next(w, Check(sid)).sessions && Next(w, Check(sid)).sessions[sid].pc == Leaving
  }

  /** Without its entry, and with every wake out, a session is cut. */
  lemma GoneIsCut(w: World, sid: Sid)
    requires sid in w.sessions && NoneLost(w, w.sessions[sid].tx) && w.wakes == 0
    requires w.sessions[sid].tx !in w.table.txs
    ensures IsCut(w, sid)
  {
    if w.sessions[sid].pc == Watching {
      assert w.sessions[sid] == Session(w.sessions[sid].tx, Watching, w.sessions[sid].fired);
      assert w.sessions[sid].fired;
    }
  }

  /**
   A published transaction that is revoked, evicted, reset or left by its last owner is gone
   in every run behind that, until it is installed again; and once the wakes are out, every
   session on it is woken and can only leave.
   */
  lemma RemovalCutsItsSessions(w: World, op: Op, id: TxId, rest: seq<Step>)
    requires TableInv(w.table) && Enabled(w, TableStep(op)) && Removes(w.table, op, id)
    requires IsRun(Next(w, TableStep(op)), rest) && NeverInstalls(Next(w, TableStep(op)), rest, id)
    ensures var end := After(Next(w, TableStep(op)), rest);
      && id !in end.table.txs
      && (end.wakes == 0 ==> forall sid :: sid in end.sessions && end.sessions[sid].tx == id ==> IsCut(end, sid))
  {
    var w' := Next(w, TableStep(op));
    RemovalOwesAWake(w.table, op, id);
    StepKeepsTable(w, TableStep(op));
    assert w'.wakes > 0;
    RunStaysGone(w', rest, id);
    var end := After(w', rest);
    if end.wakes == 0 {
      forall sid | sid in end.sessions && end.sessions[sid].tx == id ensures IsCut(end, sid) {
        GoneIsCut(end, sid);
      }
    }
  }

  /** What is not removed stays in service: a parked session whose entry is there is not cut by its next check. */
  lemma LiveIsNotCut(w: World, sid: Sid)
    requires sid in w.sessions && w.sessions[sid].pc == Armed && w.sessions[sid].tx in w.table.txs
    ensures Next(w, Check(sid)).sessions[sid].pc == Watching
  {
  }

  // ----- The latched wake -------------------------------------------------------------------------------

  /** A wake that goes out between arming and parking is not lost: a session that parks behind it can go on at once. */
  lemma GapWakeIsKept(w: World, sid: Sid)
    requires Enabled(w, SendWake) && sid in w.sessions && w.sessions[sid].pc == Armed
    requires w.sessions[sid].tx in w.table.txs
    ensures var w' := Next(w, SendWake); Enabled(w', Check(sid)) && Enabled(Next(w', Check(sid)), Rearm(sid))
  {
  }

  predicate Unfired(w: World, sid: Sid) {
    sid in w.sessions && w.sessions[sid].pc in {Armed, Watching} ==> !w.sessions[sid].fired
  }

  predicate SendsNoWake(run: seq<Step>) {
    forall i {:trigger run[i]} :: 0 <= i < |run| ==> !run[i].SendWake? && !run[i].StrayWake?
  }

  lemma QuietStep(w: World, sid: Sid, step: Step)
    requires Unfired(w, sid) && Enabled(w, step) && !step.SendWake? && !step.StrayWake?
    ensures Unfired(Next(w, step), sid)
  {
  }

  /** And none is made up: without a wake a session that has armed can park, and then only waits. */
  lemma {:induction false} NoWakeIsInvented(w: World, sid: Sid, run: seq<Step>)
    requires Unfired(w, sid) && IsRun(w, run) && SendsNoWake(run)
    ensures !Enabled(After(w, run), Rearm(sid))
    decreases run
  {
    if run != [] {
      QuietStep(w, sid, run[0]);
      NoWakeIsInvented(Next(w, run[0]), sid, run[1..]);
    }
  }

  /** Each time a session arms, on its first turn or a later one, it starts out so. */
  lemma ArmingIsUnfired(w: World, sid: Sid)
    ensures Enabled(w, Arm(sid)) ==> Unfired(Next(w, Arm(sid)), sid)
    ensures Enabled(w, Rearm(sid)) ==> Unfired(Next(w, Rearm(sid)), sid)
  {
  }
}
