/**
 What each operation on the transaction table comes to (core/src/clipboard.rs), entry by
 entry: what it installs, what it removes, and what it leaves alone.
 */
module TableLaws {
  import opened Wrappers
  import opened ClipboardTable

  // ----- The stamp of a local copy -----------------------------------------------------

  /** The stamp of the current clip, or zero. */
  predicate HasStamp(t: Table, stamp: nat) {
    if t.current.Some? && t.current.value in t.txs then stamp == t.txs[t.current.value].stamp else stamp == 0
  }

  /** `m` is no earlier than the clock, and later than the current clip as far as there is a later number. */
  predicate WouldDo(now: nat, current: nat, m: nat) {
    now <= m && (if current < U64_MAX then current < m else current <= m)
  }

  /** A local copy is stamped with the least number that would do. */
  lemma StampIsLeast(t: Table, now: nat, current: nat, m: nat)
    requires HasStamp(t, current)
    ensures WouldDo(now, current, LocalStamp(t, now))
    ensures WouldDo(now, current, m) ==> LocalStamp(t, now) <= m
  {
  }

  // ----- Copies ---------------------------------------------------------------------------

  /** Every entry but `id` and the one that was current is as it was. */
  ghost predicate OthersAsBefore(t: Table, t': Table, id: TxId) {
    forall other :: other != id && Some(other) != t.current ==>
      (other in t'.txs <==> other in t.txs) && (other in t.txs ==> t'.txs[other] == t.txs[other])
  }

  /** The clip that was current is gone if nothing read it, and superseded otherwise. */
  predicate Superseded(t: Table, t': Table, id: TxId) {
    t.current.Some? && t.current.value in t.txs && t.current.value != id ==>
      var prev := t.current.value;
      if t.txs[prev].sessions == 0 then prev !in t'.txs
      else prev in t'.txs && t'.txs[prev] == t.txs[prev].(superseded := true)
  }

  lemma LocalCopyReplaces(t: Table, tx: Tx, now: nat)
    ensures var t' := AnnounceLocal(t, tx, now);
      && t'.current == Some(tx.id) && tx.id in t'.txs && t'.txs[tx.id] == tx.(stamp := t'.txs[tx.id].stamp)
      && OthersAsBefore(t, t', tx.id) && Superseded(t, t', tx.id)
  {
  }

  /**
   A remote copy is adopted, as it is, exactly when its id is new and its `(stamp, device)`
   comes after the current clip's, an absent device before any; otherwise nothing changes.
   */
  lemma RemoteCopyIff(t: Table, tx: Tx)
    ensures var t' := AnnounceRemote(t, tx);
      if tx.id !in t.txs && (t.current.Some? && t.current.value in t.txs ==>
           var cur := t.txs[t.current.value];
           cur.stamp < tx.stamp || (cur.stamp == tx.stamp && tx.device.Some?
             && (cur.device.None? || cur.device.value < tx.device.value)))
      then t'.current == Some(tx.id) && tx.id in t'.txs && t'.txs[tx.id] == tx
           && OthersAsBefore(t, t', tx.id) && Superseded(t, t', tx.id)
      else t' == t
  {
  }

  // ----- Sessions ----------------------------------------------------------------------------

  /** A session that begins and ends leaves the table as it was, but for a superseded clip nothing else read. */
  lemma EndUndoesBegin(t: Table, id: TxId)
    ensures End(Begin(t, id), id) ==
      if id in t.txs && t.txs[id].superseded && t.txs[id].sessions == 0 then t.(txs := t.txs - {id}) else t
  {
    if id in t.txs {
      assert t.txs[id := t.txs[id].(sessions := t.txs[id].sessions)] == t.txs;
    }
  }

  lemma BeginCounts(t: Table, id: TxId)
    requires id in t.txs
    ensures Begin(t, id).txs == t.txs[id := t.txs[id].(sessions := t.txs[id].sessions + 1)]
    ensures Begin(t, id).current == t.current
  {
  }

  /** A release too many is none: a counter at zero stays there. */
  lemma ZeroStays(t: Table, id: TxId)
    requires id in t.txs && t.txs[id].sessions == 0 && !t.txs[id].superseded
    ensures End(t, id) == t
  {
    assert t.txs[id := t.txs[id].(sessions := 0)] == t.txs;
  }

  /** Bytes held here are served here, wherever they came from; others by the device they came from. */
  lemma ServedHereIff(tx: Tx)
    ensures ModeOf(tx) == ServeLocal <==> tx.materialized || tx.origin.Local?
    ensures ModeOf(tx).ServeRemote? ==>
      tx.origin.Remote? && ModeOf(tx).node == tx.origin.node && ModeOf(tx).device == tx.origin.device
  {
  }

  // ----- Publications --------------------------------------------------------------------------

  ghost predicate OnlyChanges(t: Table, t': Table, id: TxId) {
    && t'.current == t.current
    && forall other :: other != id ==>
         (other in t'.txs <==> other in t.txs) && (other in t.txs ==> t'.txs[other] == t.txs[other])
  }

  lemma PublishInstalls(t: Table, tx: Tx, spare: TxId)
    requires spare !in t.txs
    ensures var t', id := Publish(t, tx, spare), if tx.id in t.txs then spare else tx.id;
      && id !in t.txs && id in t'.txs && t'.txs[id] == tx.(id := id) && OnlyChanges(t, t', id)
  {
  }

  /** `part` is what is left of `whole` with some places struck out. */
  predicate IsSubsequence(part: seq<ConnId>, whole: seq<ConnId>) {
    part == [] || (whole != [] &&
      (if part[0] == whole[0] then IsSubsequence(part[1..], whole[1..]) else IsSubsequence(part, whole[1..])))
  }

  /** `rest` is `owners` without `conn`: in order, and every other owner as often as before. */
  ghost predicate IsWithout(owners: seq<ConnId>, conn: ConnId, rest: seq<ConnId>) {
    && IsSubsequence(rest, owners) && conn !in rest
    && forall other :: other != conn ==> multiset(rest)[other] == multiset(owners)[other]
  }

  lemma {:induction false} WithoutIs(owners: seq<ConnId>, conn: ConnId)
    ensures IsWithout(owners, conn, Without(owners, conn))
  {
    if owners != [] {
      WithoutIs(owners[1..], conn);
      assert owners == [owners[0]] + owners[1..];
    }
  }

  lemma {:induction false} NobodyLeftIff(owners: seq<ConnId>, conn: ConnId)
    ensures Without(owners, conn) == [] <==> forall other :: other in owners ==> other == conn
  {
    if owners != [] {
      NobodyLeftIff(owners[1..], conn);
      assert owners[0] in owners && forall other :: other in owners <==> other == owners[0] || other in owners[1..];
    }
  }

  /** The published entries with no other owner than `conn`. */
  predicate OwnedAlone(tx: Tx, conn: ConnId) {
    tx.producer.Published? && forall other :: other in tx.producer.owners ==> other == conn
  }

  /** With a connection go exactly the entries it owned alone; the others keep their other owners in order. */
  lemma ConnGoneIff(t: Table, conn: ConnId, id: TxId)
    requires id in t.txs
    ensures var t' := RevokeOwnedBy(t, conn);
      && t'.current == t.current && t'.txs.Keys <= t.txs.Keys
      && (id !in t'.txs <==> OwnedAlone(t.txs[id], conn))
      && (id in t'.txs && t.txs[id].producer.Clipboard? ==> t'.txs[id] == t.txs[id])
      && (id in t'.txs && t.txs[id].producer.Published? ==>
            && t'.txs[id].producer.Published? && t'.txs[id] == t.txs[id].(producer := t'.txs[id].producer)
            && IsWithout(t.txs[id].producer.owners, conn, t'.txs[id].producer.owners))
  {
    if t.txs[id].producer.Published? {
      WithoutIs(t.txs[id].producer.owners, conn);
      NobodyLeftIff(t.txs[id].producer.owners, conn);
    }
  }

  /** After a revocation that succeeds the entry is gone, and only it; it fails for clips alone. */
  lemma RevokeIff(t: Table, id: TxId)
    ensures Revoke(t, id).Ok? <==> (id in t.txs ==> t.txs[id].producer.Published?)
    ensures Revoke(t, id).Ok? ==> id !in Revoke(t, id).value.txs && OnlyChanges(t, Revoke(t, id).value, id)
    ensures Revoke(t, id).Err? ==> Revoke(t, id).error == InvalidParams
  {
  }

  lemma EvictIff(t: Table, id: TxId)
    ensures OnlyChanges(t, Evict(t, id), id)
    ensures id in Evict(t, id).txs <==> id in t.txs && t.txs[id].producer.Clipboard?
    ensures id in Evict(t, id).txs ==> Evict(t, id).txs[id] == t.txs[id]
  {
  }

  // ----- Adoptions --------------------------------------------------------------------------------

  /** Where `value` first stands in `all`. */
  function FirstAt(all: seq<ConnId>, value: ConnId): nat {
    if all == [] || all[0] == value then 0 else 1 + FirstAt(all[1..], value)
  }

  /** `joined` are those of `joining` who are not among `owners`, each once, in the order they come in. */
  ghost predicate AreNew(owners: seq<ConnId>, joining: seq<ConnId>, joined: seq<ConnId>) {
    && (forall c :: c in joined <==> c in joining && c !in owners)
    && (forall i, j :: 0 <= i < j < |joined| ==> FirstAt(joining, joined[i]) < FirstAt(joining, joined[j]))
  }

  lemma FirstAtNext(first: ConnId, joining: seq<ConnId>, value: ConnId)
    requires value != first
    ensures FirstAt([first] + joining, value) == 1 + FirstAt(joining, value)
  {
    assert ([first] + joining)[1..] == joining;
  }

  lemma SkipsOld(owners: seq<ConnId>, first: ConnId, joining: seq<ConnId>, joined: seq<ConnId>)
    requires first in owners && AreNew(owners, joining, joined)
    ensures AreNew(owners, [first] + joining, joined)
  {
    forall i, j | 0 <= i < j < |joined| ensures FirstAt([first] + joining, joined[i]) < FirstAt([first] + joining, joined[j]) {
      assert joined[i] in joined && joined[j] in joined;
      FirstAtNext(first, joining, joined[i]);
      FirstAtNext(first, joining, joined[j]);
    }
  }

  lemma AddsNew(owners: seq<ConnId>, first: ConnId, joining: seq<ConnId>, joined: seq<ConnId>)
    requires first !in owners && AreNew(owners + [first], joining, joined)
    ensures AreNew(owners, [first] + joining, [first] + joined)
  {
    var more, all := [first] + joining, [first] + joined;
    forall i, j | 0 <= i < j < |all| ensures FirstAt(more, all[i]) < FirstAt(more, all[j]) {
      assert all[j] == joined[j - 1] && joined[j - 1] in joined;
      FirstAtNext(first, joining, all[j]);
      if i > 0 {
        assert all[i] == joined[i - 1] && joined[i - 1] in joined;
        FirstAtNext(first, joining, all[i]);
      }
    }
  }

  lemma {:induction false} JoinedIs(owners: seq<ConnId>, joining: seq<ConnId>) returns (joined: seq<ConnId>)
    ensures Joined(owners, joining) == owners + joined && AreNew(owners, joining, joined)
    decreases joining
  {
    if joining == [] {
      joined := [];
    } else {
      var first, rest := joining[0], joining[1..];
      assert joining == [first] + rest;
      if first in owners {
        joined := JoinedIs(owners, rest);
        SkipsOld(owners, first, rest, joined);
      } else {
        var more := JoinedIs(owners + [first], rest);
        AddsNew(owners, first, rest, more);
        joined := [first] + more;
        assert owners + [first] + more == owners + joined;
      }
    }
  }

  /** The owners there were, then those who are new among the joining. */
  ghost predicate IsJoined(owners: seq<ConnId>, joining: seq<ConnId>, all: seq<ConnId>) {
    owners <= all && AreNew(owners, joining, all[|owners|..])
  }

  /**
   An adopted id that is new is installed as it is; a second adopter joins the owners; what
   this Core published stays untouched; a clip's id is refused.
   */
  lemma AdoptIs(t: Table, tx: Tx)
    requires tx.producer.Published?
    ensures match Adopt(t, tx)
      case Err(e) => e == TxStale && tx.id in t.txs && t.txs[tx.id].producer.Clipboard?
      case Ok(t') =>
        && OnlyChanges(t, t', tx.id) && tx.id in t'.txs
        && (tx.id in t.txs ==> t.txs[tx.id].producer.Published?)
        && var after := t'.txs[tx.id];
           if tx.id !in t.txs then after == tx
           else if t.txs[tx.id].origin.Local? then after == t.txs[tx.id]
           else after.producer.Published? && after == t.txs[tx.id].(producer := after.producer)
                && IsJoined(t.txs[tx.id].producer.owners, tx.producer.owners, after.producer.owners)
  {
    if tx.id in t.txs && t.txs[tx.id].producer.Published? {
      var owners := t.txs[tx.id].producer.owners;
      var joined := JoinedIs(owners, tx.producer.owners);
      assert (owners + joined)[|owners|..] == joined;
    }
  }
}
