/**
 The transaction table of one Core (core/src/clipboard.rs).

 Identifiers (transactions, connections, devices) are numbers: the code only
 compares them for equality, and devices for the order of the election.
 */
module ClipboardTable {
  import opened Wrappers

  type TxId = nat
  type ConnId = nat
  type DeviceId = nat

  const U64_MAX: nat := 0xFFFF_FFFF_FFFF_FFFF

  datatype Origin = Local(announcer: ConnId) | Remote(node: nat, device: DeviceId)

  datatype Producer = Clipboard | Published(owners: seq<ConnId>)

  datatype ServeMode = ServeLocal | ServeRemote(node: nat, device: DeviceId)

  datatype Tx = Tx(
    id: TxId, device: Option<DeviceId>, stamp: nat, producer: Producer, origin: Origin,
    superseded: bool, sessions: nat, materialized: bool)

  /** The election key `(seq, device_id)`; `None` sorts below every device. */
  datatype Key = Key(stamp: nat, device: Option<DeviceId>)

  function DeviceRank(d: Option<DeviceId>): nat {
    match d
    case None => 0
    case Some(n) => n + 1
  }

  predicate Below(a: Key, b: Key) {
    a.stamp < b.stamp || (a.stamp == b.stamp && DeviceRank(a.device) < DeviceRank(b.device))
  }

  function KeyOf(tx: Tx): Key {
    Key(tx.stamp, tx.device)
  }

  datatype Error = TxStale | InvalidParams

  datatype Table = Table(current: Option<TxId>, txs: map<TxId, Tx>)

  const EMPTY := Table(None, map[])

  // ----- The operations, as functions of the table -------------------------

  predicate HasCurrent(t: Table) {
    t.current.Some? && t.current.value in t.txs
  }

  function CurrentStamp(t: Table): nat {
    if HasCurrent(t) then t.txs[t.current.value].stamp else 0
  }

  function SaturatingSucc(n: nat): nat {
    if n < U64_MAX then n + 1 else n
  }

  function LocalStamp(t: Table, now: nat): nat {
    var floor := SaturatingSucc(CurrentStamp(t));
    if now < floor then floor else now
  }

  function Supersede(t: Table): Table {
    if !HasCurrent(t) then Table(None, t.txs)
    else
      var prev := t.current.value;
      var tx := t.txs[prev];
      if tx.sessions == 0 then Table(None, t.txs - {prev})
      else Table(None, t.txs[prev := tx.(superseded := true)])
  }

  function Install(t: Table, tx: Tx): Table {
    Table(Some(tx.id), Supersede(t).txs[tx.id := tx])
  }

  function AnnounceLocal(t: Table, tx: Tx, now: nat): Table {
    Install(t, tx.(stamp := LocalStamp(t, now)))
  }

  /** Would a remote announce be adopted? */
  predicate Wins(t: Table, tx: Tx) {
    && tx.id !in t.txs
    && (HasCurrent(t) ==> Below(KeyOf(t.txs[t.current.value]), KeyOf(tx)))
  }

  function AnnounceRemote(t: Table, tx: Tx): Table {
    if Wins(t, tx) then Install(t, tx) else t
  }

  function Begin(t: Table, id: TxId): Table {
    if id in t.txs then t.(txs := t.txs[id := t.txs[id].(sessions := t.txs[id].sessions + 1)]) else t
  }

  function ModeOf(tx: Tx): ServeMode {
    if tx.materialized then ServeLocal
    else
      match tx.origin
      case Local(_) => ServeLocal
      case Remote(n, d) => ServeRemote(n, d)
  }

  function End(t: Table, id: TxId): Table {
    if id !in t.txs then t
    else
      var tx := t.txs[id];
      var left := if tx.sessions == 0 then 0 else tx.sessions - 1;
      if tx.superseded && left == 0 then t.(txs := t.txs - {id})
      else t.(txs := t.txs[id := tx.(sessions := left)])
  }

  /** `spare` stands for the identifier minted when the first one collides. */
  function Publish(t: Table, tx: Tx, spare: TxId): Table {
    var id := if tx.id in t.txs then spare else tx.id;
    t.(txs := t.txs[id := tx.(id := id)])
  }

  /** `owners` followed by the members of `joining` it lacks, in order. */
  function Joined(owners: seq<ConnId>, joining: seq<ConnId>): seq<ConnId>
    decreases joining
  {
    if joining == [] then owners
    else if joining[0] in owners then Joined(owners, joining[1..])
    else Joined(owners + [joining[0]], joining[1..])
  }

  function Adopt(t: Table, tx: Tx): Result<Table, Error> {
    if tx.id !in t.txs then Ok(t.(txs := t.txs[tx.id := tx]))
    else
      var known := t.txs[tx.id];
      match (known.producer, known.origin)
      case (Published(owners), Remote(_, _)) =>
        if tx.producer.Published? then
          Ok(t.(txs := t.txs[tx.id := known.(producer := Published(Joined(owners, tx.producer.owners)))]))
        else Ok(t)
      case (Published(_), Local(_)) => Ok(t)
      case (Clipboard, _) => Err(TxStale)
  }

  function Revoke(t: Table, id: TxId): Result<Table, Error> {
    if id !in t.txs then Ok(t)
    else if t.txs[id].producer.Published? then Ok(t.(txs := t.txs - {id}))
    else Err(InvalidParams)
  }

  function Without(owners: seq<ConnId>, conn: ConnId): seq<ConnId> {
    if owners == [] then []
    else if owners[0] == conn then Without(owners[1..], conn)
    else [owners[0]] + Without(owners[1..], conn)
  }

  predicate Keeps(tx: Tx, conn: ConnId) {
    tx.producer.Published? ==> Without(tx.producer.owners, conn) != []
  }

  function Withdrawn(tx: Tx, conn: ConnId): Tx {
    if tx.producer.Published? then tx.(producer := Published(Without(tx.producer.owners, conn))) else tx
  }

  function RevokeOwnedBy(t: Table, conn: ConnId): Table {
    t.(txs := map id | id in t.txs && Keeps(t.txs[id], conn) :: Withdrawn(t.txs[id], conn))
  }

  function Evict(t: Table, id: TxId): Table {
    if id in t.txs && t.txs[id].producer.Published? then t.(txs := t.txs - {id}) else t
  }

  // ----- The stateful object -------------------------------------------------

  class ClipboardState {
    var current: Option<TxId>
    var transactions: map<TxId, Tx>

    function View(): Table
      reads this
    {
      Table(current, transactions)
    }

    constructor ()
      ensures View() == EMPTY
    {
      current := None;
      transactions := map[];
    }

    method SupersedeCurrent()
      modifies this
      ensures View() == Supersede(old(View()))
    {
      if current.Some? {
        var prev := current.value;
        current := None;
        if prev in transactions {
          var tx := transactions[prev].(superseded := true);
          transactions := transactions[prev := tx];
          if tx.sessions == 0 {
            transactions := transactions - {prev};
          }
        }
      }
    }

    method AnnounceLocalTx(tx: Tx, now: nat) returns (id: TxId)
      modifies this
      ensures id == tx.id
      ensures View() == AnnounceLocal(old(View()), tx, now)
    {
      var floor := 0;
      if current.Some? && current.value in transactions {
        floor := transactions[current.value].stamp;
      }
      if floor < U64_MAX {
        floor := floor + 1;
      }
      id := tx.id;
      var stamped := tx.(stamp := if now < floor then floor else now);
      SupersedeCurrent();
      transactions := transactions[id := stamped];
      current := Some(id);
    }

    method AnnounceRemoteTx(tx: Tx) returns (adopted: Option<TxId>)
      modifies this
      ensures adopted == if Wins(old(View()), tx) then Some(tx.id) else None
      ensures View() == AnnounceRemote(old(View()), tx)
    {
      if tx.id in transactions {
        return None;
      }
      if current.Some? && current.value in transactions {
        var cur := transactions[current.value];
        if tx.stamp < cur.stamp
           || (tx.stamp == cur.stamp && DeviceRank(tx.device) <= DeviceRank(cur.device)) {
          return None;
        }
      }
      SupersedeCurrent();
      transactions := transactions[tx.id := tx];
      current := Some(tx.id);
      return Some(tx.id);
    }

    method BeginSession(id: TxId) returns (mode: Option<ServeMode>)
      modifies this
      ensures View() == Begin(old(View()), id)
      ensures mode == if id in old(transactions) then Some(ModeOf(old(transactions)[id])) else None
    {
      if id !in transactions {
        return None;
      }
      var tx := transactions[id];
      transactions := transactions[id := tx.(sessions := tx.sessions + 1)];
      if tx.materialized {
        return Some(ServeLocal);
      }
      match tx.origin
      case Local(_) => return Some(ServeLocal);
      case Remote(n, d) => return Some(ServeRemote(n, d));
    }

    method EndSession(id: TxId)
      modifies this
      ensures View() == End(old(View()), id)
    {
      if id in transactions {
        var tx := transactions[id];
        if tx.sessions > 0 {
          tx := tx.(sessions := tx.sessions - 1);
        }
        transactions := transactions[id := tx];
        if tx.superseded && tx.sessions == 0 {
          transactions := transactions - {id};
        }
      }
    }

    method PublishTx(tx: Tx, spare: TxId) returns (id: TxId)
      requires spare !in transactions
      modifies this
      ensures id !in old(transactions)
      ensures View() == Publish(old(View()), tx, spare)
    {
      id := tx.id;
      if id in transactions {
        id := spare;
      }
      transactions := transactions[id := tx.(id := id)];
    }

    method InstallAdopted(tx: Tx) returns (r: Result<(), Error>)
      modifies this
      ensures r.Ok? == Adopt(old(View()), tx).Ok?
      ensures r.Ok? ==> View() == Adopt(old(View()), tx).value
      ensures r.Err? ==> r.error == Adopt(old(View()), tx).error && View() == old(View())
    {
      if tx.id in transactions {
        var existing := transactions[tx.id];
        match existing.producer
        case Clipboard => return Err(TxStale);
        case Published(owners) =>
          if existing.origin.Remote? && tx.producer.Published? {
            var joining := tx.producer.owners;
            var all := owners;
            var i := 0;
            while i < |joining|
              invariant 0 <= i <= |joining|
              invariant Joined(all, joining[i..]) == Joined(owners, joining)
            {
              if joining[i] !in all {
                all := all + [joining[i]];
              }
              i := i + 1;
            }
            transactions := transactions[tx.id := existing.(producer := Published(all))];
          }
          return Ok(());
      }
      transactions := transactions[tx.id := tx];
      return Ok(());
    }

    method RevokeTx(id: TxId) returns (r: Result<bool, Error>)
      modifies this
      ensures r.Ok? == Revoke(old(View()), id).Ok?
      ensures r.Ok? ==> View() == Revoke(old(View()), id).value && (r.value <==> id in old(transactions))
      ensures r.Err? ==> r.error == Revoke(old(View()), id).error && View() == old(View())
    {
      if id !in transactions {
        return Ok(false);
      }
      if transactions[id].producer.Published? {
        transactions := transactions - {id};
        return Ok(true);
      }
      return Err(InvalidParams);
    }

    /** Withdraws `conn` everywhere; `removed` says whether an entry died. */
    method RevokeAllOwnedBy(conn: ConnId) returns (removed: bool)
      modifies this
      ensures View() == RevokeOwnedBy(old(View()), conn)
      ensures removed <==> exists id :: id in old(transactions) && id !in transactions
    {
      var todo := transactions.Keys;
      var kept: map<TxId, Tx> := map[];
      removed := false;
      while todo != {}
        invariant todo <= transactions.Keys
        invariant transactions == old(transactions) && current == old(current)
        invariant kept == map id | id in transactions && id !in todo && Keeps(transactions[id], conn)
                          :: Withdrawn(transactions[id], conn)
        invariant removed <==> exists id :: id in transactions && id !in todo && id !in kept
        decreases todo
      {
        var id :| id in todo;
        todo := todo - {id};
        if Keeps(transactions[id], conn) {
          kept := kept[id := Withdrawn(transactions[id], conn)];
        } else {
          removed := true;
        }
      }
      transactions := kept;
    }

    method EvictPublished(id: TxId) returns (removed: bool)
      modifies this
      ensures View() == Evict(old(View()), id)
      ensures removed <==> id in old(transactions) && id !in transactions
    {
      if id in transactions && transactions[id].producer.Published? {
        transactions := transactions - {id};
        return true;
      }
      return false;
    }

    method ClearAll()
      modifies this
      ensures View() == EMPTY
    {
      current := None;
      transactions := map[];
    }
  }
}
