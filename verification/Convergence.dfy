/**
 The last-copier-wins election over any number of Cores (core/src/clipnet.rs
 `propagate`, `recv_announce`; core/src/clipboard.rs `announce_local`,
 `announce_remote`).

 The network is the set of announces ever sent. Any of them may reach any Core at
 any moment, any number of times, in any order, or never: that is loss,
 duplication and reordering in one. Resets are not steps here: `clear_all` forgets
 the floor, so the election is claimed between resets.
 */
module Convergence {
  import opened Wrappers
  import opened ClipboardTable
  import opened SessionWorld

  type CoreId = DeviceId

  datatype Announce = Announce(id: TxId, key: Key, maker: CoreId)

  /** `seen`: the announces this Core made or processed. */
  datatype Core = Core(table: Table, seen: set<Announce>)

  /** `made`: every announce of every Core; `sent`: those that left their maker. */
  datatype Net = Net(cores: map<CoreId, Core>, made: set<Announce>, sent: set<Announce>, published: set<TxId>)

  datatype Event =
    | Copy(core: CoreId, tx: Tx, now: nat)
    | Deliver(core: CoreId, a: Announce, tx: Tx)
    | Manage(core: CoreId, op: Op)
    | BeginOn(core: CoreId, id: TxId)
    | EndOn(core: CoreId, id: TxId)

  /** The announce a local copy makes: the device is the maker's, or absent when logged out. */
  function Made(n: Net, e: Event): Announce
    requires e.Copy? && e.core in n.cores
  {
    Announce(e.tx.id, Key(LocalStamp(n.cores[e.core].table, e.now), e.tx.device), e.core)
  }

  predicate KnownId(n: Net, id: TxId) {
    id in n.published || exists a :: a in n.made && a.id == id
  }

  ghost predicate Enabled(n: Net, e: Event) {
    && e.core in n.cores
    && match e
       case Copy(c, tx, now) =>
         && CallerBuilds(LocalCopy(tx, now))
         && (tx.device.Some? ==> tx.device.value == c)
         && !KnownId(n, tx.id)
         && CurrentStamp(n.cores[c].table) < U64_MAX
       case Deliver(c, a, tx) =>
         && a in n.sent
         && CallerBuilds(RemoteCopy(tx))
         && tx.id == a.id && KeyOf(tx) == a.key
       case Manage(c, op) =>
         && !op.LocalCopy? && !op.RemoteCopy? && !op.ResetAll?
         && CallerBuilds(op) && MintsFresh(n.cores[c].table, op)
         && (Installed(n.cores[c].table, op).Some? ==>
               forall a <- n.made :: a.id != Installed(n.cores[c].table, op).value)
       case BeginOn(_, _) => true
       case EndOn(_, _) => true
  }

  ghost function Next(n: Net, e: Event): Net
    requires Enabled(n, e)
  {
    var core := n.cores[e.core];
    match e
    case Copy(c, tx, now) =>
      var a := Made(n, e);
      Net(n.cores[c := Core(AnnounceLocal(core.table, tx, now), core.seen + {a})],
          n.made + {a}, if tx.device.Some? then n.sent + {a} else n.sent, n.published)
    case Deliver(c, a, tx) =>
      n.(cores := n.cores[c := Core(AnnounceRemote(core.table, tx), core.seen + {a})])
    case Manage(c, op) =>
      var id := Installed(core.table, op);
      n.(cores := n.cores[c := core.(table := Apply(core.table, op))],
         published := if id.Some? then n.published + {id.value} else n.published)
    case BeginOn(c, id) => n.(cores := n.cores[c := core.(table := Begin(core.table, id))])
    case EndOn(c, id) => n.(cores := n.cores[c := core.(table := End(core.table, id))])
  }

  predicate Initial(n: Net) {
    n.made == {} && n.sent == {} && n.published == {} && forall c <- n.cores :: n.cores[c] == Core(EMPTY, {})
  }

  // ----- The order ------------------------------------------------------------

  lemma BelowIsStrictTotal(a: Key, b: Key, c: Key)
    ensures !Below(a, a)
    ensures Below(a, b) && Below(b, c) ==> Below(a, c)
    ensures a == b || Below(a, b) || Below(b, a)
  {
  }

  /**
   A local copy outranks the clip it replaces exactly when the floor still had
   room, or the copier's device is the higher one at a clip already at the ceiling.
   */
  lemma LocalCopyOutranksIff(t: Table, tx: Tx, now: nat)
    requires TableInv(t) && HasCurrent(t) && now <= U64_MAX && CurrentStamp(t) <= U64_MAX
    ensures Below(KeyOf(t.txs[t.current.value]), KeyOf(AnnounceLocal(t, tx, now).txs[tx.id])) <==>
            || CurrentStamp(t) < U64_MAX
            || DeviceRank(t.txs[t.current.value].device) < DeviceRank(tx.device)
  {
  }

  // ----- The invariant --------------------------------------------------------

  /** `a` is the current clip of the Core, above everything else it saw. */
  predicate Elected(core: Core, a: Announce) {
    && a in core.seen
    && core.table.current == Some(a.id)
    && a.id in core.table.txs && KeyOf(core.table.txs[a.id]) == a.key
    && forall b <- core.seen :: b == a || Below(b.key, a.key)
  }

  ghost predicate CoreInv(core: Core) {
    && TableInv(core.table)
    && if core.seen == {} then core.table.current == None else exists a :: Elected(core, a)
  }

  /** Clips in the table are announces this Core saw; the rest was published. */
  ghost predicate Accounted(core: Core, published: set<TxId>) {
    forall id <- core.table.txs ::
      if core.table.txs[id].producer.Clipboard? then exists a :: a in core.seen && a.id == id
      else id in published
  }

  ghost predicate DistinctIds(made: set<Announce>, published: set<TxId>) {
    && (forall a <- made, b <- made :: a.id == b.id ==> a == b)
    && (forall a <- made :: a.id !in published)
  }

  ghost predicate DistinctStamps(made: set<Announce>) {
    forall a <- made, b <- made :: a.maker == b.maker && a.key.stamp == b.key.stamp ==> a == b
  }

  ghost predicate MakersSaw(cores: map<CoreId, Core>, made: set<Announce>) {
    forall a <- made :: a.maker in cores && a in cores[a.maker].seen
  }

  ghost predicate MakersNamed(made: set<Announce>, sent: set<Announce>) {
    && (forall a <- made :: a.key.device == None || a.key.device == Some(a.maker))
    && sent <= made
    && (forall a <- sent :: a.key.device == Some(a.maker))
  }

  ghost predicate Unique(n: Net) {
    && DistinctIds(n.made, n.published)
    && DistinctStamps(n.made)
    && MakersSaw(n.cores, n.made)
    && MakersNamed(n.made, n.sent)
  }

  ghost predicate CoreOk(core: Core, c: CoreId, made: set<Announce>, published: set<TxId>) {
    && CoreInv(core)
    && Accounted(core, published)
    && core.seen <= made
    && (forall a <- core.seen :: a.maker != c ==> a.key.device == Some(a.maker))
  }

  ghost predicate Inv(n: Net) {
    && Unique(n)
    && forall c <- n.cores :: CoreOk(n.cores[c], c, n.made, n.published)
  }

  // ----- One Core at a time ----------------------------------------------------

  lemma InstallElects(core: Core, tx: Tx, a: Announce)
    requires CoreInv(core) && CallerBuilds(RemoteCopy(tx))
    requires tx.id == a.id && KeyOf(tx) == a.key && tx.id !in core.table.txs
    requires forall b <- core.seen :: Below(b.key, a.key)
    ensures CoreInv(Core(Install(core.table, tx), core.seen + {a}))
  {
    assert Elected(Core(Install(core.table, tx), core.seen + {a}), a);
  }

  lemma InstallAccounts(core: Core, tx: Tx, a: Announce, published: set<TxId>)
    requires Accounted(core, published) && tx.producer.Clipboard? && tx.id == a.id
    ensures Accounted(Core(Install(core.table, tx), core.seen + {a}), published)
  {
    var core' := Core(Install(core.table, tx), core.seen + {a});
    forall id <- core'.table.txs | core'.table.txs[id].producer.Clipboard?
      ensures exists b :: b in core'.seen && b.id == id
    {
      if id == tx.id {
        assert a in core'.seen;
      } else {
        var b :| b in core.seen && b.id == id;
        assert b in core'.seen;
      }
    }
  }

  /** The floor puts a local copy above everything its Core has seen. */
  lemma CopyIsNewest(core: Core, now: nat, device: Option<DeviceId>)
    requires CoreInv(core) && CurrentStamp(core.table) < U64_MAX
    ensures forall b <- core.seen :: b.key.stamp < LocalStamp(core.table, now)
  {
    if core.seen != {} {
      var cur :| Elected(core, cur);
    }
  }

  /** Processing an announce elects the greater of it and the current clip. */
  lemma DeliverElects(core: Core, tx: Tx, a: Announce)
    requires CoreInv(core) && CallerBuilds(RemoteCopy(tx)) && tx.id == a.id && KeyOf(tx) == a.key
    requires a.id in core.table.txs ==> a in core.seen
    requires forall b <- core.seen :: b == a || b.key != a.key
    ensures CoreInv(Core(AnnounceRemote(core.table, tx), core.seen + {a}))
  {
    var core' := Core(AnnounceRemote(core.table, tx), core.seen + {a});
    if core.seen == {} {
      InstallElects(core, tx, a);
    } else {
      var cur :| Elected(core, cur);
      if a !in core.seen && Below(cur.key, a.key) {
        InstallElects(core, tx, a);
      } else {
        assert !Wins(core.table, tx);
        assert Elected(core', cur);
      }
    }
  }

  lemma ManageElects(core: Core, table: Table)
    requires CoreInv(core) && TableInv(table) && table.current == core.table.current
    requires HasCurrent(core.table) ==>
               HasCurrent(table)
               && KeyOf(table.txs[table.current.value]) == KeyOf(core.table.txs[core.table.current.value])
    ensures CoreInv(Core(table, core.seen))
  {
    if core.seen != {} {
      var cur :| Elected(core, cur);
      assert Elected(Core(table, core.seen), cur);
    }
  }

  lemma CopyCore(core: Core, c: CoreId, tx: Tx, now: nat, a: Announce, made: set<Announce>, published: set<TxId>)
    requires CoreOk(core, c, made, published) && CallerBuilds(LocalCopy(tx, now))
    requires CurrentStamp(core.table) < U64_MAX && tx.id !in core.table.txs
    requires a == Announce(tx.id, Key(LocalStamp(core.table, now), tx.device), c)
    ensures CoreOk(Core(AnnounceLocal(core.table, tx, now), core.seen + {a}), c, made + {a}, published)
  {
    var stamped := tx.(stamp := LocalStamp(core.table, now));
    CopyIsNewest(core, now, tx.device);
    InstallElects(core, stamped, a);
    InstallAccounts(core, stamped, a, published);
  }

  lemma DeliverCore(core: Core, c: CoreId, tx: Tx, a: Announce, made: set<Announce>, published: set<TxId>)
    requires CoreOk(core, c, made, published) && CallerBuilds(RemoteCopy(tx))
    requires tx.id == a.id && KeyOf(tx) == a.key && a in made && a.key.device == Some(a.maker)
    requires a.id in core.table.txs ==> a in core.seen
    requires forall b <- core.seen :: b == a || b.key != a.key
    ensures CoreOk(Core(AnnounceRemote(core.table, tx), core.seen + {a}), c, made, published)
  {
    DeliverElects(core, tx, a);
    if Wins(core.table, tx) {
      InstallAccounts(core, tx, a, published);
    } else {
      WiderAccounts(core, core.seen + {a}, published, published);
    }
  }

  lemma WiderAccounts(core: Core, seen: set<Announce>, published: set<TxId>, published': set<TxId>)
    requires Accounted(core, published) && core.seen <= seen && published <= published'
    ensures Accounted(core.(seen := seen), published')
  {
    forall id <- core.table.txs | core.table.txs[id].producer.Clipboard?
      ensures exists b :: b in seen && b.id == id
    {
      var b :| b in core.seen && b.id == id;
      assert b in seen;
    }
  }

  lemma ManageCore(core: Core, c: CoreId, op: Op, made: set<Announce>, published: set<TxId>)
    requires CoreOk(core, c, made, published)
    requires !op.LocalCopy? && !op.RemoteCopy? && !op.ResetAll?
    requires CallerBuilds(op) && MintsFresh(core.table, op)
    ensures var id := Installed(core.table, op);
            CoreOk(core.(table := Apply(core.table, op)), c, made, if id.Some? then published + {id.value} else published)
  {
    ApplyKeepsTable(core.table, op);
    ManageElects(core, Apply(core.table, op));
  }

  lemma OpenCore(core: Core, c: CoreId, id: TxId, made: set<Announce>, published: set<TxId>)
    requires CoreOk(core, c, made, published)
    ensures CoreOk(core.(table := Begin(core.table, id)), c, made, published)
  {
    ManageElects(core, Begin(core.table, id));
  }

  lemma CloseCore(core: Core, c: CoreId, id: TxId, made: set<Announce>, published: set<TxId>)
    requires CoreOk(core, c, made, published)
    ensures CoreOk(core.(table := End(core.table, id)), c, made, published)
  {
    ManageElects(core, End(core.table, id));
  }

  // ----- The whole network -----------------------------------------------------

  lemma NewStampIsDistinct(cores: map<CoreId, Core>, made: set<Announce>, a: Announce)
    requires DistinctStamps(made) && MakersSaw(cores, made) && a.maker in cores
    requires forall b <- cores[a.maker].seen :: b.key.stamp < a.key.stamp
    ensures DistinctStamps(made + {a})
  {
  }

  lemma MakersStillSaw(cores: map<CoreId, Core>, made: set<Announce>, c: CoreId, core': Core, a: Announce)
    requires MakersSaw(cores, made) && c in cores && cores[c].seen <= core'.seen
    ensures MakersSaw(cores[c := core'], made)
    ensures a.maker == c && a in core'.seen ==> MakersSaw(cores[c := core'], made + {a})
  {
  }

  lemma ReplaceCore(n: Net, n': Net, c: CoreId, core': Core)
    requires Inv(n) && Unique(n') && c in n.cores
    requires n.made <= n'.made && n.published <= n'.published && n'.cores == n.cores[c := core']
    requires CoreOk(core', c, n'.made, n'.published)
    ensures Inv(n')
  {
    forall d <- n'.cores ensures CoreOk(n'.cores[d], d, n'.made, n'.published) {
      if d != c {
        assert CoreOk(n.cores[d], d, n.made, n.published);
        WiderAccounts(n.cores[d], n.cores[d].seen, n.published, n'.published);
      }
    }
  }

  /** A sent announce is new to a Core's table, or already seen; and no seen one shares its key. */
  lemma DeliveredIsDistinct(n: Net, c: CoreId, a: Announce)
    requires Inv(n) && c in n.cores && a in n.sent
    ensures a.id in n.cores[c].table.txs ==> a in n.cores[c].seen
    ensures forall b <- n.cores[c].seen :: b == a || b.key != a.key
  {
    assert CoreOk(n.cores[c], c, n.made, n.published);
  }

  lemma CopyKeepsUnique(n: Net, e: Event)
    requires Unique(n) && Enabled(n, e) && e.Copy?
    requires CoreInv(n.cores[e.core])
    ensures Unique(Next(n, e))
  {
    var core, a, n' := n.cores[e.core], Made(n, e), Next(n, e);
    assert DistinctIds(n'.made, n'.published);
    assert DistinctStamps(n'.made) by {
      CopyIsNewest(core, e.now, e.tx.device);
      NewStampIsDistinct(n.cores, n.made, a);
    }
    assert MakersSaw(n'.cores, n'.made) by {
      MakersStillSaw(n.cores, n.made, e.core, n'.cores[e.core], a);
    }
  }

  lemma CopyIdIsNew(n: Net, e: Event)
    requires Inv(n) && Enabled(n, e) && e.Copy?
    ensures e.tx.id !in n.cores[e.core].table.txs
  {
    assert CoreOk(n.cores[e.core], e.core, n.made, n.published);
    if e.tx.id in n.cores[e.core].table.txs {
      assert KnownId(n, e.tx.id);
    }
  }

  lemma CopyKeeps(n: Net, e: Event)
    requires Inv(n) && Enabled(n, e) && e.Copy?
    ensures Inv(Next(n, e))
  {
    var core, n' := n.cores[e.core], Next(n, e);
    assert CoreOk(core, e.core, n.made, n.published);
    CopyKeepsUnique(n, e);
    CopyIdIsNew(n, e);
    CopyCore(core, e.core, e.tx, e.now, Made(n, e), n.made, n.published);
    ReplaceCore(n, n', e.core, n'.cores[e.core]);
  }

  lemma DeliverKeeps(n: Net, e: Event)
    requires Inv(n) && Enabled(n, e) && e.Deliver?
    ensures Inv(Next(n, e))
  {
    var core, n' := n.cores[e.core], Next(n, e);
    assert CoreOk(core, e.core, n.made, n.published);
    DeliveredIsDistinct(n, e.core, e.a);
    DeliverCore(core, e.core, e.tx, e.a, n.made, n.published);
    MakersStillSaw(n.cores, n.made, e.core, n'.cores[e.core], e.a);
    ReplaceCore(n, n', e.core, n'.cores[e.core]);
  }

  lemma ManageKeepsUnique(n: Net, e: Event)
    requires Unique(n) && Enabled(n, e) && e.Manage?
    ensures Unique(Next(n, e))
  {
    var n' := Next(n, e);
    assert n'.made == n.made && n'.sent == n.sent;
    assert DistinctIds(n'.made, n'.published);
    assert MakersSaw(n'.cores, n'.made);
  }

  lemma ManageKeeps(n: Net, e: Event)
    requires Inv(n) && Enabled(n, e) && e.Manage?
    ensures Inv(Next(n, e))
  {
    var core, n' := n.cores[e.core], Next(n, e);
    assert CoreOk(core, e.core, n.made, n.published);
    ManageCore(core, e.core, e.op, n.made, n.published);
    ManageKeepsUnique(n, e);
    ReplaceCore(n, n', e.core, core.(table := Apply(core.table, e.op)));
  }

  /** A change of one table that leaves what its Core saw. */
  lemma TableChanges(n: Net, c: CoreId, core': Core)
    requires Inv(n) && c in n.cores && core'.seen == n.cores[c].seen && CoreOk(core', c, n.made, n.published)
    ensures Inv(n.(cores := n.cores[c := core']))
  {
    var n' := n.(cores := n.cores[c := core']);
    assert MakersSaw(n'.cores, n'.made);
    ReplaceCore(n, n', c, core');
  }

  lemma SessionKeeps(n: Net, e: Event)
    requires Inv(n) && Enabled(n, e) && (e.BeginOn? || e.EndOn?)
    ensures Inv(Next(n, e))
  {
    var core := n.cores[e.core];
    assert CoreOk(core, e.core, n.made, n.published);
    if e.BeginOn? {
      OpenCore(core, e.core, e.id, n.made, n.published);
      TableChanges(n, e.core, core.(table := Begin(core.table, e.id)));
    } else {
      CloseCore(core, e.core, e.id, n.made, n.published);
      TableChanges(n, e.core, core.(table := End(core.table, e.id)));
    }
  }

  lemma NextKeeps(n: Net, e: Event)
    requires Inv(n) && Enabled(n, e)
    ensures Inv(Next(n, e))
  {
    match e
    case Copy(_, _, _) => CopyKeeps(n, e);
    case Deliver(_, _, _) => DeliverKeeps(n, e);
    case Manage(_, _) => ManageKeeps(n, e);
    case _ => SessionKeeps(n, e);
  }

  // ----- Runs -----------------------------------------------------------------

  ghost predicate IsRun(n: Net, events: seq<Event>)
    decreases events
  {
    events == [] || (Enabled(n, events[0]) && IsRun(Next(n, events[0]), events[1..]))
  }

  ghost function After(n: Net, events: seq<Event>): Net
    requires IsRun(n, events)
    decreases events
  {
    if events == [] then n else After(Next(n, events[0]), events[1..])
  }

  lemma {:induction false} RunsKeepInv(n: Net, events: seq<Event>)
    requires Inv(n) && IsRun(n, events)
    ensures Inv(After(n, events))
    decreases events
  {
    if events != [] {
      NextKeeps(n, events[0]);
      RunsKeepInv(Next(n, events[0]), events[1..]);
    }
  }

  /**
   In every run, a Core that made or processed any announce has as its current clip
   the greatest of them by `(seq, device_id)`.
   */
  lemma CurrentIsTheMaximum(n: Net, events: seq<Event>, c: CoreId)
    requires Initial(n) && IsRun(n, events) && c in After(n, events).cores
    ensures var core := After(n, events).cores[c];
            if core.seen == {} then core.table.current == None
            else exists a :: Elected(core, a)
  {
    RunsKeepInv(n, events);
  }

  lemma SameSeenSameClip(x: Core, y: Core)
    requires CoreInv(x) && CoreInv(y) && x.seen == y.seen
    ensures x.table.current == y.table.current
  {
    if x.seen != {} {
      var a :| Elected(x, a);
      var b :| Elected(y, b);
      BelowIsStrictTotal(a.key, b.key, a.key);
    }
  }

  /** Two Cores that made or processed the same announces hold the same clip. */
  lemma SameAnnouncesSameClip(n: Net, events: seq<Event>, c: CoreId, d: CoreId)
    requires Initial(n) && IsRun(n, events)
    requires c in After(n, events).cores && d in After(n, events).cores
    requires After(n, events).cores[c].seen == After(n, events).cores[d].seen
    ensures After(n, events).cores[c].table.current == After(n, events).cores[d].table.current
  {
    RunsKeepInv(n, events);
    var n' := After(n, events);
    assert CoreOk(n'.cores[c], c, n'.made, n'.published);
    assert CoreOk(n'.cores[d], d, n'.made, n'.published);
    SameSeenSameClip(n'.cores[c], n'.cores[d]);
  }

  lemma MoreSeenHigherKey(x: Core, y: Core)
    requires CoreInv(x) && CoreInv(y) && x.seen <= y.seen && HasCurrent(x.table)
    requires DistinctIds(y.seen, {})
    ensures HasCurrent(y.table)
    ensures var k, k' := KeyOf(x.table.txs[x.table.current.value]), KeyOf(y.table.txs[y.table.current.value]);
            if x.table.current == y.table.current then k == k' else Below(k, k')
  {
    var a :| Elected(x, a);
    assert a in y.seen;
    var b :| Elected(y, b);
  }

  lemma SeenOnlyGrows(n: Net, e: Event, c: CoreId)
    requires Enabled(n, e) && c in n.cores
    ensures n.cores[c].seen <= Next(n, e).cores[c].seen
  {
  }

  /** The elected key only ever grows: no step replaces a clip by one below it. */
  lemma KeyNeverFalls(n: Net, e: Event, c: CoreId)
    requires Inv(n) && Enabled(n, e) && c in n.cores && HasCurrent(n.cores[c].table)
    ensures var before, after := n.cores[c].table, Next(n, e).cores[c].table;
            && HasCurrent(after)
            && var k, k' := KeyOf(before.txs[before.current.value]), KeyOf(after.txs[after.current.value]);
               if before.current == after.current then k == k' else Below(k, k')
  {
    var n' := Next(n, e);
    NextKeeps(n, e);
    assert CoreInv(n.cores[c]) by { assert CoreOk(n.cores[c], c, n.made, n.published); }
    assert CoreInv(n'.cores[c]) && DistinctIds(n'.cores[c].seen, {}) by {
      assert CoreOk(n'.cores[c], c, n'.made, n'.published);
    }
    SeenOnlyGrows(n, e, c);
    MoreSeenHigherKey(n.cores[c], n'.cores[c]);
  }

  // ----- The last copier wins ----------------------------------------------------------

  /** A copy by a clock that is later than every stamp so far. */
  ghost predicate IsLatest(n: Net, e: Event) {
    e.Copy? && Enabled(n, e) && forall a <- n.made :: a.key.stamp < e.now
  }

  lemma LatestIsAbove(n: Net, e: Event)
    requires Inv(n) && IsLatest(n, e)
    ensures e.now <= Made(n, e).key.stamp
    ensures forall a <- n.made :: Below(a.key, Made(n, e).key)
    ensures e.tx.device.Some? ==> Made(n, e) in Next(n, e).sent
    ensures Made(n, e) in Next(n, e).cores[e.core].seen && Next(n, e).made == n.made + {Made(n, e)}
  {
  }

  lemma {:induction false} NothingNewMade(n: Net, events: seq<Event>)
    requires IsRun(n, events) && forall e :: e in events ==> !e.Copy?
    ensures After(n, events).made == n.made && n.sent <= After(n, events).sent
    ensures After(n, events).cores.Keys == n.cores.Keys
    decreases events
  {
    if events != [] {
      assert events[0] in events;
      NothingNewMade(Next(n, events[0]), events[1..]);
    }
  }

  lemma HighestIsElected(core: Core, a: Announce)
    requires CoreInv(core) && a in core.seen && forall b <- core.seen :: b == a || Below(b.key, a.key)
    ensures core.table.current == Some(a.id)
  {
    var cur :| Elected(core, cur);
    BelowIsStrictTotal(a.key, cur.key, a.key);
  }

  lemma HighestIsHeld(n: Net, c: CoreId, a: Announce)
    requires Inv(n) && c in n.cores && a in n.cores[c].seen && forall b <- n.made :: b == a || Below(b.key, a.key)
    ensures n.cores[c].table.current == Some(a.id)
  {
    assert CoreOk(n.cores[c], c, n.made, n.published);
    HighestIsElected(n.cores[c], a);
  }

  lemma HighestHolds(n: Net, events: seq<Event>, end: Net, c: CoreId, a: Announce)
    requires Inv(n) && IsRun(n, events) && end == After(n, events) && (forall later :: later in events ==> !later.Copy?)
    requires forall b <- n.made :: b == a || Below(b.key, a.key)
    requires c in end.cores && a in end.cores[c].seen
    ensures end.cores[c].table.current == Some(a.id)
  {
    RunsKeepInv(n, events);
    NothingNewMade(n, events);
    HighestIsHeld(end, c, a);
  }

  /**
   Last copier wins: a copy by a clock later than every stamp made so far is the current
   clip of its own Core and of every Core that has processed it, in every run up to the
   next copy.
   */
  lemma LastCopierWins(n: Net, e: Event, n': Net, events: seq<Event>, end: Net, c: CoreId)
    requires Inv(n) && IsLatest(n, e) && n' == Next(n, e)
    requires IsRun(n', events) && end == After(n', events) && (forall later :: later in events ==> !later.Copy?)
    requires c in end.cores && Made(n, e) in end.cores[c].seen
    ensures end.cores[c].table.current == Some(e.tx.id)
  {
    LatestIsAbove(n, e);
    NextKeeps(n, e);
    HighestHolds(n', events, end, c, Made(n, e));
  }

  function DeliveredTx(a: Announce): Tx {
    Tx(a.id, a.key.device, a.key.stamp, Clipboard, Remote(a.maker, a.maker), false, 0, false)
  }

  /** And it can reach every one of them: a sent announce can be delivered to any Core at any moment. */
  lemma AnyAnnounceCanArrive(n: Net, c: CoreId, a: Announce)
    requires a in n.sent && c in n.cores
    ensures Enabled(n, Deliver(c, a, DeliveredTx(a)))
    ensures a in Next(n, Deliver(c, a, DeliveredTx(a))).cores[c].seen
  {
  }
}
