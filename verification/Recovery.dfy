/** What the durable queue promises over whole runs and across crashes: the chain wins, the live queue is the
    chain's replay up to what was not logged yet, and loading again changes nothing. */
module Recovery {
  import opened Text
  import opened Approvals

  // ---- one load ----

  /** What a load reports and does, by what it finds. It is degraded exactly if there is a cache file that is not a list
      of well-formed rows, or a chain that cannot be read. It raises the alarm exactly if it is degraded or cache and
      chain differ on the state of an approval. It writes the cache again exactly if it is degraded, has something to
      write, and can; the file then holds the queue. */
  lemma LoadByFields(before: Disk, items: Items, health: Health, after: Disk)
    requires LoadsTo(before, items, health, after)
    ensures items == CacheItems(before.cache)
                     + if before.chain.Some? && before.readable then Replay(before.chain.value) else map[]
    ensures health.degraded
       <==> || !(before.cache.Absent? || (before.cache.Rows? && forall row <- before.cache.rows :: row.Row?))
            || (before.chain.Some? && !before.readable)
    ensures health.cache == (if health.degraded && items != map[] && before.cacheWritable then CacheRebuilt
                             else match before.cache
                                  case Absent => CacheOk
                                  case NotAList => CacheMalformed
                                  case Rows(rows) => if forall row <- rows :: row.Row? then CacheOk else CachePartial
                                  case _ => CacheUnreadable)
    ensures var cached, chain := CacheItems(before.cache), ChainItems(before);
            var differ := exists id <- cached :: id in chain && cached[id].state != chain[id].state;
            after.chain == if (health.degraded || differ) && before.chain.Some? && before.writable
                           then Some(before.chain.value + [AlarmEntry]) else before.chain
    ensures if health.degraded && items != map[] && before.cacheWritable
            then after.cache.Rows? && (forall row <- after.cache.rows :: row.Row?) && CacheItems(after.cache) == items
            else after.cache == before.cache
  {
    hide Replay, RowItems;
    DifferenceIsListed(ChainItems(before), CacheItems(before.cache));
    AllRowsExactly(before.cache);
    AllRowsExactly(after.cache);
  }

  lemma AllRowsExactly(cache: Cache)
    ensures cache.Rows? ==> (MalformedRow !in cache.rows <==> forall row <- cache.rows :: row.Row?)
  {
  }

  lemma DifferenceIsListed(chain: Items, cached: Items)
    ensures StateDifferences(chain, cached) != {}
       <==> exists id <- cached :: id in chain && cached[id].state != chain[id].state
  {
    if id :| id in cached && id in chain && cached[id].state != chain[id].state {
      assert Reconciliation(id, cached[id].state, chain[id].state) in StateDifferences(chain, cached);
    }
  }

  /** The report of disagreements, one by one. */
  lemma ReportedExactly(before: Disk, items: Items, health: Health, after: Disk, r: Reconciliation)
    requires LoadsTo(before, items, health, after)
    ensures var id, cached, chain := r.approvalId, CacheItems(before.cache), ChainItems(before);
            r in health.reconciled
            <==> && id in cached && id in chain && cached[id].state != chain[id].state
                 && r.cacheState == cached[id].state && r.ledgerState == chain[id].state
  {
    hide CacheItems, ChainItems;
  }

  /** Whatever text the cache holds, an approval the chain opened is loaded as the chain has it: pending exactly when
      no decision follows its last opening, approved exactly when the last decision since says so. Nothing else
      is added but what only the cache knows. */
  lemma ChainDecidesWhatIsLoaded(before: Disk, items: Items, health: Health, after: Disk, id: string)
    requires LoadsTo(before, items, health, after)
    requires before.chain.Some? && before.readable
    ensures var chain := before.chain.value;
            if exists i: nat :: OpensAt(chain, i, id)
            then id in items && exists i: nat :: LastOpening(chain, i, id) && OpenedAndSettled(chain, i, id, items[id])
            else var cached := CacheItems(before.cache);
                 (id in items <==> id in cached) && (id in items ==> items[id] == cached[id])
  {
    ReplayByPosition(before.chain.value, id);
  }

  lemma {:induction false} AlarmIsNoOp(entries: seq<Entry>)
    ensures Replay(entries + [AlarmEntry]) == Replay(entries)
  {
  }

  lemma AlarmKeepsChainItems(before: Disk, after: Disk)
    requires after.readable == before.readable
    requires after.chain == before.chain || after.chain == before.AfterAlarm()
    ensures ChainItems(after) == ChainItems(before)
  {
  }

  ghost predicate ChainUnreadable(d: Disk) {
    d.chain.Some? && !d.readable
  }

  lemma NothingAddedTwice(cached: Items, chain: Items)
    ensures (cached + chain) + chain == cached + chain
    ensures StateDifferences(chain, cached + chain) == {}
  {
  }

  /** What a load leaves behind loads to the same queue; repaired, it is clean and agrees with the chain. */
  lemma AfterLoad(d0: Disk, items: Items, health: Health, d1: Disk)
    requires LoadsTo(d0, items, health, d1)
    ensures ChainItems(d1) == ChainItems(d0)
    ensures CacheItems(d1.cache) + ChainItems(d1) == items
    ensures if health.cache == CacheRebuilt then !CacheDegraded(d1.cache) && Disagreements(d1) == {}
            else d1.cache == d0.cache
    ensures ChainUnreadable(d1) == ChainUnreadable(d0)
  {
    AlarmKeepsChainItems(d0, d1);
    NothingAddedTwice(CacheItems(d0.cache), ChainItems(d0));
  }

  /** A load writes the cache again exactly if something degraded it, there is anything to write, and it can. */
  ghost predicate Repairs(d: Disk) {
    Degrades(d) && d.cacheWritable && CacheItems(d.cache) + ChainItems(d) != map[]
  }

  /** Loading again, after a load and all it wrote, yields the same queue. After a load that repairs the cache the next
      is clean. The second load raises the alarm exactly if the first did, unless the first repaired the cache and the
      chain can be read; so a disagreement without degradation raises it on every load. */
  lemma SecondLoadAgrees(d0: Disk, items1: Items, health1: Health, d1: Disk, items2: Items, health2: Health, d2: Disk)
    requires LoadsTo(d0, items1, health1, d1) && LoadsTo(d1, items2, health2, d2)
    ensures items2 == items1
    ensures Repairs(d0) && !ChainUnreadable(d0) ==> !health2.degraded && health2.reconciled == {}
    ensures Alarms(d1) <==> Alarms(d0) && !(Repairs(d0) && !ChainUnreadable(d0))
  {
    hide CacheItems, ChainItems, CacheDegraded, StateDifferences;
    AfterLoad(d0, items1, health1, d1);
  }

  lemma {:induction false} ReplayOfOne(e: Entry)
    ensures Replay([e]) == ReplayEntry(map[], e)
  {
    assert [e][..0] == [] && [] + [e] == [e];
    ReplayAppend([], e);
  }

  lemma EmptyReplay()
    ensures Replay([]) == map[]
  {
  }

  const HELD := Approval("a1", "e1", None, "irreversible", None, None, Pending, None, None, None, None)

  lemma OneDifference(chain: Approval, cached: Approval)
    requires chain.id == cached.id && chain.state != cached.state
    ensures StateDifferences(map[chain.id := chain], map[cached.id := cached])
         == {Reconciliation(chain.id, cached.state, chain.state)}
  {
    var found := StateDifferences(map[chain.id := chain], map[cached.id := cached]);
    var id := chain.id;
    assert id in map[chain.id := chain] && id in map[cached.id := cached];
    assert Reconciliation(id, cached.state, chain.state) in found;
  }

  /** A cache that has as approved what the chain holds: nothing is degraded, and the load, which repairs nothing,
      leaves a disk that raises the alarm again. */
  lemma DisagreementAlarmsAgain() returns (d0: Disk, items: Items, health: Health, d1: Disk)
    ensures LoadsTo(d0, items, health, d1)
    ensures !Degrades(d0) && Alarms(d0) && Alarms(d1)
  {
    var ahead := HELD.(state := Approved, decidedBy := Some("ada"));
    var rows := Rows([Row(ahead)]);
    d0 := Disk(rows, true, Some([HoldEntry(HELD)]), true, true);
    ReplayOfOne(HoldEntry(HELD));
    assert [Row(ahead)][..0] == [];
    assert RowItems([Row(ahead)]) == map["a1" := ahead];
    assert ChainItems(d0) == map["a1" := HELD];
    var r := Reconciliation("a1", Approved, Pending);
    OneDifference(HELD, ahead);
    items := map["a1" := ahead] + map["a1" := HELD];
    health := Health(false, CacheOk, 1, 0, {r});
    d1 := d0.(chain := d0.AfterAlarm());
    assert CacheItems(rows).Keys - ChainItems(d0).Keys == {};
    AlarmKeepsChainItems(d0, d1);
  }

  // ---- runs of the gate over queue, cache and chain ----

  /** `unlogged` are the approvals whose last change in memory the chain does not record. */
  datatype World = World(queue: Queue, entries: seq<Entry>, cache: Cache, unlogged: set<string>)

  /** The moves of the gate. Holding and deciding touch memory and cache first, the chain afterwards; a cache that
      cannot be written, a chain that cannot be extended or a crash may come in between. A restart finds the chain,
      and any cache file that is text: absent, no JSON, malformed in part, stale or ahead. */
  datatype Move =
    | Hold(approval: Approval, persisted: bool)
    | LogHold(id: string)
    | Decide(id: string, decision: string, subject: string, rationale: Option<string>, issuer: Option<string>,
             authMode: Option<string>, persisted: bool)
    | LogDecision(id: string)
    | Note(entry: Entry)
    | Restart(found: Cache, cacheWritable: bool, writable: bool, health: Health)

  function Undecided(a: Approval): Approval {
    a.(state := Pending, decidedBy := None, issuer := None, authMode := None, rationale := None)
  }

  /** An approval without the attestation of its decision, which replay does not restore. */
  function Core(a: Approval): Approval {
    a.(issuer := None, authMode := None)
  }

  function HoldEntry(a: Approval): Entry {
    QueuedEntry(a.id, a.effectId, a.effectType, a.reversibilityClass, a.reversibilityClass, a.description, a.signalId,
                true)
  }

  function DecisionEntry(a: Approval): Entry {
    DecidedEntry(a.id, if a.state == Approved then "approve" else "reject", a.decidedBy, a.rationale)
  }

  /** An approval as the gate makes it; an undecided one bears no trace of a decision. */
  ghost predicate WellFormed(a: Approval) {
    a.id != "" && a.effectId != "" && a.reversibilityClass != "" && (a.state == Pending ==> a == Undecided(a))
  }

  ghost predicate Stored(before: Cache, after: Cache, items: Items, persisted: bool) {
    if persisted then Holds(after, items) else after == before
  }

  ghost predicate Moves(w: World, m: Move, w': World) {
    match m
    case Hold(a, persisted) =>
      && WellFormed(a) && a.state == Pending
      && a.id !in w.queue.items && a.id !in Replay(w.entries)
      && w' == World(Enqueued(w.queue, a), w.entries, w'.cache, w.unlogged + {a.id})
      && Stored(w.cache, w'.cache, w'.queue.items, persisted)
    case LogHold(id) =>
      && id in w.unlogged && id in w.queue.items && w.queue.items[id].state == Pending && WellFormed(w.queue.items[id])
      && w' == w.(entries := w.entries + [HoldEntry(w.queue.items[id])], unlogged := w.unlogged - {id})
    case Decide(id, decision, subject, rationale, issuer, authMode, persisted) =>
      && subject != "" && id in w.queue.items && w.queue.items[id].state == Pending
      && Stored(w.cache, w'.cache, w'.queue.items, persisted)
      && var a := DecidedApproval(w.queue.items[id], decision, subject, rationale, issuer, authMode);
         w' == World(DecidedIn(w.queue, a, persisted), w.entries, w'.cache, w.unlogged + {id})
    case LogDecision(id) =>
      && id in w.unlogged && id in w.queue.items && w.queue.items[id].state != Pending
      && w' == w.(entries := w.entries + [DecisionEntry(w.queue.items[id])],
                  unlogged := if id in Replay(w.entries) then w.unlogged - {id} else w.unlogged)
    case Note(entry) =>
      && (entry.AlarmEntry? || entry.OtherEntry?)
      && w' == w.(entries := w.entries + [entry])
    case Restart(found, cacheWritable, writable, health) =>
      && LoadsTo(Disk(found, cacheWritable, Some(w.entries), true, writable), w'.queue.items, health,
                 Disk(w'.cache, cacheWritable, Some(w'.entries), true, writable))
      && w'.queue == Queue(w'.queue.items, map[], {}, 0)
      && w'.unlogged == w'.queue.items.Keys - Replay(w.entries).Keys
  }

  /** A queue as replayed from some chain, with everything logged. */
  ghost predicate Starts(w: World) {
    w.queue.items == Replay(w.entries) && w.unlogged == {}
  }

  ghost predicate IsRun(worlds: seq<World>, moves: seq<Move>) {
    && |worlds| == |moves| + 1 && Starts(worlds[0])
    && forall i | 0 <= i < |moves| :: Moves(worlds[i], moves[i], worlds[i + 1])
  }

  /** Logged approvals are the chain's, up to the attestation; of the others the chain knows at most the hold. */
  ghost predicate Agrees(w: World) {
    var items, chain := w.queue.items, Replay(w.entries);
    && Keyed(items)
    && (forall id <- items :: AgreesAt(id, items[id], chain, w.unlogged))
    && (forall id <- chain :: id in items)
    && w.unlogged <= items.Keys
  }

  ghost predicate AgreesAt(id: string, live: Approval, chain: Items, unlogged: set<string>) {
    AgreesOn(live, id in chain, if id in chain then chain[id] else live, id in unlogged)
  }

  ghost predicate AgreesOn(live: Approval, chained: bool, chain: Approval, unlogged: bool) {
    && (chained && live.state == Pending ==> live == Undecided(live))
    && (!unlogged ==> chained && Core(live) == chain)
    && (unlogged && chained ==> live.state != Pending && chain == Undecided(live))
  }

  lemma {:induction false} ReplayIsWellFormed(entries: seq<Entry>)
    ensures forall id <- Replay(entries) :: WellFormed(Replay(entries)[id])
  {
    if entries != [] {
      ReplayIsWellFormed(entries[..|entries| - 1]);
    }
  }

  lemma LoadedAgrees(w: World, cached: Items)
    requires Keyed(cached) && w.queue.items == cached + Replay(w.entries)
    requires w.unlogged == cached.Keys - Replay(w.entries).Keys
    ensures Agrees(w)
  {
    var chain := Replay(w.entries);
    ReplayIsWellFormed(w.entries);
    forall id <- w.queue.items
      ensures AgreesAt(id, w.queue.items[id], chain, w.unlogged)
    {
    }
  }

  /** What a restart has in memory, and what it leaves of the chain. */
  lemma RestartLoads(w: World, m: Move, w': World)
    requires Moves(w, m, w') && m.Restart?
    ensures w'.queue.items == CacheItems(m.found) + Replay(w.entries)
    ensures w'.unlogged == w'.queue.items.Keys - Replay(w.entries).Keys
    ensures w'.entries == w.entries || w'.entries == w.entries + [AlarmEntry]
  {
    hide CacheItems, Replay, CacheDegraded, StateDifferences, ReadStatus, Holds;
  }

  lemma RestartAgrees(w: World, m: Move, w': World)
    requires Moves(w, m, w') && m.Restart?
    ensures Agrees(w')
  {
    hide *;
    RestartLoads(w, m, w');
    AlarmIsNoOp(w.entries);
    LoadedAgrees(w', CacheItems(m.found));
  }

  lemma MemoryMoveAgrees(w: World, m: Move, w': World)
    requires Agrees(w) && Moves(w, m, w') && (m.Hold? || m.Decide?)
    ensures Agrees(w')
  {
  }

  lemma ChainMoveAgreesOn(w: World, m: Move, w': World, chain': Items, k: string)
    requires Agrees(w) && Moves(w, m, w') && !m.Hold? && !m.Decide? && !m.Restart? && k in w.queue.items
    requires chain' == ReplayEntry(Replay(w.entries), w'.entries[|w.entries|])
    ensures AgreesAt(k, w.queue.items[k], chain', w'.unlogged)
  {
    var chain := Replay(w.entries);
    assert AgreesAt(k, w.queue.items[k], chain, w.unlogged);
  }

  lemma ChainMoveAgrees(w: World, m: Move, w': World)
    requires Agrees(w) && Moves(w, m, w') && !m.Hold? && !m.Decide? && !m.Restart?
    ensures Agrees(w')
  {
    hide LoadsTo, Holds;
    var e := w'.entries[|w.entries|];
    ReplayAppend(w.entries, e);
    var chain' := ReplayEntry(Replay(w.entries), e);
    forall k <- w'.queue.items
      ensures AgreesAt(k, w'.queue.items[k], chain', w'.unlogged)
    {
      ChainMoveAgreesOn(w, m, w', chain', k);
    }
  }

  lemma MoveAgrees(w: World, m: Move, w': World)
    requires Agrees(w) && Moves(w, m, w')
    ensures Agrees(w')
  {
    if m.Hold? || m.Decide? {
      MemoryMoveAgrees(w, m, w');
    } else if m.Restart? {
      RestartAgrees(w, m, w');
    } else {
      ChainMoveAgrees(w, m, w');
    }
  }

  lemma RunPrefix(worlds: seq<World>, moves: seq<Move>)
    requires IsRun(worlds, moves) && moves != []
    ensures var n := |moves| - 1;
            && IsRun(worlds[..n + 1], moves[..n])
            && Moves(worlds[n], moves[n], worlds[n + 1])
  {
    hide Moves, Starts;
  }

  /** Live queue equals replay: after any run, restarts over any cache included, every logged approval of the queue is
      exactly what folding the chain gives, up to the attestation, and the chain holds no other. An unlogged one is
      held, not released, as far as the chain knows it at all. */
  lemma {:induction false} LiveQueueIsReplay(worlds: seq<World>, moves: seq<Move>)
    requires IsRun(worlds, moves)
    ensures Agrees(worlds[|moves|])
  {
    if moves == [] {
      LoadedAgrees(worlds[0], map[]);
    } else {
      hide Moves, Agrees, Starts;
      var n := |moves| - 1;
      RunPrefix(worlds, moves);
      LiveQueueIsReplay(worlds[..n + 1], moves[..n]);
      MoveAgrees(worlds[n], moves[n], worlds[n + 1]);
    }
  }

  /** A logged approval is replayed whole exactly if no attestation was recorded beside its decision. */
  lemma AttestationLostExactly(worlds: seq<World>, moves: seq<Move>, id: string)
    requires IsRun(worlds, moves)
    requires id in worlds[|moves|].queue.items && id !in worlds[|moves|].unlogged
    ensures var live, chain := worlds[|moves|].queue.items[id], Replay(worlds[|moves|].entries);
            id in chain && (chain[id] == live <==> live.issuer == None && live.authMode == None)
  {
    LiveQueueIsReplay(worlds, moves);
  }

  /** One that was: held, logged, approved with an attestation, logged; and replayed without. */
  lemma AttestationIsLost() returns (worlds: seq<World>, moves: seq<Move>)
    ensures IsRun(worlds, moves)
    ensures var w := worlds[|moves|];
            && "a1" in w.queue.items && w.unlogged == {} && w.queue.items["a1"].issuer.Some?
            && "a1" in Replay(w.entries) && Replay(w.entries)["a1"].issuer == None
  {
    hide Replay, LoadsTo, Holds;
    var w0 := World(Queue(map[], map[], {}, 0), [], Absent, {});
    var w1 := World(Enqueued(w0.queue, HELD), [], Absent, {"a1"});
    var w2 := w1.(entries := [HoldEntry(HELD)], unlogged := {});
    var a := DecidedApproval(HELD, "approve", "ada", None, Some("https://id.city"), Some("oidc"));
    var w3 := World(DecidedIn(w2.queue, a, false), w2.entries, Absent, {"a1"});
    var w4 := w3.(entries := w3.entries + [DecisionEntry(a)], unlogged := {});
    EmptyReplay();
    ReplayOfOne(HoldEntry(HELD));
    ReplayAppend(w3.entries, DecisionEntry(a));
    var decide := Decide("a1", "approve", "ada", None, Some("https://id.city"), Some("oidc"), false);
    assert Moves(w0, Hold(HELD, false), w1);
    assert Moves(w1, LogHold("a1"), w2);
    assert Moves(w2, decide, w3);
    assert Moves(w3, LogDecision("a1"), w4);
    hide Moves;
    worlds, moves := [w0, w1, w2, w3, w4], [Hold(HELD, false), LogHold("a1"), decide, LogDecision("a1")];
  }

  /** The queue that comes back: the live one as far as the chain knows it, decisions included if logged. */
  ghost predicate ComesBack(w: World, cached: Items, items: Items) {
    && (forall id <- Replay(w.entries) ::
          && id in items && id in w.queue.items
          && items[id] == if id in w.unlogged then Undecided(w.queue.items[id]) else Core(w.queue.items[id]))
    && (forall id <- items :: id in Replay(w.entries) || (id in cached && items[id] == cached[id]))
  }

  lemma AgreementComesBack(w: World, cached: Items, items: Items)
    requires Agrees(w) && items == cached + Replay(w.entries)
    ensures ComesBack(w, cached, items)
    ensures cached == w.queue.items ==> items.Keys == w.queue.items.Keys
  {
  }

  /** A restart after any run, whatever happened to the cache: no approval the chain queued is lost; each
      comes back as it was if logged, and as an undecided hold if its decision never reached the chain. With the
      cache of the last write intact, no approval at all is lost. */
  lemma CrashAnywhere(worlds: seq<World>, moves: seq<Move>, cache: Cache, cacheWritable: bool, writable: bool,
                      items: Items, health: Health, after: Disk)
    requires IsRun(worlds, moves)
    requires LoadsTo(Disk(cache, cacheWritable, Some(worlds[|moves|].entries), true, writable), items, health, after)
    ensures ComesBack(worlds[|moves|], CacheItems(cache), items)
    ensures Holds(cache, worlds[|moves|].queue.items) ==> items.Keys == worlds[|moves|].queue.items.Keys
  {
    LiveQueueIsReplay(worlds, moves);
    AgreementComesBack(worlds[|moves|], CacheItems(cache), items);
  }

  /** No release out of thin air: a release the chain does not record comes back as a hold, unless the chain never
      recorded the hold either. */
  lemma UnloggedReleaseStaysHeld(worlds: seq<World>, moves: seq<Move>, cache: Cache, cacheWritable: bool,
                                 writable: bool, items: Items, health: Health, after: Disk, id: string)
    requires IsRun(worlds, moves)
    requires LoadsTo(Disk(cache, cacheWritable, Some(worlds[|moves|].entries), true, writable), items, health, after)
    requires id in worlds[|moves|].unlogged && id in Replay(worlds[|moves|].entries)
    ensures id in items && items[id].state == Pending && items[id].decidedBy == None
  {
    CrashAnywhere(worlds, moves, cache, cacheWritable, writable, items, health, after);
  }

  // ---- who released it ----

  ghost predicate DecidedAt(moves: seq<Move>, i: nat, a: Approval) {
    && i < |moves| && moves[i].Decide? && moves[i].id == a.id && moves[i].subject != ""
    && a.decidedBy == Some(moves[i].subject) && a.state == Verdict(moves[i].decision)
  }

  ghost predicate SettledDuring(moves: seq<Move>, a: Approval) {
    exists i: nat :: DecidedAt(moves, i, a)
  }

  /** What the chain records as settled was settled so before the run, or by a decision in it; a decision the chain
      does not have yet was made in the run. */
  ghost predicate Accounted(start: Items, moves: seq<Move>, w: World, id: string) {
    var chain := Replay(w.entries);
    id in chain ==>
      && (chain[id].state != Pending ==> (id in start && chain[id] == start[id]) || SettledDuring(moves, chain[id]))
      && (id in w.unlogged && id in w.queue.items ==> SettledDuring(moves, w.queue.items[id]))
  }

  lemma StillDecided(moves: seq<Move>, m: Move, a: Approval)
    requires SettledDuring(moves, a)
    ensures SettledDuring(moves + [m], a) && SettledDuring(moves + [m], Core(a))
  {
    var i: nat :| DecidedAt(moves, i, a);
    assert DecidedAt(moves + [m], i, a) && DecidedAt(moves + [m], i, Core(a));
  }

  lemma StillAccounted(start: Items, moves: seq<Move>, m: Move, w: World, id: string)
    requires Accounted(start, moves, w, id)
    ensures Accounted(start, moves + [m], w, id)
  {
    hide Replay, SettledDuring;
    var chain := Replay(w.entries);
    if id in chain && SettledDuring(moves, chain[id]) {
      StillDecided(moves, m, chain[id]);
    }
    if id in w.queue.items && SettledDuring(moves, w.queue.items[id]) {
      StillDecided(moves, m, w.queue.items[id]);
    }
  }

  lemma MemoryMoveAccounts(start: Items, moves: seq<Move>, w: World, m: Move, w': World, id: string)
    requires Keyed(w.queue.items) && Moves(w, m, w') && (m.Hold? || m.Decide?)
    requires Accounted(start, moves, w, id)
    requires m.Decide? && m.id == id ==> SettledDuring(moves, w'.queue.items[id])
    ensures Accounted(start, moves, w', id)
  {
  }

  lemma ChainMoveAccounts(start: Items, moves: seq<Move>, w: World, m: Move, w': World, id: string)
    requires Agrees(w) && Moves(w, m, w') && (m.LogHold? || m.LogDecision? || m.Note?)
    requires Accounted(start, moves, w, id)
    requires id in w.queue.items ==>
               var a := w.queue.items[id]; SettledDuring(moves, a) ==> SettledDuring(moves, Core(a))
    ensures Accounted(start, moves, w', id)
  {
    hide Replay, SettledDuring;
    var chain := Replay(w.entries);
    ReplayAppend(w.entries, w'.entries[|w.entries|]);
    if id in w.queue.items {
      assert AgreesAt(id, w.queue.items[id], chain, w.unlogged);
    }
  }

  lemma RestartAccounts(start: Items, moves: seq<Move>, w: World, m: Move, w': World, id: string)
    requires Moves(w, m, w') && m.Restart?
    requires Accounted(start, moves, w, id)
    ensures Accounted(start, moves, w', id)
  {
    hide Replay, SettledDuring, Rebuilt, Holds, CacheDegraded, StateDifferences, ReadStatus;
    AlarmIsNoOp(w.entries);
  }

  lemma MoveAccounts(start: Items, moves: seq<Move>, w: World, m: Move, w': World, id: string)
    requires Agrees(w) && Moves(w, m, w')
    requires Accounted(start, moves, w, id)
    ensures Accounted(start, moves + [m], w', id)
  {
    hide Replay, AgreesOn, Accounted, Holds, Rebuilt, LoadsTo;
    StillAccounted(start, moves, m, w, id);
    var moves' := moves + [m];
    if m.Hold? || m.Decide? {
      assert m.Decide? && m.id == id ==> DecidedAt(moves', |moves|, w'.queue.items[id]);
      MemoryMoveAccounts(start, moves', w, m, w', id);
    } else if m.Restart? {
      RestartAccounts(start, moves', w, m, w', id);
    } else {
      if id in w.queue.items && SettledDuring(moves', w.queue.items[id]) {
        var i: nat :| DecidedAt(moves', i, w.queue.items[id]);
        assert DecidedAt(moves', i, Core(w.queue.items[id]));
      }
      ChainMoveAccounts(start, moves', w, m, w', id);
    }
  }

  lemma StartAccounts(w: World, id: string)
    requires Starts(w)
    ensures Accounted(Replay(w.entries), [], w, id)
  {
  }

  lemma MovesSplit(moves: seq<Move>)
    requires moves != []
    ensures moves == moves[..|moves| - 1] + [moves[|moves| - 1]]
  {
  }

  lemma {:induction false} RunAccounts(worlds: seq<World>, moves: seq<Move>, id: string)
    requires IsRun(worlds, moves)
    ensures Accounted(Replay(worlds[0].entries), moves, worlds[|moves|], id)
  {
    hide Moves, Agrees, Starts, Accounted, Replay;
    if moves == [] {
      StartAccounts(worlds[0], id);
    } else {
      var n := |moves| - 1;
      RunPrefix(worlds, moves);
      RunAccounts(worlds[..n + 1], moves[..n], id);
      LiveQueueIsReplay(worlds[..n + 1], moves[..n]);
      hide IsRun;
      MoveAccounts(Replay(worlds[0].entries), moves[..n], worlds[n], moves[n], worlds[n + 1], id);
      MovesSplit(moves);
    }
  }

  /** No release without a named human: over any run, with any number of restarts over any cache, what the chain
      then has as approved was approved before, or by a decision to approve in the run, whose subject it names. */
  lemma NoReleaseWithoutDecision(worlds: seq<World>, moves: seq<Move>, id: string)
    requires IsRun(worlds, moves)
    requires var chain := Replay(worlds[|moves|].entries); id in chain && chain[id].state == Approved
    ensures var start, chain := Replay(worlds[0].entries), Replay(worlds[|moves|].entries);
            || (id in start && start[id].state == Approved)
            || (exists i: nat :: DecidedAt(moves, i, chain[id]) && moves[i].decision == "approve")
  {
    RunAccounts(worlds, moves, id);
    var chain := Replay(worlds[|moves|].entries);
    if SettledDuring(moves, chain[id]) {
      var i: nat :| DecidedAt(moves, i, chain[id]);
      assert moves[i].decision == "approve";
    }
  }
}
