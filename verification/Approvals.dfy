/** The durable approval queue: a map in memory, a cache file, and the append-only chain that wins. */
module Approvals {
  import opened Text

  datatype State = Pending | Approved | Rejected

  datatype Approval = Approval(
    id: string, effectId: string, effectType: Option<string>, reversibilityClass: string,
    description: Option<string>, signalId: Option<string>, state: State,
    decidedBy: Option<string>, issuer: Option<string>, authMode: Option<string>, rationale: Option<string>)

  type Items = map<string, Approval>

  /** Every approval is filed under its own id. */
  ghost predicate Keyed(items: Items) {
    forall id <- items :: items[id].id == id
  }

  // ---- the chain and its replay ----

  /** Chain entries, as far as the queue reads them. A missing id reads as the empty string; `fits` says that
      the other fields are of the types an approval takes. */
  datatype Entry =
    | QueuedEntry(approvalId: string, effectId: string, effectType: Option<string>, reversibilityClass: string,
                  reversibility: string, description: Option<string>, signalId: Option<string>, fits: bool)
    | DecidedEntry(approvalId: string, decision: string, decidedBy: Option<string>, rationale: Option<string>)
    | AlarmEntry
    | OtherEntry(kind: string)

  predicate Opens(e: Entry) {
    e.QueuedEntry? && e.approvalId != "" && e.effectId != "" && e.fits
  }

  function Opened(e: Entry): Approval
    requires e.QueuedEntry?
  {
    var klass := if e.reversibilityClass != "" then e.reversibilityClass
                 else if e.reversibility != "" then e.reversibility else "irreversible";
    Approval(e.approvalId, e.effectId, e.effectType, klass, e.description, e.signalId, Pending, None, None, None, None)
  }

  function Verdict(decision: string): State {
    if decision == "approve" then Approved else Rejected
  }

  function Settled(a: Approval, e: Entry): Approval
    requires e.DecidedEntry?
  {
    a.(state := Verdict(e.decision), decidedBy := e.decidedBy, rationale := e.rationale)
  }

  function ReplayEntry(items: Items, e: Entry): Items {
    if Opens(e) then items[e.approvalId := Opened(e)]
    else if e.DecidedEntry? && e.approvalId in items then items[e.approvalId := Settled(items[e.approvalId], e)]
    else items
  }

  /** The queue the chain implies. */
  function Replay(entries: seq<Entry>): (items: Items)
    ensures Keyed(items)
    ensures forall id <- items :: items[id].issuer == None && items[id].authMode == None
  {
    if entries == [] then map[] else ReplayEntry(Replay(entries[..|entries| - 1]), entries[|entries| - 1])
  }

  method ReplayChain(entries: seq<Entry>) returns (items: Items)
    ensures items == Replay(entries)
  {
    items := map[];
    for i := 0 to |entries|
      invariant items == Replay(entries[..i])
    {
      assert entries[..i + 1][..i] == entries[..i];
      var e := entries[i];
      if e.QueuedEntry? {
        if e.approvalId != "" && e.effectId != "" && e.fits {
          items := items[e.approvalId := Opened(e)];
        }
      } else if e.DecidedEntry? {
        if e.approvalId in items {
          var a := items[e.approvalId];
          a := a.(state := if e.decision == "approve" then Approved else Rejected);
          a := a.(decidedBy := e.decidedBy);
          a := a.(rationale := e.rationale);
          items := items[e.approvalId := a];
        }
      }
    }
    assert entries[..|entries|] == entries;
  }

  // ---- what replay yields for one approval, by position in the chain ----

  predicate OpensAt(entries: seq<Entry>, i: nat, id: string) {
    i < |entries| && Opens(entries[i]) && entries[i].approvalId == id
  }

  predicate DecidesAt(entries: seq<Entry>, i: nat, id: string) {
    i < |entries| && entries[i].DecidedEntry? && entries[i].approvalId == id
  }

  /** Entry `i` is the last to open `id`. */
  ghost predicate LastOpening(entries: seq<Entry>, i: nat, id: string) {
    OpensAt(entries, i, id) && forall k | i < k < |entries| :: !OpensAt(entries, k, id)
  }

  /** Entry `j` is the last decision on `id` after entry `i`. */
  ghost predicate LastDecision(entries: seq<Entry>, i: nat, j: nat, id: string) {
    i < j && DecidesAt(entries, j, id) && forall k | j < k < |entries| :: !DecidesAt(entries, k, id)
  }

  /** `a` is what entry `i` opened, settled by the last decision since, if any. */
  ghost predicate OpenedAndSettled(entries: seq<Entry>, i: nat, id: string, a: Approval)
    requires OpensAt(entries, i, id)
  {
    || (a == Opened(entries[i]) && forall k | i < k < |entries| :: !DecidesAt(entries, k, id))
    || (exists j: nat :: LastDecision(entries, i, j, id) && a == Settled(Opened(entries[i]), entries[j]))
  }

  lemma OpensInFront(entries: seq<Entry>, i: nat, id: string)
    requires i < |entries| - 1
    ensures OpensAt(entries[..|entries| - 1], i, id) == OpensAt(entries, i, id)
  {
  }

  lemma {:induction false} ReplayHasOpened(entries: seq<Entry>, id: string)
    ensures id in Replay(entries) <==> exists i: nat :: OpensAt(entries, i, id)
  {
    if entries != [] {
      hide Replay, OpenedAndSettled, LastOpening;
      var n := |entries| - 1;
      if OpensAt(entries, n, id) {
        OpenedLast(entries, id);
      } else {
        NotOpenedLast(entries, id);
        ReplayHasOpened(entries[..n], id);
        if i: nat :| OpensAt(entries[..n], i, id) {
          OpensInFront(entries, i, id);
        }
        if i: nat :| OpensAt(entries, i, id) {
          OpensInFront(entries, i, id);
        }
      }
    }
  }

  lemma LastOpeningInFront(entries: seq<Entry>, i: nat, id: string)
    requires entries != [] && LastOpening(entries[..|entries| - 1], i, id) && !OpensAt(entries, |entries| - 1, id)
    ensures LastOpening(entries, i, id)
  {
    hide OpensAt;
    var front := entries[..|entries| - 1];
    forall k: nat | k < |front|
      ensures OpensAt(front, k, id) == OpensAt(entries, k, id)
    {
      OpensInFront(entries, k, id);
    }
    OpensWithin(front, i, id);
  }

  lemma OpensWithin(entries: seq<Entry>, i: nat, id: string)
    ensures OpensAt(entries, i, id) ==> i < |entries|
  {
  }

  /** Replay, entry by entry: an approval exists exactly when the chain opened it, with the content of its last
      opening; it is pending exactly when no decision on it follows that opening, and otherwise the last
      decision settles it. */
  lemma {:induction false} ReplayByPosition(entries: seq<Entry>, id: string)
    ensures id in Replay(entries) <==> exists i: nat :: OpensAt(entries, i, id)
    ensures id in Replay(entries) ==>
              exists i: nat :: LastOpening(entries, i, id) && OpenedAndSettled(entries, i, id, Replay(entries)[id])
  {
    ReplayHasOpened(entries, id);
    if entries != [] {
      hide Replay, OpenedAndSettled;
      var n := |entries| - 1;
      if OpensAt(entries, n, id) {
        OpenedLast(entries, id);
      } else {
        NotOpenedLast(entries, id);
        ReplayByPosition(entries[..n], id);
        if id in Replay(entries[..n]) {
          SettledFromFront(entries, id);
        }
      }
    }
  }

  lemma SettledFromFront(entries: seq<Entry>, id: string)
    requires entries != [] && !OpensAt(entries, |entries| - 1, id)
    requires var front := entries[..|entries| - 1];
             && id in Replay(front)
             && exists i: nat :: LastOpening(front, i, id) && OpenedAndSettled(front, i, id, Replay(front)[id])
    ensures id in Replay(entries)
    ensures exists i: nat :: LastOpening(entries, i, id) && OpenedAndSettled(entries, i, id, Replay(entries)[id])
  {
    hide Replay, OpenedAndSettled;
    var front := entries[..|entries| - 1];
    var i: nat :| LastOpening(front, i, id) && OpenedAndSettled(front, i, id, Replay(front)[id]);
    LastOpeningInFront(entries, i, id);
    SettledByLast(entries, i, id);
  }

  lemma OpenedLast(entries: seq<Entry>, id: string)
    requires entries != [] && OpensAt(entries, |entries| - 1, id)
    ensures id in Replay(entries) && LastOpening(entries, |entries| - 1, id)
    ensures OpenedAndSettled(entries, |entries| - 1, id, Replay(entries)[id])
  {
  }

  lemma NotOpenedLast(entries: seq<Entry>, id: string)
    requires entries != [] && !OpensAt(entries, |entries| - 1, id)
    ensures id in Replay(entries) <==> id in Replay(entries[..|entries| - 1])
  {
  }

  /** One more entry that does not open `id`. */
  lemma SettledByLast(entries: seq<Entry>, i: nat, id: string)
    requires |entries| > 0 && !OpensAt(entries, |entries| - 1, id)
    requires var front := entries[..|entries| - 1];
             id in Replay(front) && OpensAt(front, i, id) && OpenedAndSettled(front, i, id, Replay(front)[id])
    ensures id in Replay(entries) && OpensAt(entries, i, id) && OpenedAndSettled(entries, i, id, Replay(entries)[id])
  {
    var n := |entries| - 1;
    var front := entries[..n];
    var a := Replay(front)[id];
    if DecidesAt(entries, n, id) {
      assert LastDecision(entries, i, n, id);
      SettledTwice(Opened(entries[i]), front, i, id, a, entries[n]);
    } else {
      assert Replay(entries)[id] == a;
      StillSettled(entries, i, id, a);
    }
  }

  lemma StillSettled(entries: seq<Entry>, i: nat, id: string, a: Approval)
    requires |entries| > 0 && !DecidesAt(entries, |entries| - 1, id)
    requires OpensAt(entries[..|entries| - 1], i, id) && OpenedAndSettled(entries[..|entries| - 1], i, id, a)
    ensures OpensAt(entries, i, id) && OpenedAndSettled(entries, i, id, a)
  {
    var front := entries[..|entries| - 1];
    assert forall k: nat | k < |front| :: DecidesAt(entries, k, id) == DecidesAt(front, k, id);
    if exists j: nat :: LastDecision(front, i, j, id) && a == Settled(Opened(front[i]), front[j]) {
      var j: nat :| LastDecision(front, i, j, id) && a == Settled(Opened(front[i]), front[j]);
      assert LastDecision(entries, i, j, id);
    }
  }

  lemma SettledTwice(first: Approval, front: seq<Entry>, i: nat, id: string, a: Approval, e: Entry)
    requires OpensAt(front, i, id) && first == Opened(front[i])
    requires OpenedAndSettled(front, i, id, a) && e.DecidedEntry?
    ensures Settled(a, e) == Settled(first, e)
  {
  }

  /** What one entry makes of an empty queue, and a decision of what it opened, by their fields. */
  lemma ReplayByFields(e: Entry, d: Entry)
    ensures var items := Replay([e]);
            if e.QueuedEntry? && e.approvalId != "" && e.effectId != "" && e.fits
            then var klass := if e.reversibilityClass != "" then e.reversibilityClass
                              else if e.reversibility != "" then e.reversibility else "irreversible";
                 items == map[e.approvalId := Approval(e.approvalId, e.effectId, e.effectType, klass, e.description,
                                                       e.signalId, Pending, None, None, None, None)]
            else items == map[]
    ensures d.DecidedEntry? && d.approvalId in Replay([e]) ==>
              Replay([e, d]) == map[e.approvalId := Replay([e])[e.approvalId].(
                state := if d.decision == "approve" then Approved else Rejected, decidedBy := d.decidedBy,
                rationale := d.rationale)]
  {
    assert [e][..0] == [] && [e, d][..1] == [e];
  }

  lemma {:induction false} ReplayAppend(entries: seq<Entry>, e: Entry)
    ensures Replay(entries + [e]) == ReplayEntry(Replay(entries), e)
  {
  }

  // ---- the cache file ----

  datatype Row = Row(approval: Approval) | MalformedRow

  /** Bytes that are not UTF-8 are no text at all, which is not the same as text that is no JSON. */
  datatype Cache = Absent | NotUtf8 | Unreadable | NotAList | Rows(rows: seq<Row>)

  /** Rows are read in order; a later row of the same id replaces an earlier one. */
  function RowItems(rows: seq<Row>): (items: Items)
    ensures Keyed(items)
  {
    if rows == [] then map[]
    else
      var items := RowItems(rows[..|rows| - 1]);
      var last := rows[|rows| - 1];
      if last.Row? then items[last.approval.id := last.approval] else items
  }

  function CacheItems(cache: Cache): (items: Items)
    ensures Keyed(items)
  {
    if cache.Rows? then RowItems(cache.rows) else map[]
  }

  ghost predicate CacheDegraded(cache: Cache) {
    cache.Unreadable? || cache.NotAList? || (cache.Rows? && MalformedRow in cache.rows)
  }

  /** The file holds exactly these approvals, and nothing malformed. */
  ghost predicate Holds(cache: Cache, items: Items) {
    cache.Rows? && MalformedRow !in cache.rows && CacheItems(cache) == items
  }

  method ReadRows(rows: seq<Row>) returns (items: Items, dropped: nat)
    ensures items == RowItems(rows)
    ensures dropped > 0 <==> MalformedRow in rows
  {
    items, dropped := map[], 0;
    for i := 0 to |rows|
      invariant items == RowItems(rows[..i])
      invariant dropped > 0 <==> MalformedRow in rows[..i]
    {
      assert rows[..i + 1][..i] == rows[..i];
      match rows[i]
      case Row(a) => items := items[a.id := a];
      case MalformedRow => dropped := dropped + 1;
    }
    assert rows[..|rows|] == rows;
  }

  lemma {:induction false} RowsAppend(rows: seq<Row>, a: Approval)
    ensures RowItems(rows + [Row(a)]) == RowItems(rows)[a.id := a]
  {
  }

  /** The rows of a map, in some order. */
  method RowsOf(items: Items) returns (rows: seq<Row>)
    requires Keyed(items)
    ensures Holds(Rows(rows), items)
  {
    rows := [];
    var todo := items.Keys;
    while todo != {}
      invariant todo <= items.Keys
      invariant MalformedRow !in rows
      invariant RowItems(rows) == map id | id in items && id !in todo :: items[id]
      decreases todo
    {
      var id :| id in todo;
      RowsAppend(rows, items[id]);
      rows := rows + [Row(items[id])];
      todo := todo - {id};
    }
    assert items == map id | id in items && id !in todo :: items[id];
  }

  class CacheFile {
    var content: Cache
    const writable: bool

    constructor (content: Cache, writable: bool)
      ensures this.content == content && this.writable == writable
    {
      this.content, this.writable := content, writable;
    }

    /** The file is replaced as a whole, or not at all. */
    method Replace(rows: seq<Row>) returns (ok: bool)
      modifies this
      ensures ok == writable && content == if writable then Rows(rows) else old(content)
    {
      ok := writable;
      if writable {
        content := Rows(rows);
      }
    }
  }

  class Ledger {
    var entries: seq<Entry>
    const readable: bool
    const writable: bool

    constructor (entries: seq<Entry>, readable: bool, writable: bool)
      ensures this.entries == entries && this.readable == readable && this.writable == writable
    {
      this.entries, this.readable, this.writable := entries, readable, writable;
    }

    method Append(e: Entry) returns (ok: bool)
      modifies this
      ensures ok == writable && entries == if writable then old(entries) + [e] else old(entries)
    {
      ok := writable;
      if writable {
        entries := entries + [e];
      }
    }
  }

  // ---- the queue as a value: the map, and one event per registered waiter ----

  /** An event is a number below `nextEvent`; it is set when it is in `fired`. */
  datatype Queue = Queue(items: Items, waiters: map<string, nat>, fired: set<nat>, nextEvent: nat)

  ghost predicate ValidQueue(q: Queue) {
    && Keyed(q.items)
    && (forall id <- q.waiters :: q.waiters[id] < q.nextEvent)
    && (forall e <- q.fired :: e < q.nextEvent)
    && (forall a, b | a in q.waiters && b in q.waiters && q.waiters[a] == q.waiters[b] :: a == b)
  }

  function Enqueued(q: Queue, a: Approval): Queue {
    q.(items := q.items[a.id := a], waiters := q.waiters[a.id := q.nextEvent], nextEvent := q.nextEvent + 1)
  }

  function DecidedApproval(a: Approval, decision: string, subject: string, rationale: Option<string>,
                           issuer: Option<string>, authMode: Option<string>): Approval {
    a.(state := Verdict(decision), decidedBy := Some(subject), issuer := issuer, authMode := authMode,
       rationale := rationale)
  }

  /** A hold is filed under its id, with an event of its own that is not set. */
  lemma EnqueuedByFields(q: Queue, a: Approval)
    requires ValidQueue(q)
    ensures var q' := Enqueued(q, a);
            && q'.items == q.items[a.id := a] && q'.fired == q.fired
            && a.id in q'.waiters && q'.waiters[a.id] !in q'.fired
            && (forall id <- q'.waiters :: id != a.id ==>
                  id in q.waiters && q'.waiters[id] == q.waiters[id] != q'.waiters[a.id])
  {
  }

  lemma DecidedByFields(a: Approval, decision: string, subject: string, rationale: Option<string>,
                        issuer: Option<string>, authMode: Option<string>)
    ensures DecidedApproval(a, decision, subject, rationale, issuer, authMode)
         == Approval(a.id, a.effectId, a.effectType, a.reversibilityClass, a.description, a.signalId,
                     if decision == "approve" then Approved else Rejected,
                     Some(subject), issuer, authMode, rationale)
  {
  }

  /** A decision is in memory at once; the waiter is woken only if the cache could be written. */
  function DecidedIn(q: Queue, a: Approval, persisted: bool): Queue {
    q.(items := q.items[a.id := a],
       fired := if persisted && a.id in q.waiters then q.fired + {q.waiters[a.id]} else q.fired)
  }

  /** The lock-protected part of `wait`: the waiter's event, created if nobody had one. */
  function Registered(q: Queue, id: string): Queue {
    if id in q.waiters then q else q.(waiters := q.waiters[id := q.nextEvent], nextEvent := q.nextEvent + 1)
  }

  // ---- loading ----

  datatype CacheStatus = CacheOk | CacheUnreadable | CacheMalformed | CachePartial | CacheRebuilt

  ghost function ReadStatus(cache: Cache): CacheStatus {
    match cache
    case Absent => CacheOk
    case NotUtf8 => CacheUnreadable
    case Unreadable => CacheUnreadable
    case NotAList => CacheMalformed
    case Rows(rows) => if MalformedRow in rows then CachePartial else CacheOk
  }

  datatype Reconciliation = Reconciliation(approvalId: string, cacheState: State, ledgerState: State)

  datatype Health = Health(degraded: bool, cache: CacheStatus, rebuiltFromLedger: nat, cacheOnlyEntries: nat,
                           reconciled: set<Reconciliation>)

  /** What a load sees, and what it leaves behind. `chain` is `None` without a ledger. */
  datatype Disk = Disk(cache: Cache, cacheWritable: bool, chain: Option<seq<Entry>>, readable: bool, writable: bool)
  {
    /** The chain with an alarm appended, if there is a chain that can be written. */
    ghost function AfterAlarm(): Option<seq<Entry>> {
      if chain.Some? && writable then Some(chain.value + [AlarmEntry]) else chain
    }
  }

  ghost function DiskOf(file: CacheFile, ledger: Ledger?): Disk
    reads file, ledger
  {
    Disk(file.content, file.writable, if ledger == null then None else Some(ledger.entries),
         ledger == null || ledger.readable, ledger == null || ledger.writable)
  }

  ghost function ChainItems(d: Disk): (items: Items)
    ensures Keyed(items)
  {
    if d.chain.Some? && d.readable then Replay(d.chain.value) else map[]
  }

  ghost predicate Degrades(d: Disk) {
    CacheDegraded(d.cache) || (d.chain.Some? && !d.readable)
  }

  ghost function StateDifferences(chain: Items, cache: Items): set<Reconciliation> {
    set id | id in chain && id in cache && chain[id].state != cache[id].state
      :: Reconciliation(id, cache[id].state, chain[id].state)
  }

  ghost function Disagreements(d: Disk): set<Reconciliation> {
    StateDifferences(ChainItems(d), CacheItems(d.cache))
  }

  /** The cache adds what the chain never saw; where both know an approval the chain's version stands. */
  method FoldInCache(chain: Items, cached: Items)
    returns (items: Items, reconciled: set<Reconciliation>, cacheOnly: set<string>)
    ensures items == cached + chain
    ensures reconciled == StateDifferences(chain, cached)
    ensures cacheOnly == cached.Keys - chain.Keys
  {
    items, reconciled, cacheOnly := chain, {}, {};
    var todo := cached.Keys;
    while todo != {}
      invariant todo <= cached.Keys
      invariant items == (map id | id in cached && id !in todo :: cached[id]) + chain
      invariant cacheOnly == (cached.Keys - todo) - chain.Keys
      invariant forall id | id in cached && id !in todo && id in chain && chain[id].state != cached[id].state ::
                  Reconciliation(id, cached[id].state, chain[id].state) in reconciled
      invariant forall r <- reconciled :: r.approvalId in cached && r.approvalId !in todo && r.approvalId in chain
                  && chain[r.approvalId].state != cached[r.approvalId].state
                  && r == Reconciliation(r.approvalId, cached[r.approvalId].state, chain[r.approvalId].state)
      decreases todo
    {
      var id :| id in todo;
      todo := todo - {id};
      if id !in items {
        items := items[id := cached[id]];
        cacheOnly := cacheOnly + {id};
      } else if items[id].state != cached[id].state {
        reconciled := reconciled + {Reconciliation(id, cached[id].state, items[id].state)};
      }
    }
    assert cached == map id | id in cached && id !in todo :: cached[id];
  }

  /** What is rebuilt: the chain's replay over the cache, and a report of where they differ. */
  ghost predicate Rebuilt(d: Disk, items: Items, health: Health) {
    && items == CacheItems(d.cache) + ChainItems(d)
    && health.degraded == Degrades(d)
    && health.reconciled == Disagreements(d)
    && health.rebuiltFromLedger == |ChainItems(d)|
    && health.cacheOnlyEntries == |CacheItems(d.cache).Keys - ChainItems(d).Keys|
    && health.cache == ReadStatus(d.cache)
  }

  /** The whole effect of a load: the rebuilt queue, an alarm on degradation or disagreement, and a cache
      repaired after degradation when there is anything to write. */
  ghost predicate LoadsTo(before: Disk, items: Items, health: Health, after: Disk) {
    var repairs := Degrades(before) && items != map[] && before.cacheWritable;
    && !before.cache.NotUtf8?
    && Rebuilt(before, items, health.(cache := ReadStatus(before.cache)))
    && health.cache == (if repairs then CacheRebuilt else ReadStatus(before.cache))
    && (if repairs then Holds(after.cache, items) else after.cache == before.cache)
    && after == before.(cache := after.cache, chain := if Alarms(before) then before.AfterAlarm() else before.chain)
  }

  ghost predicate Alarms(d: Disk) {
    Degrades(d) || Disagreements(d) != {}
  }

  datatype EnqueueResult = EnqueueOk(approval: Approval) | EnqueueNotPersisted

  datatype DecideResult =
    | DecideOk(approval: Approval)
    | SubjectRequired
    | ApprovalNotFound
    | AlreadyDecided
    | DecideNotPersisted

  class ApprovalQueue {
    const file: CacheFile
    const ledger: Ledger?
    var items: Items
    var waiters: map<string, nat>
    var fired: set<nat>
    var nextEvent: nat
    var health: Health

    ghost function Model(): Queue
      reads this
    {
      Queue(items, waiters, fired, nextEvent)
    }

    ghost function OnDisk(): Disk
      reads file, ledger
    {
      DiskOf(file, ledger)
    }

    /** A queue over a file and, unless it is null, a ledger; not loaded yet. */
    constructor (file: CacheFile, ledger: Ledger?)
      ensures this.file == file && this.ledger == ledger
      ensures Model() == Queue(map[], map[], {}, 0) && health == Health(false, CacheOk, 0, 0, {})
    {
      this.file, this.ledger := file, ledger;
      items, waiters, fired, nextEvent := map[], map[], {}, 0;
      health := Health(false, CacheOk, 0, 0, {});
    }

    /** A loaded queue, or none: a cache file that is not UTF-8 is the one thing that keeps it from opening. */
    static method Open(file: CacheFile, ledger: Ledger?) returns (q: ApprovalQueue?)
      modifies file, ledger
      ensures q == null <==> old(file.content).NotUtf8?
      ensures q == null ==> DiskOf(file, ledger) == old(DiskOf(file, ledger))
      ensures q != null ==>
                && fresh(q) && q.file == file && q.ledger == ledger
                && ValidQueue(q.Model()) && q.waiters == map[] && q.fired == {}
                && LoadsTo(old(DiskOf(file, ledger)), q.items, q.health, q.OnDisk())
    {
      hide LoadsTo, Keyed, CacheItems, ChainItems;
      q := new ApprovalQueue(file, ledger);
      var ok := q.Load();
      if !ok {
        q := null;
      }
    }

    /** Rebuild from the chain, then fold in what the cache adds; never empty because a file was unreadable. */
    method Load() returns (ok: bool)
      requires health == Health(false, CacheOk, 0, 0, {})
      modifies this`items, this`health, file, ledger
      ensures ok == !old(file.content).NotUtf8?
      ensures !ok ==> OnDisk() == old(OnDisk())
      ensures ok ==> Keyed(items) && LoadsTo(old(OnDisk()), items, health, OnDisk())
    {
      hide Replay, RowItems, Keyed, CacheDegraded, StateDifferences, ReadStatus;
      ghost var before := OnDisk();
      ok := Rebuild();
      if !ok {
        return;
      }
      if health.degraded || health.reconciled != {} {
        Alarm();
      }
      assert OnDisk() == before.(chain := if Alarms(before) then before.AfterAlarm() else before.chain);
      assert Rebuilt(before, items, health);
      if health.degraded && items != map[] {
        var repaired := Persist();
        if repaired {
          health := health.(cache := CacheRebuilt);
        }
      }
    }

    method Rebuild() returns (ok: bool)
      requires health == Health(false, CacheOk, 0, 0, {})
      modifies this`items, this`health
      ensures ok == !file.content.NotUtf8?
      ensures ok ==> Keyed(items) && Rebuilt(OnDisk(), items, health)
    {
      var cached;
      ok, cached := ReadCache();
      if !ok {
        return;
      }
      var chain := ReadLedger();
      var reconciled, cacheOnly;
      items, reconciled, cacheOnly := FoldInCache(chain, cached);
      health := health.(rebuiltFromLedger := |chain|, cacheOnlyEntries := |cacheOnly|, reconciled := reconciled);
    }

    method Alarm()
      modifies ledger
      ensures OnDisk() == old(OnDisk()).(chain := old(OnDisk()).AfterAlarm())
    {
      if ledger != null {
        var _ := ledger.Append(AlarmEntry);
      }
    }

    /** A cache that cannot be read degrades; it never empties the queue. Decoding it, though, may fail outright. */
    method ReadCache() returns (ok: bool, cached: Items)
      requires health == Health(false, CacheOk, 0, 0, {})
      modifies this`health
      ensures ok == !file.content.NotUtf8?
      ensures !ok ==> health == old(health)
      ensures ok ==> cached == CacheItems(file.content)
      ensures ok ==> health == Health(CacheDegraded(file.content), ReadStatus(file.content), 0, 0, {})
    {
      ok, cached := true, map[];
      match file.content
      case Absent =>
      case NotUtf8 =>
        ok := false;
      case Unreadable =>
        health := health.(degraded := true, cache := CacheUnreadable);
      case NotAList =>
        health := health.(degraded := true, cache := CacheMalformed);
      case Rows(rows) =>
        var dropped;
        cached, dropped := ReadRows(rows);
        if dropped > 0 {
          health := health.(degraded := true, cache := CachePartial);
        }
    }

    method ReadLedger() returns (chain: Items)
      modifies this`health
      ensures chain == ChainItems(OnDisk())
      ensures health == old(health).(degraded := old(health).degraded || (ledger != null && !ledger.readable))
    {
      if ledger == null {
        return map[];
      }
      if !ledger.readable {
        health := health.(degraded := true);
        return map[];
      }
      chain := ReplayChain(ledger.entries);
    }

    /** Write the queue: all of it or nothing. */
    method Persist() returns (ok: bool)
      requires Keyed(items)
      modifies file
      ensures ok == file.writable
      ensures if ok then Holds(file.content, items) else file.content == old(file.content)
      ensures OnDisk() == old(OnDisk()).(cache := file.content)
    {
      var rows := RowsOf(items);
      ok := file.Replace(rows);
    }

    method Enqueue(effectId: string, reversibilityClass: string, effectType: Option<string>,
                   description: Option<string>, signalId: Option<string>, approvalId: string)
      returns (r: EnqueueResult)
      requires ValidQueue(Model())
      modifies this, file
      ensures ValidQueue(Model()) && health == old(health)
      ensures var a := Approval(approvalId, effectId, effectType, reversibilityClass, description, signalId,
                                Pending, None, None, None, None);
              && Model() == Enqueued(old(Model()), a)
              && r == if file.writable then EnqueueOk(a) else EnqueueNotPersisted
      ensures if file.writable then Holds(file.content, items) else file.content == old(file.content)
    {
      var a := Approval(approvalId, effectId, effectType, reversibilityClass, description, signalId,
                        Pending, None, None, None, None);
      items := items[approvalId := a];
      waiters := waiters[approvalId := nextEvent];
      nextEvent := nextEvent + 1;
      var ok := Persist();
      r := if ok then EnqueueOk(a) else EnqueueNotPersisted;
    }

    /** Record a human decision. It takes a subject, and the first decision is the only one. */
    method Decide(id: string, decision: string, decidedBy: string, rationale: Option<string>,
                  issuer: Option<string>, authMode: Option<string>)
      returns (r: DecideResult)
      requires ValidQueue(Model())
      modifies this, file
      ensures ValidQueue(Model()) && health == old(health)
      ensures r.SubjectRequired? <==> decidedBy == ""
      ensures r.ApprovalNotFound? <==> decidedBy != "" && id !in old(items)
      ensures r.AlreadyDecided? <==> decidedBy != "" && id in old(items) && old(items)[id].state != Pending
      ensures r.SubjectRequired? || r.ApprovalNotFound? || r.AlreadyDecided? ==>
                Model() == old(Model()) && file.content == old(file.content)
      ensures r.DecideOk? || r.DecideNotPersisted? ==>
                var a := DecidedApproval(old(items)[id], decision, decidedBy, rationale, issuer, authMode);
                && r == (if file.writable then DecideOk(a) else DecideNotPersisted)
                && Model() == DecidedIn(old(Model()), a, file.writable)
                && (if file.writable then Holds(file.content, items) else file.content == old(file.content))
    {
      if decidedBy == "" {
        return SubjectRequired;
      }
      if id !in items {
        return ApprovalNotFound;
      }
      if items[id].state != Pending {
        return AlreadyDecided;
      }
      var a := items[id].(state := if decision == "approve" then Approved else Rejected);
      a := a.(decidedBy := Some(decidedBy), issuer := issuer, authMode := authMode, rationale := rationale);
      items := items[id := a];
      var ok := Persist();
      if !ok {
        return DecideNotPersisted;
      }
      if id in waiters {
        fired := fired + {waiters[id]};
      }
      r := DecideOk(a);
    }

    /** The part of `wait` under the lock: an approval already decided, or the event to block on. */
    method EnterWait(id: string) returns (found: bool, decided: Option<Approval>, event: nat)
      requires ValidQueue(Model())
      modifies this`waiters, this`nextEvent
      ensures ValidQueue(Model())
      ensures found <==> id in items
      ensures found ==> (decided.Some? <==> items[id].state != Pending)
      ensures decided.Some? ==> found && decided.value == items[id]
      ensures found && decided.None? ==> Model() == Registered(old(Model()), id) && event == waiters[id]
      ensures !found || decided.Some? ==> Model() == old(Model())
    {
      found, decided, event := id in items, None, 0;
      if !found {
        return;
      }
      if items[id].state != Pending {
        decided := Some(items[id]);
        return;
      }
      if id !in waiters {
        waiters := waiters[id := nextEvent];
        nextEvent := nextEvent + 1;
      }
      event := waiters[id];
    }

    /** The undecided approvals, each once, in some order. */
    method PendingApprovals() returns (pending: seq<Approval>)
      requires Keyed(items)
      ensures forall a :: a in pending <==> a in items.Values && a.state == Pending
      ensures forall i, j | 0 <= i < j < |pending| :: pending[i].id != pending[j].id
    {
      pending := [];
      var todo := items.Keys;
      while todo != {}
        invariant todo <= items.Keys
        invariant forall a <- pending :: a in items.Values && a.state == Pending && a.id !in todo
        invariant forall id <- items :: id !in todo && items[id].state == Pending ==> items[id] in pending
        invariant forall i, j | 0 <= i < j < |pending| :: pending[i].id != pending[j].id
        decreases todo
      {
        var id :| id in todo;
        todo := todo - {id};
        if items[id].state == Pending {
          assert forall a <- pending :: a.id != id;
          pending := pending + [items[id]];
        }
      }
    }
  }
}
