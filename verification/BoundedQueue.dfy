/** The bounded store-and-forward queue (os-base/conecsa_common/bounded_sqlite.py) with the write path
    of the audit buffer (api-gateway/gateway/audit.py). Any database command may raise; the choice
    is left open, so the contracts hold for every pattern of failures. */
module BoundedQueue {
  import opened QueueTables

  /** The table and the next automatic id. */
  datatype Db = Db(rows: seq<Row>, nextId: nat) {
    ghost predicate Valid() {
      Increasing(rows) && forall k :: 0 <= k < |rows| ==> rows[k].id < nextId
    }
  }

  /** How opening the database ends: a raised sqlite error, or an error of the file system. */
  datatype Opening = Opened | SqlError | OsError

  /** How a public operation ends: carried out, skipped while cooling down, a swallowed database
      error, or a file-system error that escapes to the caller. */
  datatype Outcome = Done | Skipped | Recovered | Escaped

  /** The steps of one operation that may raise; each happens at most once. */
  datatype Ask =
    | Directory | Connect | ConnectFresh
    | RecoverDirectory | RecoverConnect | RecoverFresh
    | Insert | CommitInsert
    | SelectBatch(k: nat) | DeleteRow(id: nat) | CommitEviction
    | CountChunk(k: nat) | DeleteChunk(k: nat) | CommitAck
    | Query | Fetch(k: nat)

  /** Which steps of an operation raise. */
  type Plan = Ask -> bool

  datatype Until = Never | At(time: int)

  /** A record's identity: ids restart with every fresh database. */
  type Tag = (nat, nat)

  /** What became of every record whose insertion was committed. */
  datatype Ledger = Ledger(era: nat, recorded: set<Tag>, acked: set<Tag>, evicted: set<Tag>, lost: set<Tag>)

  const EVICT_BATCH := 100
  const ACK_CHUNK := 500
  const DEFAULT_PAGE_LIMIT := 25
  const MAX_PAGE_LIMIT := 200
  const DISABLE_COOLDOWN_S := 60

  /** Where the n-th batch and the k-th chunk begin. */
  function BatchStart(n: nat): nat {
    n * 100
  }

  function ChunkStart(k: nat): nat {
    k * 500
  }

  ghost function Tags(era: nat, rows: seq<Row>): set<Tag> {
    set k | 0 <= k < |rows| :: (era, rows[k].id)
  }

  /** Recorded rows are the disjoint union of pending, acknowledged, evicted and quarantined ones. */
  ghost predicate Balanced(l: Ledger, db: Db) {
    var pending := Tags(l.era, db.rows);
    && l.recorded == pending + l.acked + l.evicted + l.lost
    && pending !! l.acked && pending !! l.evicted && pending !! l.lost
    && l.acked !! l.evicted && l.acked !! l.lost && l.evicted !! l.lost
    && forall t :: t in l.recorded ==> t.0 < l.era || (t.0 == l.era && t.1 < db.nextId)
  }

  lemma BalancedInsert(l: Ledger, db: Db, row: Row)
    requires Balanced(l, db) && row.id == db.nextId
    ensures Balanced(Inserted(l, row.id), Db(db.rows + [row], db.nextId + 1))
  {
    var rows := db.rows + [row];
    assert Tags(l.era, rows) == Tags(l.era, db.rows) + {(l.era, row.id)} by {
      assert rows[|db.rows|] == row;
      forall k | 0 <= k < |db.rows| ensures rows[k] == db.rows[k] {
      }
    }
    assert (l.era, row.id) !in l.recorded;
  }

  lemma BalancedRemove(l: Ledger, db: Db, rows: seq<Row>, evict: bool)
    requires Balanced(l, db) && Tags(l.era, rows) <= Tags(l.era, db.rows)
    ensures Balanced(Removed(l, db.rows, rows, evict), Db(rows, db.nextId))
  {
  }

  lemma BalancedLost(l: Ledger, db: Db)
    requires Balanced(l, db)
    ensures Balanced(Quarantined(l, db), Db([], 1))
  {
    assert Tags(l.era + 1, []) == {};
  }

  ghost function Inserted(l: Ledger, id: nat): Ledger {
    l.(recorded := l.recorded + {(l.era, id)})
  }

  /** Rows deleted by an eviction or by an acknowledgement. */
  ghost function Removed(l: Ledger, was: seq<Row>, now: seq<Row>, evict: bool): Ledger {
    var gone := Tags(l.era, was) - Tags(l.era, now);
    if evict then l.(evicted := l.evicted + gone) else l.(acked := l.acked + gone)
  }

  /** A quarantined database takes its pending rows with it. */
  ghost function Quarantined(l: Ledger, db: Db): Ledger {
    l.(era := l.era + 1, lost := l.lost + Tags(l.era, db.rows))
  }

  lemma TagsSubset(era: nat, rows: seq<Row>, sub: seq<Row>)
    requires forall r :: r in sub ==> r in rows
    ensures Tags(era, sub) <= Tags(era, rows)
  {
    forall t | t in Tags(era, sub) ensures t in Tags(era, rows) {
      var k :| 0 <= k < |sub| && t == (era, sub[k].id);
      assert sub[k] in rows;
      var j :| 0 <= j < |rows| && rows[j] == sub[k];
    }
  }

  function PageLimit(limit: int): (r: nat)
    ensures 1 <= r <= MAX_PAGE_LIMIT
  {
    var wanted := if limit == 0 then DEFAULT_PAGE_LIMIT else limit;
    var capped := if wanted < MAX_PAGE_LIMIT then wanted else MAX_PAGE_LIMIT;
    if capped < 1 then 1 else capped
  }

  /** The oldest rows, as many as asked for: 25 by default, 200 at most and one at least, fewer only when the
      rows run out or the next one would take the page over the byte cap. */
  ghost predicate FillsPage(rows: seq<Row>, page: seq<Row>, limit: int, cap: PageCap) {
    && page <= rows
    && (limit == 0 ==> |page| <= 25) && (limit < 0 ==> |page| <= 1)
    && (0 < limit <= 200 ==> |page| <= limit) && (limit > 200 ==> |page| <= 200)
    && (cap.ByteCap? && |page| > 1 ==> Size(page) <= cap.bytes)
    && (|page| == |rows|
        || (limit == 0 && |page| == 25) || (limit < 0 && |page| == 1)
        || (0 < limit <= 200 && |page| == limit) || (limit > 200 && |page| == 200)
        || (cap.ByteCap? && page != [] && Size(page) + rows[|page|].size > cap.bytes))
  }

  lemma PageFills(rows: seq<Row>, page: seq<Row>, limit: int, cap: PageCap)
    requires IsPage(rows, page, PageLimit(limit), cap)
    ensures FillsPage(rows, page, limit, cap)
  {
    assert rows[..|page|] == page;
    if |page| < |rows| {
      SizePrefix(rows, |page|);
      assert !PageAllowed(rows, |page| + 1, PageLimit(limit), cap);
    }
  }

  function IdSet(ids: seq<int>): set<int> {
    set i | i in ids
  }

  lemma WithoutRows(rows: seq<Row>, ids: set<int>)
    ensures forall r :: r in Without(rows, ids) ==> r in rows
  {
    forall r | r in Without(rows, ids) ensures r in rows {
      WithoutMember(rows, ids, r);
    }
  }

  // ── what a plan makes of an operation ────────────────────────────────────────────

  /** Opening: the directory, then the database, then a fresh one in its place. */
  function Opens(plan: Plan, recovering: bool): Opening {
    if plan(if recovering then RecoverDirectory else Directory) then OsError
    else if plan(if recovering then RecoverConnect else Connect)
            && plan(if recovering then RecoverFresh else ConnectFresh) then SqlError
    else Opened
  }

  /** A database that cannot be opened is set aside. */
  predicate SetAside(plan: Plan, recovering: bool) {
    !plan(if recovering then RecoverDirectory else Directory) && plan(if recovering then RecoverConnect else Connect)
  }

  function Reopened(plan: Plan, recovering: bool, d: Db): Db {
    if SetAside(plan, recovering) then Db([], 1) else d
  }

  ghost function LedgerReopened(plan: Plan, recovering: bool, l: Ledger, d: Db): Ledger {
    if SetAside(plan, recovering) then Quarantined(l, d) else l
  }

  function Inserts(plan: Plan): bool {
    !plan(Insert) && !plan(CommitInsert)
  }

  /** The deletes of rows from..to do not raise. */
  ghost predicate RowsDelete(plan: Plan, rows: seq<Row>, from: nat, to: nat)
    requires to <= |rows|
  {
    forall i :: from <= i < to ==> !plan(DeleteRow(rows[i].id))
  }

  lemma RowsDeleteNext(plan: Plan, rows: seq<Row>, from: nat, to: nat, end: nat)
    requires from <= to < end <= |rows| && RowsDelete(plan, rows, from, to)
    ensures RowsDelete(plan, rows, from, to + 1) <==> !plan(DeleteRow(rows[to].id))
    ensures plan(DeleteRow(rows[to].id)) ==> !RowsDelete(plan, rows, 0, end)
  {
  }

  /** Every batch eviction reads and every row it takes can be read and deleted. */
  ghost predicate Cuts(plan: Plan, rows: seq<Row>, maxRecords: int, maxBytes: int) {
    var dropped := Dropped(rows, maxRecords, maxBytes);
    && (forall n: nat :: BatchStart(n) < dropped ==> !plan(SelectBatch(n)))
    && RowsDelete(plan, rows, 0, dropped)
  }

  lemma CutsReached(plan: Plan, rows: seq<Row>, maxRecords: int, maxBytes: int, n: nat, dropped: nat)
    requires dropped == Dropped(rows, maxRecords, maxBytes) && dropped <= BatchStart(n)
    requires forall j :: 0 <= j < n ==> !plan(SelectBatch(j))
    requires RowsDelete(plan, rows, 0, dropped)
    ensures Cuts(plan, rows, maxRecords, maxBytes)
  {
  }

  lemma CutsBroken(plan: Plan, rows: seq<Row>, maxRecords: int, maxBytes: int, n: nat)
    requires BatchStart(n) < Dropped(rows, maxRecords, maxBytes)
    requires plan(SelectBatch(n))
             || !RowsDelete(plan, rows, 0, Dropped(rows, maxRecords, maxBytes))
    ensures !Cuts(plan, rows, maxRecords, maxBytes)
  {
  }

  ghost predicate Evicts(plan: Plan, rows: seq<Row>, maxRecords: int, maxBytes: int) {
    Cuts(plan, rows, maxRecords, maxBytes) && (Dropped(rows, maxRecords, maxBytes) > 0 ==> !plan(CommitEviction))
  }

  /** Every chunk up to the n-th id is counted and deleted. */
  ghost predicate Chunks(plan: Plan, n: nat) {
    forall k: nat :: ChunkStart(k) < n ==> !plan(CountChunk(k)) && !plan(DeleteChunk(k))
  }

  /** The query runs and every step of the cursor over the page and past it does. */
  ghost predicate Reads(plan: Plan, rows: seq<Row>, limit: nat, cap: PageCap) {
    !plan(Query) && forall k :: 0 <= k <= PageLen(rows, 0, limit, cap) ==> !plan(Fetch(k))
  }

  class Queue {
    const maxRecords: int
    const maxBytes: int
    const cap: PageCap
    /** What is committed, and what the connection sees with its uncommitted work. */
    var disk: Db
    var view: Db
    var connected: bool
    var disabledUntil: Until
    var count: int
    var bytes: int
    ghost var ledger: Ledger

    ghost predicate Stored()
      reads this
    {
      disk.Valid() && view.Valid() && Balanced(ledger, disk)
    }

    /** The cached counters agree with the table the connection sees. */
    ghost predicate Loaded()
      reads this
    {
      connected && count == |view.rows| && bytes == Size(view.rows)
    }

    /** Between operations there is no uncommitted work, and an open connection has right counters. */
    ghost predicate Valid()
      reads this
    {
      Stored() && (connected ==> Loaded() && view == disk)
    }

    predicate Disabled(now: int)
      reads this
    {
      disabledUntil.At? && now < disabledUntil.time
    }

    /** The table an operation works on, and whether it gets a connection to it. */
    function Base(plan: Plan): Db
      reads this
    {
      if connected then disk else Reopened(plan, false, disk)
    }

    predicate Connects(plan: Plan)
      reads this
    {
      connected || Opens(plan, false).Opened?
    }

    constructor (db: Db, maxRecords: int, maxBytes: int, cap: PageCap, now: int, plan: Plan)
      requires db.Valid()
      ensures Valid() && this.maxRecords == maxRecords && this.maxBytes == maxBytes && this.cap == cap
      ensures disk == Reopened(plan, false, db)
      ensures connected <==> Opens(plan, false).Opened?
      ensures disabledUntil == if connected then Never else At(now + 60)
    {
      this.maxRecords, this.maxBytes, this.cap := maxRecords, maxBytes, cap;
      disk, view, connected, count, bytes := db, db, false, 0, 0;
      disabledUntil := Never;
      ledger := Ledger(0, Tags(0, db.rows), {}, {}, {});
      new;
      assert Balanced(ledger, disk);
      var r := Open(plan, false);
      if !r.Opened? {
        disabledUntil := At(now + DISABLE_COOLDOWN_S);
      }
    }

    /** Open the database; one that cannot be opened is quarantined and a fresh one is tried. */
    method Open(plan: Plan, recovering: bool) returns (r: Opening)
      requires Stored() && !connected
      modifies this
      ensures Valid() && r == Opens(plan, recovering)
      ensures disk == Reopened(plan, recovering, old(disk))
      ensures ledger == LedgerReopened(plan, recovering, old(ledger), old(disk))
      ensures connected <==> r.Opened?
      ensures disabledUntil == if connected then Never else old(disabledUntil)
    {
      if plan(if recovering then RecoverDirectory else Directory) {
        return OsError;
      }
      if plan(if recovering then RecoverConnect else Connect) {
        BalancedLost(ledger, disk);
        ledger := Quarantined(ledger, disk);
        disk, view := Db([], 1), Db([], 1);
        if plan(if recovering then RecoverFresh else ConnectFresh) {
          return SqlError;
        }
      }
      view, connected := disk, true;
      count, bytes := |view.rows|, Size(view.rows);
      disabledUntil := Never;
      return Opened;
    }

    /** The connection, reopened when an earlier failure closed it. */
    method EnsureOpen(plan: Plan) returns (r: Opening)
      requires Valid()
      modifies this
      ensures Valid() && disk == old(Base(plan))
      ensures r == if old(connected) then Opened else Opens(plan, false)
      ensures connected <==> r.Opened?
      ensures old(connected) ==> ledger == old(ledger) && disabledUntil == old(disabledUntil)
      ensures !old(connected) ==> ledger == LedgerReopened(plan, false, old(ledger), old(disk))
      ensures !old(connected) && r.Opened? ==> disabledUntil == Never
    {
      if connected {
        return Opened;
      }
      r := Open(plan, false);
    }

    /** One reopen attempt, which drops uncommitted work and reloads the counters; else cool down. */
    method HandleDbError(now: int, plan: Plan)
      requires Stored()
      modifies this
      ensures Valid() && disk == Reopened(plan, true, old(disk))
      ensures ledger == LedgerReopened(plan, true, old(ledger), old(disk))
      ensures connected <==> Opens(plan, true).Opened?
      ensures disabledUntil == if connected then Never else At(now + 60)
    {
      connected := false;
      var r := Open(plan, true);
      if !r.Opened? {
        disabledUntil := At(now + DISABLE_COOLDOWN_S);
      }
    }

    /** Deletes of one transaction become durable, or the commit raises. */
    method CommitDeletes(raises: bool, evict: bool)
      requires Stored() && Loaded() && view.nextId == disk.nextId && forall r :: r in view.rows ==> r in disk.rows
      modifies this`disk, this`ledger
      ensures Stored() && Loaded() && view == old(view)
      ensures disk == if raises then old(disk) else view
      ensures ledger == if raises then old(ledger) else Removed(old(ledger), old(disk.rows), view.rows, evict)
    {
      if !raises {
        TagsSubset(ledger.era, disk.rows, view.rows);
        BalancedRemove(ledger, disk, view.rows, evict);
        ledger := Removed(ledger, disk.rows, view.rows, evict);
        disk := view;
      }
    }

    /** Still over a cap with more than one row left. */
    predicate Over()
      reads this
    {
      count > 1 && (count > maxRecords || bytes > maxBytes)
    }

    /** Eviction has taken the k oldest of the rows it started from, none too many. */
    ghost predicate Evicting(start: seq<Row>, k: nat)
      reads this
    {
      k <= Dropped(start, maxRecords, maxBytes) && view.rows == start[k..] && Loaded()
    }

    /** One row deleted by its id; false when the command raised. */
    method EvictOldest(row: Row, plan: Plan, ghost start: seq<Row>, ghost k: nat) returns (ok: bool)
      requires view.Valid() && Evicting(start, k) && Over() && view.rows != [] && row == view.rows[0]
      modifies this`view, this`count, this`bytes
      ensures view.Valid() && view.nextId == old(view.nextId)
      ensures ok == !plan(DeleteRow(row.id))
      ensures ok ==> Evicting(start, k + 1) && count == old(count) - 1
    {
      ok := !plan(DeleteRow(row.id));
      if ok {
        CutAt(start, k, maxRecords, maxBytes);
        AckPrefix(view.rows, 1);
        assert Ids(view.rows[..1]) == {row.id as int} by {
          assert view.rows[..1][0] == row;
        }
        assert start[k..][1..] == start[k + 1..];
        view := view.(rows := Without(view.rows, {row.id as int}));
        count, bytes := count - 1, bytes - row.size;
      }
    }

    /** The row at position k of the rows eviction started from. */
    method EvictNext(row: Row, plan: Plan, ghost start: seq<Row>, ghost from: nat, ghost k: nat) returns (ok: bool)
      requires view.Valid() && Evicting(start, k) && Over() && k < |start| && row == start[k]
      requires from <= k && RowsDelete(plan, start, from, k)
      modifies this`view, this`count, this`bytes
      ensures view.Valid() && view.nextId == old(view.nextId)
      ensures ok ==> Evicting(start, k + 1) && count == old(count) - 1 && RowsDelete(plan, start, from, k + 1)
      ensures !ok ==> !RowsDelete(plan, start, 0, Dropped(start, maxRecords, maxBytes))
    {
      CutAt(start, k, maxRecords, maxBytes);
      RowsDeleteNext(plan, start, from, k, Dropped(start, maxRecords, maxBytes));
      ok := EvictOldest(row, plan, start, k);
    }

    /** One batch of the oldest rows; stops early only when both caps hold. */
    method EvictBatch(n: nat, plan: Plan, ghost start: seq<Row>, ghost k: nat) returns (ok: bool, dropped: nat)
      requires view.Valid() && Evicting(start, k) && Over()
      modifies this`view, this`count, this`bytes
      ensures view.Valid() && view.nextId == old(view.nextId)
      ensures !ok ==> plan(SelectBatch(n)) || !RowsDelete(plan, start, 0, Dropped(start, maxRecords, maxBytes))
      ensures ok ==> !plan(SelectBatch(n)) && 0 < dropped && k + dropped <= |start| && Evicting(start, k + dropped)
      ensures ok ==> RowsDelete(plan, start, k, k + dropped)
      ensures ok ==> dropped <= EVICT_BATCH && (dropped == EVICT_BATCH || !Over())
    {
      dropped := 0;
      ok := !plan(SelectBatch(n));
      if !ok {
        return;
      }
      var size := if |view.rows| < EVICT_BATCH then |view.rows| else EVICT_BATCH;
      var batch := view.rows[..size];
      var over := if count > maxRecords then count - maxRecords else 0;
      while dropped < |batch|
        invariant view.Valid() && view.nextId == old(view.nextId) && ok
        invariant 0 <= dropped <= |batch| && Evicting(start, k + dropped)
        invariant k + |batch| <= |start| && batch == start[k..k + |batch|]
        invariant RowsDelete(plan, start, k, k + dropped)
        invariant over > 0 <==> count > maxRecords
        invariant over > 0 ==> over == count - maxRecords
        invariant dropped == 0 ==> Over()
      {
        if !(count > 1 && (over > 0 || bytes > maxBytes)) {
          break;
        }
        ok := EvictNext(batch[dropped], plan, start, k, k + dropped);
        if !ok {
          return;
        }
        over := over - 1;
        dropped := dropped + 1;
      }
    }

    /** Batch after batch until both caps hold or one row is left. */
    method EvictRows(plan: Plan, ghost start: seq<Row>) returns (ok: bool, discarded: nat)
      requires view.Valid() && Evicting(start, 0)
      modifies this`view, this`count, this`bytes
      ensures view.Valid() && view.nextId == old(view.nextId)
      ensures ok <==> Cuts(plan, start, maxRecords, maxBytes)
      ensures ok ==> discarded == Dropped(start, maxRecords, maxBytes)
      ensures ok ==> Evicting(start, discarded) && view.rows == Trim(start, maxRecords, maxBytes)
    {
      discarded := 0;
      var n := 0;
      while Over()
        invariant view.Valid() && view.nextId == old(view.nextId) && Evicting(start, discarded)
        invariant discarded == BatchStart(n) || !Over()
        invariant forall j :: 0 <= j < n ==> !plan(SelectBatch(j))
        invariant RowsDelete(plan, start, 0, discarded)
        invariant discarded <= BatchStart(n)
        decreases |start| - discarded
      {
        CutAt(start, discarded, maxRecords, maxBytes);
        var dropped;
        ok, dropped := EvictBatch(n, plan, start, discarded);
        if !ok {
          CutsBroken(plan, start, maxRecords, maxBytes, n);
          return;
        }
        discarded, n := discarded + dropped, n + 1;
      }
      CutAt(start, discarded, maxRecords, maxBytes);
      CutsReached(plan, start, maxRecords, maxBytes, n, discarded);
      ok := true;
    }

    /** Drop oldest rows while over the caps; false when a command raised. */
    method EvictOverCaps(plan: Plan) returns (ok: bool)
      requires Stored() && Loaded() && view == disk
      modifies this`view, this`count, this`bytes, this`disk, this`ledger
      ensures Stored()
      ensures ok <==> Evicts(plan, old(disk.rows), maxRecords, maxBytes)
      ensures ok ==> Loaded() && view == disk && disk.nextId == old(disk.nextId)
      ensures ok ==> disk.rows == Trim(old(disk.rows), maxRecords, maxBytes)
      ensures ok ==> ledger == Removed(old(ledger), old(disk.rows), disk.rows, true)
      ensures !ok ==> disk == old(disk) && ledger == old(ledger)
    {
      ghost var start := view.rows;
      assert start[0..] == start;
      var discarded;
      ok, discarded := EvictRows(plan, start);
      if !ok {
        return;
      }
      if discarded > 0 {
        CommitDeletes(plan(CommitEviction), true);
        ok := !plan(CommitEviction);
      } else {
        assert Removed(ledger, disk.rows, disk.rows, true) == ledger;
      }
    }

    /** The inserted row becomes durable, or a command raises and nothing is. */
    method InsertRow(event: string, size: nat, plan: Plan) returns (ok: bool)
      requires Stored() && Loaded() && view == disk
      modifies this`view, this`disk, this`ledger, this`count, this`bytes
      ensures Stored() && ok == Inserts(plan)
      ensures ok ==> Loaded() && view == disk
      ensures ok ==> disk == Db(old(disk.rows) + [Row(old(disk.nextId), size, event)], old(disk.nextId) + 1)
      ensures ok ==> ledger == Inserted(old(ledger), old(disk.nextId))
      ensures !ok ==> disk == old(disk) && ledger == old(ledger)
    {
      var row := Row(disk.nextId, size, event);
      ok := !plan(Insert);
      if !ok {
        return;
      }
      view := Db(view.rows + [row], view.nextId + 1);
      ok := !plan(CommitInsert);
      if !ok {
        return;
      }
      BalancedInsert(ledger, disk, row);
      ledger := Inserted(ledger, row.id);
      disk := view;
      SizeAppend(old(disk.rows), [row]);
      count, bytes := count + 1, bytes + size;
    }

    /** Append one event and evict. Any database error is answered with one reopen attempt; a failing
        directory step is not caught. */
    method Record(event: string, size: nat, now: int, plan: Plan) returns (outcome: Outcome)
      requires Valid()
      modifies this
      ensures Valid()
      ensures outcome.Skipped? <==> old(Disabled(now))
      ensures outcome.Escaped? <==> !old(Disabled(now)) && !old(connected) && plan(Directory)
      ensures outcome.Done? <==> !old(Disabled(now)) && old(Connects(plan)) && Inserts(plan)
                                 && Evicts(plan, Appended(old(Base(plan)), size, event).rows, maxRecords, maxBytes)
      ensures outcome.Skipped? || outcome.Escaped? ==> disk == old(disk) && ledger == old(ledger)
      ensures outcome.Done? ==> connected && disk.nextId == old(Base(plan)).nextId + 1
      ensures outcome.Done? ==>
        disk.rows == Trim(Appended(old(Base(plan)), size, event).rows, maxRecords, maxBytes)
      ensures outcome.Done? && old(connected) ==>
        ledger == Removed(Inserted(old(ledger), old(disk.nextId)),
                          Appended(old(disk), size, event).rows, disk.rows, true)
      ensures outcome.Recovered? ==>
        disk == Reopened(plan, true, if old(Connects(plan)) && Inserts(plan)
                                     then Appended(old(Base(plan)), size, event) else old(Base(plan)))
      ensures outcome.Recovered? ==> (connected <==> Opens(plan, true).Opened?)
      ensures outcome.Recovered? && !connected ==> disabledUntil == At(now + 60)
    {
      if Disabled(now) {
        return Skipped;
      }
      var opening := EnsureOpen(plan);
      if opening.OsError? {
        return Escaped;
      }
      if opening.SqlError? {
        HandleDbError(now, plan);
        return Recovered;
      }
      var ok := InsertRow(event, size, plan);
      if ok {
        ok := EvictOverCaps(plan);
      }
      if !ok {
        HandleDbError(now, plan);
        return Recovered;
      }
      return Done;
    }

    /** The counting query and the delete of one chunk of ids. */
    method DeleteIds(ids: set<int>, k: nat, plan: Plan) returns (ok: bool, freed: int)
      requires Stored() && Loaded()
      modifies this`view, this`count, this`bytes
      ensures Stored() && view.nextId == old(view.nextId)
      ensures ok <==> !plan(CountChunk(k)) && !plan(DeleteChunk(k))
      ensures ok ==> Loaded() && view.rows == Without(old(view.rows), ids)
      ensures ok ==> freed == |old(view.rows)| - |view.rows|
    {
      freed := 0;
      ok := !plan(CountChunk(k)) && !plan(DeleteChunk(k));
      if !ok {
        return;
      }
      var named := Named(view.rows, ids);
      SplitByName(view.rows, ids);
      WithoutIncreasing(view.rows, ids);
      var rows := Without(view.rows, ids);
      forall k | 0 <= k < |rows| ensures rows[k].id < view.nextId {
        WithoutMember(view.rows, ids, rows[k]);
        var j :| 0 <= j < |view.rows| && view.rows[j] == rows[k];
      }
      view := view.(rows := rows);
      freed := |named|;
      count, bytes := count - freed, bytes - Size(named);
    }

    /** All chunks in turn; what was counted before a failure is still reported. done are the ids of
        the chunks deleted. */
    method DeleteChunks(ids: seq<int>, plan: Plan) returns (ok: bool, deleted: int, ghost done: nat)
      requires Stored() && Loaded() && view == disk
      modifies this`view, this`count, this`bytes
      ensures Stored() && view.nextId == disk.nextId
      ensures ok <==> Chunks(plan, |ids|)
      ensures done <= |ids| && (ok ==> done == |ids|)
      ensures !ok ==> exists k: nat :: done == ChunkStart(k) && (plan(CountChunk(k)) || plan(DeleteChunk(k)))
      ensures deleted == |disk.rows| - |Without(disk.rows, IdSet(ids[..done]))|
      ensures ok ==> Loaded() && view.rows == Without(disk.rows, IdSet(ids))
    {
      deleted, done := 0, 0;
      var start, k := 0, 0;
      assert IdSet(ids[..0]) == {};
      WithoutNone(disk.rows, {});
      while start < |ids|
        invariant 0 <= start <= |ids| && Stored() && Loaded() && view.nextId == disk.nextId
        invariant done == start && start == (if ChunkStart(k) < |ids| then ChunkStart(k) else |ids|)
        invariant forall j :: 0 <= j < k ==> !plan(CountChunk(j)) && !plan(DeleteChunk(j))
        invariant view.rows == Without(disk.rows, IdSet(ids[..start])) && deleted == |disk.rows| - |view.rows|
      {
        var end := if start + ACK_CHUNK < |ids| then start + ACK_CHUNK else |ids|;
        var chunk := IdSet(ids[start..end]);
        ChunkDeleted(disk.rows, ids, start, end);
        var freed;
        ok, freed := DeleteIds(chunk, k, plan);
        if !ok {
          return;
        }
        deleted := deleted + freed;
        start, done, k := end, end, k + 1;
      }
      assert ids[..start] == ids;
      ok := true;
    }

    /** Delete records the hub confirmed, in chunks of one transaction. The number returned is what was
        counted, also when an error rolls the deletions back. */
    method Ack(ids: seq<int>, now: int, plan: Plan) returns (deleted: int, outcome: Outcome, ghost done: nat)
      requires Valid()
      modifies this
      ensures Valid()
      ensures outcome.Skipped? <==> old(Disabled(now)) || ids == []
      ensures outcome.Escaped? <==> !old(Disabled(now)) && ids != [] && !old(connected) && plan(Directory)
      ensures outcome.Done? <==> !old(Disabled(now)) && ids != [] && old(Connects(plan))
                                 && Chunks(plan, |ids|) && !plan(CommitAck)
      ensures outcome.Skipped? || outcome.Escaped? ==> disk == old(disk) && ledger == old(ledger) && deleted == 0
      ensures outcome.Done? ==>
        connected && disk == old(Base(plan)).(rows := Without(old(Base(plan)).rows, IdSet(ids)))
      ensures outcome.Done? ==> deleted == |old(Base(plan)).rows| - |disk.rows|
      ensures outcome.Done? && old(connected) ==>
        ledger == Removed(old(ledger), old(disk.rows), disk.rows, false) && disabledUntil == old(disabledUntil)
      ensures outcome.Recovered? ==> disk == Reopened(plan, true, old(Base(plan)))
      ensures outcome.Recovered? ==> (connected <==> Opens(plan, true).Opened?)
      ensures outcome.Recovered? && !old(Connects(plan)) ==> deleted == 0
      ensures done <= |ids|
      ensures outcome.Recovered? && old(Connects(plan)) ==>
        deleted == |old(Base(plan)).rows| - |Without(old(Base(plan)).rows, IdSet(ids[..done]))|
      ensures outcome.Recovered? && old(Connects(plan)) ==>
        if Chunks(plan, |ids|) then done == |ids|
        else exists k: nat :: done == ChunkStart(k) && (plan(CountChunk(k)) || plan(DeleteChunk(k)))
    {
      deleted, done := 0, 0;
      if Disabled(now) || ids == [] {
        return 0, Skipped, 0;
      }
      var opening := EnsureOpen(plan);
      if opening.OsError? {
        return 0, Escaped, 0;
      }
      if opening.SqlError? {
        HandleDbError(now, plan);
        return 0, Recovered, 0;
      }
      var ok;
      ghost var base := disk;
      ok, deleted, done := DeleteChunks(ids, plan);
      if ok {
        WithoutRows(base.rows, IdSet(ids));
        assert ids[..|ids|] == ids;
        CommitDeletes(plan(CommitAck), false);
      }
      if !ok || plan(CommitAck) {
        HandleDbError(now, plan);
        return deleted, Recovered, done;
      }
      return deleted, Done, done;
    }

    /** One page of stored rows, oldest first, read row by row from the cursor. */
    method ListBacklog(limit: int, now: int, plan: Plan) returns (page: seq<Row>, pending: int, outcome: Outcome)
      requires Valid()
      modifies this
      ensures Valid()
      ensures outcome.Skipped? <==> old(Disabled(now))
      ensures outcome.Escaped? <==> !old(Disabled(now)) && !old(connected) && plan(Directory)
      ensures outcome.Done? <==> !old(Disabled(now)) && old(Connects(plan))
                                 && Reads(plan, old(Base(plan)).rows, PageLimit(limit), cap)
      ensures outcome.Skipped? || outcome.Escaped? ==> disk == old(disk) && ledger == old(ledger)
      ensures outcome.Done? ==> connected && disk == old(Base(plan))
      ensures outcome.Done? && old(connected) ==> ledger == old(ledger) && disabledUntil == old(disabledUntil)
      ensures outcome.Done? && !old(connected) ==> disabledUntil == Never
      ensures outcome.Done? ==> IsPage(disk.rows, page, PageLimit(limit), cap) && pending == |disk.rows|
      ensures outcome.Done? ==> FillsPage(disk.rows, page, limit, cap)
      ensures !outcome.Done? ==> page == [] && pending == 0
      ensures outcome.Recovered? ==> disk == Reopened(plan, true, old(Base(plan)))
      ensures outcome.Recovered? ==> (connected <==> Opens(plan, true).Opened?)
    {
      page, pending := [], 0;
      if Disabled(now) {
        return [], 0, Skipped;
      }
      var opening := EnsureOpen(plan);
      if opening.OsError? {
        return [], 0, Escaped;
      }
      if opening.SqlError? {
        HandleDbError(now, plan);
        return [], 0, Recovered;
      }
      var ok;
      ok, page := ReadPage(PageLimit(limit), plan);
      if !ok {
        HandleDbError(now, plan);
        return [], 0, Recovered;
      }
      PageFills(disk.rows, page, limit, cap);
      return page, count, Done;
    }

    /** Step the cursor until the row limit, the byte cap or the last row. */
    method ReadPage(limit: nat, plan: Plan) returns (ok: bool, page: seq<Row>)
      requires Loaded() && limit > 0
      ensures ok <==> Reads(plan, view.rows, limit, cap)
      ensures ok ==> IsPage(view.rows, page, limit, cap)
    {
      page := [];
      ok := !plan(Query);
      var pageBytes := 0;
      var open := true;
      PageLenIsPage(view.rows, 0, limit, cap);
      while ok && open
        invariant |page| <= |view.rows| && page == view.rows[..|page|]
        invariant PageAllowed(view.rows, |page|, limit, cap)
        invariant PageLen(view.rows, 0, limit, cap) == PageLen(view.rows, |page|, limit, cap)
        invariant cap.ByteCap? ==> pageBytes == Size(page)
        invariant ok ==> !plan(Query) && forall k :: 0 <= k < |page| ==> !plan(Fetch(k))
        invariant !ok ==> plan(Query) || (plan(Fetch(|page|)) && open)
        invariant ok && !open ==> !plan(Fetch(|page|)) && |page| == PageLen(view.rows, 0, limit, cap)
        decreases ok && open, |view.rows| - |page|
      {
        ok := !plan(Fetch(|page|));
        if ok {
          open := |page| < limit && |page| < |view.rows|;
          if open {
            var row := view.rows[|page|];
            SizePrefix(view.rows, |page|);
            if cap.ByteCap? && page != [] && pageBytes + row.size > cap.bytes {
              open := false;
            } else {
              pageBytes := if cap.ByteCap? then pageBytes + row.size else pageBytes;
              page := page + [row];
            }
          }
        }
      }
    }

    /** The hub confirms the page it has just stored. */
    method Confirm(page: seq<Row>, now: int, plan: Plan) returns (outcome: Outcome)
      requires Valid() && connected && page <= disk.rows && page != []
      modifies this
      ensures Valid()
      ensures outcome.Done? <==> !old(Disabled(now)) && Chunks(plan, |page|) && !plan(CommitAck)
      ensures outcome.Done? ==> connected && disk.rows == old(disk.rows)[|page|..] && disabledUntil == old(disabledUntil)
      ensures !outcome.Done? ==> disk.rows == [] || disk.rows == old(disk.rows)
    {
      ghost var rows := disk.rows;
      var ids := seq(|page|, k requires 0 <= k < |page| => page[k].id as int);
      PageIds(page, ids);
      assert page == rows[..|page|];
      AckPrefix(rows, |page|);
      var deleted;
      ghost var done;
      deleted, outcome, done := Ack(ids, now, plan);
    }

    /** Confirm one page of the rows base, after those already confirmed, and fetch the next. */
    method Round(ghost base: seq<Row>, confirmed: seq<Row>, page: seq<Row>, limit: int, now: int,
                 acks: Plan, lists: Plan)
      returns (known: seq<Row>, next: seq<Row>, outcome: Outcome)
      requires Valid() && connected && page <= disk.rows && page != []
      requires confirmed <= base && disk.rows == base[|confirmed|..]
      modifies this
      ensures Valid()
      ensures Quiet(acks) && Quiet(lists) && !old(Disabled(now)) ==> outcome.Done?
      ensures known <= base && (known == confirmed || known == confirmed + page)
      ensures disk.rows == [] || disk.rows == base[|known|..]
      ensures outcome.Done? ==> known == confirmed + page && disk.rows == base[|known|..]
      ensures outcome.Done? ==> connected && !Disabled(now) && next <= disk.rows && (next == [] ==> disk.rows == [])
    {
      PageAdvances(base, confirmed, page);
      known, next := confirmed, [];
      outcome := Confirm(page, now, acks);
      if outcome.Done? {
        known := confirmed + page;
        var pending;
        next, pending, outcome := ListBacklog(limit, now, lists);
      }
    }

    /** The hub's loop: fetch a page, confirm its ids, until a page comes back empty. plans are those of
        its operations, in order. */
    method Drain(limit: int, now: int, plans: nat -> Plan) returns (confirmed: seq<Row>, finished: bool)
      requires Valid()
      modifies this
      ensures Valid()
      ensures confirmed <= old(Base(plans(0))).rows
      ensures confirmed != [] ==> disk.rows == [] || disk.rows == old(Base(plans(0))).rows[|confirmed|..]
      ensures finished ==> confirmed == old(Base(plans(0))).rows && disk.rows == []
      ensures !old(Disabled(now)) && QuietUpTo(plans, 2 * |old(Base(plans(0))).rows|) ==> finished
    {
      confirmed := [];
      ghost var base := Base(plans(0)).rows;
      ghost var quiet := !Disabled(now) && QuietUpTo(plans, 2 * |base|);
      var page, pending, outcome := ListBacklog(limit, now, plans(0));
      var n := 1;
      while outcome.Done? && page != []
        invariant Valid() && confirmed <= base && 0 < n && (outcome.Done? ==> n <= 2 * |confirmed| + 1)
        invariant outcome.Done? ==> connected && page <= disk.rows && (page == [] ==> disk.rows == [])
        invariant outcome.Done? ==> disk.rows == base[|confirmed|..] && !Disabled(now)
        invariant confirmed != [] ==> disk.rows == [] || disk.rows == base[|confirmed|..]
        invariant quiet ==> outcome.Done?
        decreases |base| - |confirmed|, outcome.Done?
      {
        confirmed, page, outcome := Round(base, confirmed, page, limit, now, plans(n), plans(n + 1));
        n := n + 2;
      }
      finished := outcome.Done?;
    }
  }

  /** No step of the operation raises. */
  ghost predicate Quiet(plan: Plan) {
    forall a :: !plan(a)
  }

  /** None of the first operations raises. */
  ghost predicate QuietUpTo(plans: nat -> Plan, last: nat) {
    forall n :: 0 <= n <= last ==> Quiet(plans(n))
  }

  /** With no step raising every operation that is not cooling down is carried out. */
  lemma QuietRuns(plan: Plan, rows: seq<Row>, maxRecords: int, maxBytes: int, n: nat, limit: nat, cap: PageCap)
    requires Quiet(plan)
    ensures Opens(plan, false).Opened? && Inserts(plan) && Evicts(plan, rows, maxRecords, maxBytes)
    ensures Chunks(plan, n) && Reads(plan, rows, limit, cap)
  {
  }

  function Appended(d: Db, size: nat, event: string): Db {
    Db(d.rows + [Row(d.nextId, size, event)], d.nextId + 1)
  }

  /** Recording can raise after all: past its cooldown a queue whose directory still cannot be made
      lets the file-system error through. */
  method RecordCanRaise() returns (outcome: Outcome)
    ensures outcome.Escaped?
  {
    var readOnly: Plan := a => a == Directory;
    var queue := new Queue(Db([], 1), 10, 1000, NoByteCap, 0, readOnly);
    outcome := queue.Record("login", 5, 60, readOnly);
  }

  /** An acknowledgement whose commit raises reports rows as deleted that are still there. */
  method AckOvercounts() returns (deleted: int, left: nat)
    ensures deleted == 1 && left == 1
  {
    var works: Plan := a => false;
    var stuck: Plan := a => a == CommitAck;
    var row := Row(1, 5, "login");
    var queue := new Queue(Db([row], 2), 10, 1000, NoByteCap, 0, works);
    var outcome;
    ghost var done;
    assert [1][..1] == [1] && Without([row], IdSet([1])) == [];
    deleted, outcome, done := queue.Ack([1], 0, stuck);
    left := |queue.disk.rows|;
  }

  lemma ChunkDeleted(rows: seq<Row>, ids: seq<int>, start: nat, end: nat)
    requires start <= end <= |ids|
    ensures Without(Without(rows, IdSet(ids[..start])), IdSet(ids[start..end])) == Without(rows, IdSet(ids[..end]))
  {
    WithoutTwice(rows, IdSet(ids[..start]), IdSet(ids[start..end]));
    assert ids[..end] == ids[..start] + ids[start..end];
    assert IdSet(ids[..end]) == IdSet(ids[..start]) + IdSet(ids[start..end]);
  }

  lemma PageAdvances(rows: seq<Row>, done: seq<Row>, page: seq<Row>)
    requires done <= rows && page <= rows[|done|..]
    ensures done + page <= rows && rows[|done|..][|page|..] == rows[|done + page|..]
  {
    assert forall k :: 0 <= k < |page| ==> page[k] == rows[|done|..][k] == rows[|done| + k];
  }

  lemma PageIds(page: seq<Row>, ids: seq<int>)
    requires |ids| == |page| && forall k :: 0 <= k < |page| ==> ids[k] == page[k].id
    ensures IdSet(ids) == Ids(page)
  {
    forall i | i in IdSet(ids) ensures i in Ids(page) {
      var k :| 0 <= k < |ids| && ids[k] == i;
      assert page[k].id == i;
    }
    forall i | i in Ids(page) ensures i in IdSet(ids) {
      var k :| 0 <= k < |page| && page[k].id as int == i;
      assert ids[k] in ids;
    }
  }
}
