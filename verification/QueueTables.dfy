/** Tables of the bounded store-and-forward queue (os-base/conecsa_common/bounded_sqlite.py) as row
    sequences: what eviction, acknowledging and paging mean, independent of how they are carried out. */
module QueueTables {

  /** One stored record; ids grow, size is what the byte cap counts. */
  datatype Row = Row(id: nat, size: nat, event: string)

  function Size(rows: seq<Row>): nat {
    if rows == [] then 0 else rows[0].size + Size(rows[1..])
  }

  ghost predicate Increasing(rows: seq<Row>) {
    forall a, b :: 0 <= a < b < |rows| ==> rows[a].id < rows[b].id
  }

  lemma {:induction false} SizeAppend(a: seq<Row>, b: seq<Row>)
    ensures Size(a + b) == Size(a) + Size(b)
  {
    if a == [] {
      assert a + b == b;
    } else {
      SizeAppend(a[1..], b);
      assert (a + b)[1..] == a[1..] + b;
    }
  }

  /** Dropping older rows never makes the rest larger. */
  lemma {:induction false} SizeSuffix(rows: seq<Row>, k: nat)
    requires k <= |rows|
    ensures Size(rows[k..]) <= Size(rows)
  {
    if k > 0 {
      SizeSuffix(rows[1..], k - 1);
      assert rows[1..][k - 1..] == rows[k..];
    }
  }

  lemma {:induction false} SizePrefix(rows: seq<Row>, k: nat)
    requires k < |rows|
    ensures Size(rows[..k + 1]) == Size(rows[..k]) + rows[k].size
  {
    SizeAppend(rows[..k], [rows[k]]);
    assert rows[..k + 1] == rows[..k] + [rows[k]];
    assert Size([rows[k]]) == rows[k].size;
  }

  // ── eviction ───────────────────────────────────────────────────────────────

  predicate Fits(rows: seq<Row>, maxRecords: int, maxBytes: int) {
    |rows| <= maxRecords && Size(rows) <= maxBytes
  }

  /** Oldest rows go first, until both caps hold or one row is left. */
  function Trim(rows: seq<Row>, maxRecords: int, maxBytes: int): seq<Row> {
    if |rows| <= 1 || Fits(rows, maxRecords, maxBytes) then rows
    else Trim(rows[1..], maxRecords, maxBytes)
  }

  /** Eviction leaves exactly the longest suffix within both caps, or the newest row alone. */
  lemma {:induction false} TrimLongest(rows: seq<Row>, maxRecords: int, maxBytes: int) returns (k: nat)
    ensures k <= |rows| && Trim(rows, maxRecords, maxBytes) == rows[k..]
    ensures rows != [] ==> k < |rows|
    ensures Fits(rows[k..], maxRecords, maxBytes) || |rows[k..]| <= 1
    ensures forall j :: 0 <= j < k ==> !Fits(rows[j..], maxRecords, maxBytes)
  {
    if |rows| <= 1 || Fits(rows, maxRecords, maxBytes) {
      k := 0;
    } else {
      var rest := TrimLongest(rows[1..], maxRecords, maxBytes);
      k := rest + 1;
      assert rows[1..][rest..] == rows[k..];
      forall j | 0 <= j < k ensures !Fits(rows[j..], maxRecords, maxBytes) {
        assert j > 0 ==> rows[1..][j - 1..] == rows[j..];
      }
    }
  }

  /** How many of the oldest rows eviction takes. */
  function Dropped(rows: seq<Row>, maxRecords: int, maxBytes: int): (k: nat)
    ensures k <= |rows|
  {
    TrimShorter(rows, maxRecords, maxBytes);
    |rows| - |Trim(rows, maxRecords, maxBytes)|
  }

  lemma {:induction false} TrimShorter(rows: seq<Row>, maxRecords: int, maxBytes: int)
    ensures |Trim(rows, maxRecords, maxBytes)| <= |rows|
  {
    if !(|rows| <= 1 || Fits(rows, maxRecords, maxBytes)) {
      TrimShorter(rows[1..], maxRecords, maxBytes);
    }
  }

  /** What is left are the rows after the dropped ones; a shorter cut is short of it exactly while it
      is over a cap with more than one row left. */
  lemma {:induction false} CutAt(rows: seq<Row>, d: nat, maxRecords: int, maxBytes: int)
    requires d <= Dropped(rows, maxRecords, maxBytes)
    ensures Trim(rows, maxRecords, maxBytes) == rows[Dropped(rows, maxRecords, maxBytes)..]
    ensures d < Dropped(rows, maxRecords, maxBytes) <==> |rows[d..]| > 1 && !Fits(rows[d..], maxRecords, maxBytes)
  {
    if |rows| <= 1 || Fits(rows, maxRecords, maxBytes) {
      assert rows[0..] == rows;
    } else {
      var k := Dropped(rows[1..], maxRecords, maxBytes);
      TrimShorter(rows[1..], maxRecords, maxBytes);
      CutAt(rows[1..], if d == 0 then 0 else d - 1, maxRecords, maxBytes);
      assert rows[0..] == rows && rows[1..][k..] == rows[k + 1..];
      assert d > 0 ==> rows[1..][d - 1..] == rows[d..];
    }
  }

  // ── acknowledging ──────────────────────────────────────────────────────────

  /** The rows whose id is not among the acknowledged ones. */
  function Without(rows: seq<Row>, ids: set<int>): seq<Row> {
    if rows == [] then []
    else if rows[0].id in ids then Without(rows[1..], ids)
    else [rows[0]] + Without(rows[1..], ids)
  }

  /** What the counting query reports for one chunk of ids. */
  function Named(rows: seq<Row>, ids: set<int>): seq<Row> {
    if rows == [] then []
    else if rows[0].id in ids then [rows[0]] + Named(rows[1..], ids)
    else Named(rows[1..], ids)
  }

  lemma {:induction false} WithoutMember(rows: seq<Row>, ids: set<int>, r: Row)
    ensures r in Without(rows, ids) <==> r in rows && r.id !in ids
  {
    if rows != [] {
      WithoutMember(rows[1..], ids, r);
    }
  }

  lemma {:induction false} SplitByName(rows: seq<Row>, ids: set<int>)
    ensures |Named(rows, ids)| + |Without(rows, ids)| == |rows|
    ensures Size(Named(rows, ids)) + Size(Without(rows, ids)) == Size(rows)
  {
    if rows != [] {
      SplitByName(rows[1..], ids);
    }
  }

  /** Deleting chunk by chunk is deleting all at once, duplicates across chunks included. */
  lemma {:induction false} WithoutTwice(rows: seq<Row>, a: set<int>, b: set<int>)
    ensures Without(Without(rows, a), b) == Without(rows, a + b)
  {
    if rows != [] {
      WithoutTwice(rows[1..], a, b);
    }
  }

  lemma {:induction false} WithoutIncreasing(rows: seq<Row>, ids: set<int>)
    requires Increasing(rows)
    ensures Increasing(Without(rows, ids))
  {
    if rows != [] {
      WithoutIncreasing(rows[1..], ids);
      var rest := Without(rows[1..], ids);
      forall k | 0 <= k < |rest| ensures rows[0].id < rest[k].id {
        WithoutMember(rows[1..], ids, rest[k]);
      }
    }
  }

  function Ids(rows: seq<Row>): set<int> {
    set k | 0 <= k < |rows| :: rows[k].id as int
  }

  /** Acknowledging the oldest rows removes exactly them. */
  lemma AckPrefix(rows: seq<Row>, k: nat)
    requires Increasing(rows) && k <= |rows|
    ensures Without(rows, Ids(rows[..k])) == rows[k..]
  {
    assert rows[..k] + rows[k..] == rows;
    AckFirst(rows[..k], rows[k..]);
  }

  lemma AckFirst(a: seq<Row>, b: seq<Row>)
    requires Increasing(a + b)
    ensures Without(a + b, Ids(a)) == b
  {
    WithoutSplit(a, b, Ids(a));
    WithoutAll(a, Ids(a));
    forall i, j | 0 <= i < |a| && 0 <= j < |b| ensures a[i].id < b[j].id {
      assert (a + b)[i].id < (a + b)[|a| + j].id;
    }
    WithoutNone(b, Ids(a));
  }

  lemma {:induction false} WithoutSplit(a: seq<Row>, b: seq<Row>, ids: set<int>)
    ensures Without(a + b, ids) == Without(a, ids) + Without(b, ids)
  {
    if a == [] {
      assert a + b == b;
    } else {
      WithoutSplit(a[1..], b, ids);
      assert (a + b)[0] == a[0] && (a + b)[1..] == a[1..] + b;
      assert [a[0]] + (Without(a[1..], ids) + Without(b, ids)) == ([a[0]] + Without(a[1..], ids)) + Without(b, ids);
    }
  }

  lemma {:induction false} WithoutAll(rows: seq<Row>, ids: set<int>)
    requires forall k :: 0 <= k < |rows| ==> rows[k].id in ids
    ensures Without(rows, ids) == []
  {
    if rows != [] {
      WithoutAll(rows[1..], ids);
    }
  }

  lemma {:induction false} WithoutNone(rows: seq<Row>, ids: set<int>)
    requires forall k :: 0 <= k < |rows| ==> rows[k].id !in ids
    ensures Without(rows, ids) == rows
  {
    if rows != [] {
      WithoutNone(rows[1..], ids);
    }
  }

  // ── paging ─────────────────────────────────────────────────────────────────

  datatype PageCap = NoByteCap | ByteCap(bytes: int)

  /** The first n rows may form a page: within the row limit, and within the byte cap unless single. */
  predicate PageAllowed(rows: seq<Row>, n: nat, limit: nat, cap: PageCap) {
    n <= |rows| && n <= limit && (cap.ByteCap? && n > 1 ==> Size(rows[..n]) <= cap.bytes)
  }

  /** page is the longest allowed prefix, and not empty when there is anything to page. */
  ghost predicate IsPage(rows: seq<Row>, page: seq<Row>, limit: nat, cap: PageCap) {
    && page <= rows && PageAllowed(rows, |page|, limit, cap)
    && (forall n :: |page| < n ==> !PageAllowed(rows, n, limit, cap))
    && (rows != [] && limit > 0 ==> page != [])
  }

  /** Longer prefixes are not smaller, so the first refused row ends the page for good. */
  lemma PageStops(rows: seq<Row>, n: nat, limit: nat, cap: PageCap)
    requires n < |rows| && !PageAllowed(rows, n + 1, limit, cap) && n >= 1
    ensures forall m :: n < m ==> !PageAllowed(rows, m, limit, cap)
  {
    forall m | n < m ensures !PageAllowed(rows, m, limit, cap) {
      if m <= |rows| {
        assert rows[..m] == rows[..n + 1] + rows[n + 1..m];
        SizeAppend(rows[..n + 1], rows[n + 1..m]);
      }
    }
  }

  /** How far the cursor gets: row by row while the next row may join. */
  function PageLen(rows: seq<Row>, n: nat, limit: nat, cap: PageCap): (len: nat)
    requires n <= |rows|
    ensures n <= len <= |rows|
    decreases |rows| - n
  {
    if n < |rows| && PageAllowed(rows, n + 1, limit, cap) then PageLen(rows, n + 1, limit, cap) else n
  }

  /** The cursor stops exactly at the end of the page. */
  lemma {:induction false} PageLenIsPage(rows: seq<Row>, n: nat, limit: nat, cap: PageCap)
    requires n <= |rows| && limit > 0 && PageAllowed(rows, n, limit, cap)
    ensures IsPage(rows, rows[..PageLen(rows, n, limit, cap)], limit, cap)
    decreases |rows| - n
  {
    if n < |rows| && PageAllowed(rows, n + 1, limit, cap) {
      PageLenIsPage(rows, n + 1, limit, cap);
    } else if n < |rows| && n >= 1 {
      PageStops(rows, n, limit, cap);
    }
  }

  /** The page is determined by the table, the limit and the cap. */
  lemma PageUnique(rows: seq<Row>, p: seq<Row>, q: seq<Row>, limit: nat, cap: PageCap)
    requires IsPage(rows, p, limit, cap) && IsPage(rows, q, limit, cap)
    ensures p == q
  {
    assert |p| == |q|;
    assert p == rows[..|p|] && q == rows[..|q|];
  }

  /** Acknowledging again changes nothing. */
  lemma AckIdempotent(rows: seq<Row>, ids: set<int>)
    ensures Without(Without(rows, ids), ids) == Without(rows, ids)
  {
    WithoutTwice(rows, ids, ids);
    assert ids + ids == ids;
  }
}
