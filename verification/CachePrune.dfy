/** Cache maintenance: three prunes of the cache index, one after the other. */
module CachePrune {

  type Key = nat

  /** A row of the index: seconds of the last access, and the encoded size. */
  datatype Entry = Entry(access: int, size: nat)
  datatype Row = Row(key: Key, entry: Entry)

  type Index = map<Key, Entry>

  /** The settings; 0 means "no limit" for the expiry time and the cache size. */
  datatype Limits = Limits(expiry: int, maxSize: nat, minDiskSpace: nat)

  /** What a query sorted by access time returns: every row once, oldest first. */
  ghost predicate IsListing(index: Index, rows: seq<Row>) {
    && (forall i | 0 <= i < |rows| :: rows[i].key in index && index[rows[i].key] == rows[i].entry)
    && (forall i, j | 0 <= i < j < |rows| :: rows[i].key != rows[j].key)
    && (forall i, j | 0 <= i < j < |rows| :: rows[i].entry.access <= rows[j].entry.access)
    && (forall k | k in index :: Row(k, index[k]) in rows)
  }

  ghost function Keys(rows: seq<Row>): set<Key> {
    set r | r in rows :: r.key
  }

  function Total(rows: seq<Row>): nat {
    if rows == [] then 0 else rows[0].entry.size + Total(rows[1..])
  }

  predicate Expired(limits: Limits, now: int, e: Entry) {
    limits.expiry > 0 && e.access + limits.expiry < now
  }

  // ----- Reference: how much has to go

  /** The number of oldest rows to remove until the rest is within the limit. */
  function Excess(rows: seq<Row>, limit: nat): (n: nat)
    ensures n <= |rows|
  {
    if Total(rows) <= limit then 0 else 1 + Excess(rows[1..], limit)
  }

  /** The shortest prefix that does it. */
  lemma {:induction false} ExcessIsLeast(rows: seq<Row>, limit: nat)
    ensures var n := Excess(rows, limit);
            && Total(rows[n..]) <= limit
            && forall m: nat | m < n :: Total(rows[m..]) > limit
    decreases |rows|
  {
    var n := Excess(rows, limit);
    assert rows[0..] == rows;
    if n > 0 {
      ExcessIsLeast(rows[1..], limit);
      assert rows[n..] == rows[1..][n - 1..];
      forall m: nat | 0 < m < n ensures Total(rows[m..]) > limit {
        assert rows[m..] == rows[1..][m - 1..];
      }
    }
  }

  /** The number of oldest rows whose sizes bring the free space up to what is needed; all of
      them if that is not enough. */
  function Needed(rows: seq<Row>, free: nat, goal: nat): (n: nat)
    ensures n <= |rows|
  {
    if rows == [] || free >= goal then 0
    else 1 + Needed(rows[1..], free + rows[0].entry.size, goal)
  }

  lemma {:induction false} NeededIsLeast(rows: seq<Row>, free: nat, goal: nat)
    ensures var n := Needed(rows, free, goal);
            && (free + Total(rows[..n]) >= goal || n == |rows|)
            && forall m: nat | m < n :: free + Total(rows[..m]) < goal
    decreases |rows|
  {
    var n := Needed(rows, free, goal);
    if n > 0 {
      var f := free + rows[0].entry.size;
      NeededIsLeast(rows[1..], f, goal);
      forall m: nat | 0 < m <= n ensures free + Total(rows[..m]) == f + Total(rows[1..][..m - 1]) {
        assert rows[..m][1..] == rows[1..][..m - 1];
      }
    }
  }

  // ----- The queries

  lemma KeysGrow(rows: seq<Row>, n: nat)
    requires n < |rows|
    ensures Keys(rows[..n + 1]) == Keys(rows[..n]) + {rows[n].key}
  {
    assert rows[..n + 1] == rows[..n] + [rows[n]];
  }

  /** The query for rows whose access time is further back than the expiry time. */
  method QueryExpired(index: Index, limits: Limits, now: int) returns (rows: seq<Row>)
    ensures forall k :: k in Keys(rows) <==> k in index && Expired(limits, now, index[k])
  {
    rows := [];
    var keys := index.Keys;
    while keys != {}
      invariant keys <= index.Keys
      invariant forall k :: k in Keys(rows) <==> k in index && k !in keys && Expired(limits, now, index[k])
      decreases |keys|
    {
      var k :| k in keys;
      if Expired(limits, now, index[k]) {
        var r := Row(k, index[k]);
        assert (rows + [r])[..|rows|] == rows && (rows + [r])[..|rows| + 1] == rows + [r];
        KeysGrow(rows + [r], |rows|);
        rows := rows + [r];
      }
      keys := keys - {k};
    }
  }

  method Oldest(index: Index) returns (k: Key)
    requires index != map[]
    ensures k in index && forall l | l in index :: index[k].access <= index[l].access
  {
    var keys := index.Keys;
    k :| k in keys;
    keys := keys - {k};
    while keys != {}
      invariant keys <= index.Keys && k in index
      invariant forall l | l in index && l !in keys :: index[k].access <= index[l].access
      decreases |keys|
    {
      var l :| l in keys;
      keys := keys - {l};
      if index[l].access < index[k].access {
        k := l;
      }
    }
  }

  /** The query "ORDER BY access_time ASC": repeatedly the row used least recently. */
  method Query(index: Index) returns (rows: seq<Row>)
    ensures IsListing(index, rows)
  {
    rows := [];
    var rest := index;
    while rest != map[]
      invariant forall k | k in rest :: k in index && rest[k] == index[k]
      invariant forall i | 0 <= i < |rows| :: rows[i].key in index && rows[i].key !in rest
                                              && index[rows[i].key] == rows[i].entry
      invariant forall i, j | 0 <= i < j < |rows| :: rows[i].key != rows[j].key
      invariant forall i, j | 0 <= i < j < |rows| :: rows[i].entry.access <= rows[j].entry.access
      invariant forall i, k | 0 <= i < |rows| && k in rest :: rows[i].entry.access <= rest[k].access
      invariant forall k | k in index :: k in rest || Row(k, index[k]) in rows
      decreases |rest|
    {
      var k := Oldest(rest);
      rows := rows + [Row(k, rest[k])];
      rest := rest - {k};
    }
  }

  // ----- The prunes

  class Cache {
    const limits: Limits
    var index: Index

    /** `delete_info` */
    method DeleteRow(row: Row)
      modifies this
      ensures index == old(index) - {row.key}
    {
      index := index - {row.key};
    }

    /** `prune_expired` */
    method PruneExpired(now: int) returns (ok: bool)
      modifies this
      ensures ok
      ensures forall k :: k in index <==>
                k in old(index) && (limits.expiry <= 0 || old(index)[k].access + limits.expiry >= now)
      ensures forall k | k in index :: index[k] == old(index)[k]
    {
      ok := true;
      if limits.expiry <= 0 {
        return;
      }
      var found := QueryExpired(index, limits, now);
      var n := 0;
      while n < |found|
        invariant 0 <= n <= |found|
        invariant index == old(index) - Keys(found[..n])
      {
        KeysGrow(found, n);
        DeleteRow(found[n]);
        n := n + 1;
      }
      assert found[..n] == found;
    }

    method SumSizes(rows: seq<Row>) returns (total: nat)
      ensures total == Total(rows)
    {
      total := 0;
      var n := 0;
      while n < |rows|
        invariant 0 <= n <= |rows|
        invariant total + Total(rows[n..]) == Total(rows)
      {
        assert rows[n..][1..] == rows[n + 1..];
        total := total + rows[n].entry.size;
        n := n + 1;
      }
    }

    /** `prune_cache_size`; the running total never drops below 0. */
    method PruneCacheSize(rows: seq<Row>) returns (ok: bool)
      modifies this
      ensures ok
      ensures var n := if limits.maxSize == 0 then 0 else Excess(rows, limits.maxSize);
              index == old(index) - Keys(rows[..n])
    {
      ok := true;
      assert Keys(rows[..0]) == {};
      if limits.maxSize == 0 {
        return;
      }
      var total := SumSizes(rows);
      var n := 0;
      assert rows[0..] == rows;
      while n < |rows| && total > limits.maxSize
        invariant 0 <= n <= |rows|
        invariant total == Total(rows[n..])
        invariant Excess(rows, limits.maxSize) == n + Excess(rows[n..], limits.maxSize)
        invariant index == old(index) - Keys(rows[..n])
      {
        assert rows[n..][1..] == rows[n + 1..];
        KeysGrow(rows, n);
        DeleteRow(rows[n]);
        assert total >= rows[n].entry.size;
        total := total - rows[n].entry.size;
        n := n + 1;
      }
    }

    /** `prune_disk_space`. `free` is the space found on the drive; `missing` and `unreadable`
        are the two ways the drive can fail to tell. */
    method PruneDiskSpace(rows: seq<Row>, predicted: nat, free: nat, missing: bool, unreadable: bool)
      returns (ok: bool)
      modifies this
      ensures ok <==> missing || (!unreadable && free >= predicted)
      ensures var n := if missing || !ok then 0 else Needed(rows, free, limits.minDiskSpace + predicted);
              index == old(index) - Keys(rows[..n])
    {
      assert Keys(rows[..0]) == {};
      ok := missing || (!unreadable && free >= predicted);
      if missing || !ok {
        return;
      }
      var goal := limits.minDiskSpace + predicted;
      var n: nat, space: nat := 0, free;
      assert rows[0..] == rows;
      while n < |rows| && space < goal
        invariant 0 <= n <= |rows|
        invariant Needed(rows, free, goal) == n + Needed(rows[n..], space, goal)
        invariant index == old(index) - Keys(rows[..n])
      {
        assert rows[n..][1..] == rows[n + 1..];
        KeysGrow(rows, n);
        DeleteRow(rows[n]);
        space := space + rows[n].entry.size;
        n := n + 1;
      }
    }
  }

  /** Without a prefix of its rows an index is listed by the rest. */
  lemma PrefixGone(index: Index, rows: seq<Row>, n: nat)
    requires IsListing(index, rows) && n <= |rows|
    ensures IsListing(index - Keys(rows[..n]), rows[n..])
  {
    var rest := index - Keys(rows[..n]);
    forall i | 0 <= i < |rows[n..]| ensures rows[n..][i].key in rest {
      assert rows[n..][i] == rows[n + i];
    }
    forall i | 0 <= i < n ensures rows[i].key in Keys(rows[..n]) {
      assert rows[..n][i] == rows[i];
    }
    forall k | k in rest ensures Row(k, rest[k]) in rows[n..] {
      var i :| 0 <= i < |rows| && rows[i] == Row(k, index[k]);
      assert rows[n..][i - n] == rows[i];
    }
  }

  /** What is removed was used no later than what is kept. */
  lemma OldestGo(index: Index, rows: seq<Row>, n: nat, k: Key, l: Key)
    requires IsListing(index, rows) && n <= |rows|
    requires k in index && k in Keys(rows[..n]) && l in index && l !in Keys(rows[..n])
    ensures index[k].access <= index[l].access
  {
    var r :| r in rows[..n] && r.key == k;
    var i :| 0 <= i < n && rows[i] == r;
    var j :| 0 <= j < |rows| && rows[j] == Row(l, index[l]);
    if j < n {
      assert rows[..n][j] == rows[j];
    }
  }

  // ----- Maintenance

  lemma {:induction false} TotalWithout(ys: seq<Row>, i: nat)
    requires i < |ys|
    ensures Total(ys) == Total(ys[..i] + ys[i + 1..]) + ys[i].entry.size
    decreases i
  {
    if i == 0 {
      assert ys[..0] + ys[1..] == ys[1..];
    } else {
      TotalWithout(ys[1..], i - 1);
      assert (ys[..i] + ys[i + 1..])[1..] == ys[1..][..i - 1] + ys[1..][i..];
    }
  }

  /** The sum over a part of some rows is at most the sum over all. */
  lemma {:induction false} TotalIsMonotone(xs: seq<Row>, ys: seq<Row>)
    requires forall r | r in xs :: r in ys
    requires forall i, j | 0 <= i < j < |xs| :: xs[i] != xs[j]
    ensures Total(xs) <= Total(ys)
    decreases |xs|
  {
    if xs != [] {
      assert xs[0] in xs;
      var i :| 0 <= i < |ys| && ys[i] == xs[0];
      var rest := ys[..i] + ys[i + 1..];
      forall r | r in xs[1..] ensures r in rest {
        assert r in xs;
        var j :| 0 <= j < |ys| && ys[j] == r;
        assert j != i;
        if j < i { assert rest[j] == r; } else { assert rest[j - 1] == r; }
      }
      TotalIsMonotone(xs[1..], rest);
      TotalWithout(ys, i);
    }
  }

  function SizePruned(limits: Limits, rows: seq<Row>): (n: nat)
    ensures n <= |rows|
  {
    if limits.maxSize == 0 then 0 else Excess(rows, limits.maxSize)
  }

  /** The first two prunes of `maintenance`: what is expired leaves `a`, then what is too much
      leaves `b`. */
  ghost predicate SizesPruned(
    limits: Limits, now: int, a: Index, b: Index, c: Index, sizeRows: seq<Row>)
  {
    && (forall k :: k in b <==> k in a && !Expired(limits, now, a[k]))
    && (forall k | k in b :: b[k] == a[k])
    && IsListing(b, sizeRows)
    && c == b - Keys(sizeRows[..SizePruned(limits, sizeRows)])
  }

  /** The third prune, on a query that sees the index as the others left it. */
  ghost predicate SpacePruned(c: Index, d: Index, spaceRows: seq<Row>, free: nat, goal: nat) {
    && IsListing(c, spaceRows)
    && d == c - Keys(spaceRows[..Needed(spaceRows, free, goal)])
  }

  /** `maintenance` */
  method RunMaintenance(
    cache: Cache, now: int, predicted: nat, free: nat, missing: bool, unreadable: bool)
    returns (ok: bool, ghost b: Index, ghost c: Index, sizeRows: seq<Row>, spaceRows: seq<Row>)
    modifies cache
    ensures ok <==> missing || (!unreadable && free >= predicted)
    ensures SizesPruned(cache.limits, now, old(cache.index), b, c, sizeRows)
    ensures if ok && !missing
            then SpacePruned(c, cache.index, spaceRows, free, cache.limits.minDiskSpace + predicted)
            else cache.index == c
  {
    var ok1 := cache.PruneExpired(now);
    b := cache.index;
    sizeRows := Query(cache.index);
    var ok2 := cache.PruneCacheSize(sizeRows);
    c := cache.index;
    spaceRows := Query(cache.index);
    var ok3 := cache.PruneDiskSpace(spaceRows, predicted, free, missing, unreadable);
    ok := ok1 && ok2 && ok3;
  }

  lemma NothingListed(d: Index, rows: seq<Row>)
    requires IsListing(d, rows) && rows == []
    ensures d == map[]
  {
    assert forall k | k in d :: Row(k, d[k]) in rows;
  }

  lemma PartOfListing(c: Index, rows: seq<Row>, n: nat, others: seq<Row>)
    requires IsListing(c, rows) && IsListing(c, others) && n <= |rows|
    ensures Total(rows[n..]) <= Total(others)
  {
    forall r | r in rows[n..] ensures r in others {
      var i :| 0 <= i < |rows[n..]| && rows[n..][i] == r;
      assert rows[n + i] == r;
      assert Row(r.key, c[r.key]) in others;
    }
    TotalIsMonotone(rows[n..], others);
  }

  /** The first two prunes keep their promises whether or not the third one fails: nothing is
      expired, and the total of what is left is within the limit. */
  lemma FirstPrunesHold(
    limits: Limits, now: int, a: Index, b: Index, c: Index, sizeRows: seq<Row>, rows: seq<Row>)
    requires SizesPruned(limits, now, a, b, c, sizeRows) && IsListing(c, rows)
    ensures forall k | k in c :: k in a && c[k] == a[k] && !Expired(limits, now, c[k])
    ensures limits.maxSize != 0 ==> Total(rows) <= limits.maxSize
  {
    var m := SizePruned(limits, sizeRows);
    PrefixGone(b, sizeRows, m);
    if limits.maxSize != 0 {
      ExcessIsLeast(sizeRows, limits.maxSize);
      assert rows[0..] == rows;
      PartOfListing(c, rows, 0, sizeRows[m..]);
    }
  }

  /** Both promises survive the third prune, which adds that the accounted free space suffices
      or nothing is left. */
  lemma MaintenanceComposes(
    limits: Limits, now: int, a: Index, b: Index, c: Index, d: Index,
    sizeRows: seq<Row>, spaceRows: seq<Row>, goal: nat, free: nat)
    requires SizesPruned(limits, now, a, b, c, sizeRows) && SpacePruned(c, d, spaceRows, free, goal)
    ensures forall k | k in d :: k in a && d[k] == a[k] && !Expired(limits, now, d[k])
    ensures var n := Needed(spaceRows, free, goal);
            && IsListing(d, spaceRows[n..])
            && (limits.maxSize != 0 ==> Total(spaceRows[n..]) <= limits.maxSize)
            && (free + Total(spaceRows[..n]) >= goal || d == map[])
  {
    var n := Needed(spaceRows, free, goal);
    FirstPrunesHold(limits, now, a, b, c, sizeRows, spaceRows);
    PrefixGone(c, spaceRows, n);
    NeededIsLeast(spaceRows, free, goal);
    PartOfListing(c, spaceRows, n, spaceRows);
    if n == |spaceRows| {
      NothingListed(d, spaceRows[n..]);
    }
  }
}
