/**
 The transaction indexer: a window of the canonical chain is kept in the lookup table, with its lower end, the tail,
 stored beside it.

 The chain is the list of its blocks' transactions by number. Bodies are decoded by several threads, so blocks reach the
 indexer in any order, and fewer of them when it is interrupted; `Feed` stands for that order.
 */
module TxIndexers {
  import opened Common
  import opened Chain

  type Body = seq<TxHash>
  type Table = map<TxHash, nat>

  /** The order in which the blocks of a range are delivered. */
  type Feed = (nat, nat) -> seq<nat>

  datatype Snapshot = Snapshot(tail: Option<nat>, lookup: Table)

  datatype Progress = Progress(indexed: nat, remaining: nat)

  // ---------------------------------------------------------------- the chain and its table

  /** No transaction occurs in two blocks. */
  ghost predicate Unique(blocks: seq<Body>)
  {
    forall i, j, tx :: 0 <= i < |blocks| && 0 <= j < |blocks| && tx in blocks[i] && tx in blocks[j] ==> i == j
  }

  /** The number of the block holding a transaction, and -1 when there is none. */
  ghost function Home(blocks: seq<Body>, tx: TxHash): int
  {
    if n: nat :| n < |blocks| && tx in blocks[n] then n else -1
  }

  lemma HomeIs(blocks: seq<Body>, tx: TxHash, n: nat)
    requires Unique(blocks) && n < |blocks|
    ensures tx in blocks[n] <==> Home(blocks, tx) == n
  {
  }

  function Find(t: Table, tx: TxHash): Option<nat>
  {
    if tx in t then Some(t[tx]) else None
  }

  /** The table holds exactly the transactions of the blocks numbered from `lo` up to `hi`, each under its block. */
  ghost predicate Indexed(t: Table, blocks: seq<Body>, lo: nat, hi: nat)
  {
    forall tx :: Find(t, tx) == if lo <= Home(blocks, tx) < hi then Some(Home(blocks, tx)) else None
  }

  /** `t` is `base` with the blocks from `lo` up to `hi` written over it. */
  ghost predicate Written(t: Table, base: Table, blocks: seq<Body>, lo: nat, hi: nat)
  {
    forall tx :: Find(t, tx) == if lo <= Home(blocks, tx) < hi then Some(Home(blocks, tx)) else Find(base, tx)
  }

  /** `t` is `base` without the blocks from `lo` up to `hi`. */
  ghost predicate Removed(t: Table, base: Table, blocks: seq<Body>, lo: nat, hi: nat)
  {
    forall tx :: Find(t, tx) == if lo <= Home(blocks, tx) < hi then None else Find(base, tx)
  }

  /** Every transaction of the table belongs to a block from `lo` up to `hi`, under whatever number it is kept. */
  ghost predicate NoStrays(t: Table, blocks: seq<Body>, lo: nat, hi: nat)
  {
    forall tx :: tx in t ==> lo <= Home(blocks, tx) < hi
  }

  /** The lowest number a window of the given limit may reach. */
  function Bound(limit: nat, cutoff: nat, head: nat): nat
  {
    var from := if limit != 0 && head >= limit then head - limit + 1 else 0;
    if from < cutoff then cutoff else from
  }

  function AtLeast(t: Table, cutoff: nat): Table
  {
    map tx | tx in t && t[tx] >= cutoff :: t[tx]
  }

  /** Blocks of a range, in any order and each at most once. */
  ghost predicate Deliveries(d: seq<nat>, from: nat, to: nat)
  {
    (forall i :: 0 <= i < |d| ==> from <= d[i] < to) && (forall i, j :: 0 <= i < j < |d| ==> d[i] != d[j])
  }

  /** Only blocks up to the head have bodies. */
  ghost predicate Feeds(feed: Feed, head: nat)
  {
    forall from: nat, to: nat :: Deliveries(feed(from, to), from, if to <= head + 1 then to else head + 1)
  }

  /** Every block of a range up to the head is delivered. */
  ghost predicate Uninterrupted(feed: Feed, head: nat)
  {
    forall from: nat, to: nat, n: nat :: from <= n < to <= head + 1 ==> n in feed(from, to)
  }

  function TxSet(txs: Body): set<TxHash>
  {
    set tx | tx in txs
  }

  method DeleteEntries(batch: set<TxHash>, txs: Body) returns (r: set<TxHash>)
    ensures r == batch + TxSet(txs)
  {
    r := batch;
    var i := 0;
    while i < |txs|
      invariant 0 <= i <= |txs|
      invariant r == batch + TxSet(txs[..i])
    {
      assert txs[..i + 1] == txs[..i] + [txs[i]];
      r := r + {txs[i]};
      i := i + 1;
    }
    assert txs[..i] == txs;
  }

  /** Writing the block below a written range. */
  lemma WriteBelow(t: Table, base: Table, blocks: seq<Body>, n: nat, hi: nat)
    requires Unique(blocks) && n < |blocks| && n < hi && Written(t, base, blocks, n + 1, hi)
    ensures Written(t + EntriesOf(n, blocks[n]), base, blocks, n, hi)
  {
    forall tx ensures tx in blocks[n] <==> Home(blocks, tx) == n {
      HomeIs(blocks, tx, n);
    }
  }

  /** Removing the block above a removed range. */
  lemma RemoveAbove(t: Table, base: Table, blocks: seq<Body>, lo: nat, n: nat)
    requires Unique(blocks) && n < |blocks| && lo <= n && Removed(t, base, blocks, lo, n)
    ensures Removed(t - TxSet(blocks[n]), base, blocks, lo, n + 1)
  {
    forall tx ensures tx in blocks[n] <==> Home(blocks, tx) == n {
      HomeIs(blocks, tx, n);
    }
  }

  /** Writing the block above a written range. */
  lemma WriteAbove(t: Table, base: Table, blocks: seq<Body>, lo: nat, n: nat)
    requires Unique(blocks) && n < |blocks| && lo <= n && Written(t, base, blocks, lo, n)
    ensures Written(t + EntriesOf(n, blocks[n]), base, blocks, lo, n + 1)
  {
    forall tx ensures tx in blocks[n] <==> Home(blocks, tx) == n {
      HomeIs(blocks, tx, n);
    }
  }

  /** Moving the lower end of an indexed range. */
  lemma MoveTail(t: Table, base: Table, blocks: seq<Body>, lo: nat, mid: nat, hi: nat)
    requires lo <= mid <= hi
    ensures Indexed(base, blocks, mid, hi) && Written(t, base, blocks, lo, mid) ==> Indexed(t, blocks, lo, hi)
    ensures Indexed(base, blocks, lo, hi) && Removed(t, base, blocks, lo, mid) ==> Indexed(t, blocks, mid, hi)
  {
  }

  /** A table with a range written over it holds exactly that range if and only if there were no strays in it. */
  lemma StraysStay(t: Table, base: Table, blocks: seq<Body>, lo: nat, hi: nat)
    requires Written(t, base, blocks, lo, hi)
    ensures Indexed(t, blocks, lo, hi) <==> NoStrays(base, blocks, lo, hi)
  {
    forall tx ensures (Find(t, tx) == if lo <= Home(blocks, tx) < hi then Some(Home(blocks, tx)) else None)
                      <==> (tx in base ==> lo <= Home(blocks, tx) < hi) {
    }
  }

  /** Strays do happen: two blocks arrive before the first task, and a window of one block never drops the lower one. */
  lemma StrayExample()
    ensures var blocks, table: Table := [[], [7], [8]], map[7 := 1, 8 := 2];
      && Unique(blocks) && Indexed(table, blocks, 0, 3) && Bound(1, 0, 2) == 2
      && forall t: Table :: Written(t, table, blocks, 2, 3) ==> !Indexed(t, blocks, 2, 3)
  {
    var blocks: seq<Body>, table: Table := [[], [7], [8]], map[7 := 1, 8 := 2];
    HomeIs(blocks, 7, 1);
    HomeIs(blocks, 8, 2);
    assert 7 in table;
    forall t: Table | Written(t, table, blocks, 2, 3) ensures !Indexed(t, blocks, 2, 3) {
      StraysStay(t, table, blocks, 2, 3);
    }
  }

  lemma WrittenNothing(t: Table, base: Table, blocks: seq<Body>, n: nat)
    requires Written(t, base, blocks, n, n)
    ensures t == base
  {
    forall tx ensures (tx in t <==> tx in base) && (tx in t ==> t[tx] == base[tx]) {
      assert Find(t, tx) == Find(base, tx);
    }
  }

  /** Dropping the entries numbered below the cutoff from an indexed range. */
  lemma CutBelow(t: Table, blocks: seq<Body>, lo: nat, cutoff: nat, hi: nat)
    requires Indexed(t, blocks, lo, hi) && lo <= cutoff
    ensures Indexed(AtLeast(t, cutoff), blocks, cutoff, hi)
  {
    forall tx
      ensures Find(AtLeast(t, cutoff), tx)
           == if cutoff <= Home(blocks, tx) < hi then Some(Home(blocks, tx)) else None
    {
      assert Find(t, tx) == if lo <= Home(blocks, tx) < hi then Some(Home(blocks, tx)) else None;
    }
  }

  /** The next block out of a queue: the highest number first, or the lowest. */
  method Peek(queue: set<nat>, reverse: bool) returns (best: nat)
    requires queue != {}
    ensures best in queue && forall n :: n in queue ==> if reverse then n <= best else best <= n
  {
    HasMember(queue);
    best :| best in queue;
    var rest := queue - {best};
    while rest != {}
      invariant rest <= queue && best in queue
      invariant forall n :: n in queue ==> n in rest || if reverse then n <= best else best <= n
      decreases rest
    {
      HasMember(rest);
      var n :| n in rest;
      if (reverse && best < n) || (!reverse && n < best) {
        best := n;
      }
      rest := rest - {n};
    }
  }

  /** What has been delivered is queued or taken, and what has been taken is a range without gaps. */
  ghost predicate Queued(d: seq<nat>, i: nat, queue: set<nat>, lo: nat, hi: nat)
  {
    && i <= |d| && (forall n :: n in queue ==> n in d[..i] && !(lo <= n < hi))
    && (forall n :: lo <= n < hi ==> n in d[..i])
    && (forall n :: n in d[..i] ==> n in queue || lo <= n < hi)
  }

  lemma Enqueue(d: seq<nat>, i: nat, queue: set<nat>, from: nat, to: nat, lo: nat, hi: nat)
    requires Deliveries(d, from, to) && i < |d| && Queued(d, i, queue, lo, hi)
    ensures Queued(d, i + 1, queue + {d[i]}, lo, hi)
  {
    assert d[..i + 1] == d[..i] + [d[i]];
    assert d[i] !in d[..i];
  }

  /** Taking the next block below, or above, the range taken so far. */
  lemma Take(d: seq<nat>, i: nat, queue: set<nat>, lo: nat, hi: nat, n: nat)
    requires Queued(d, i, queue, lo, hi) && n in queue && lo <= hi
    ensures n + 1 == lo ==> Queued(d, i, queue - {n}, n, hi)
    ensures n == hi ==> Queued(d, i, queue - {n}, lo, n + 1)
  {
  }

  /** Every flushed state is the old table with a range ending in `to` written over it, and its tail says which. */
  ghost predicate WrittenLog(log: seq<Snapshot>, base: Table, blocks: seq<Body>, lo: nat, to: nat)
  {
    forall s :: s in log ==>
      s.tail.Some? && lo <= s.tail.value <= to && Written(s.lookup, base, blocks, s.tail.value, to)
  }

  ghost predicate RemovedLog(log: seq<Snapshot>, base: Table, blocks: seq<Body>, from: nat, hi: nat)
  {
    forall s :: s in log ==>
      s.tail.Some? && from <= s.tail.value <= hi && Removed(s.lookup, base, blocks, from, s.tail.value)
  }

  /** Where a top-down range stops: at its lower end when nothing is missing, at its upper end when the top is. */
  lemma RangeDone(feed: Feed, head: nat, from: nat, to: nat, last: nat)
    requires Feeds(feed, head) && from <= last <= to && last - 1 !in feed(from, to)
    requires forall n :: last <= n < to ==> n in feed(from, to)
    ensures Uninterrupted(feed, head) && to <= head + 1 ==> last == from
    ensures to > head + 1 ==> last == to
  {
    assert Deliveries(feed(from, to), from, if to <= head + 1 then to else head + 1);
    assert last < to ==> to - 1 in feed(from, to);
  }

  lemma RangeUpDone(feed: Feed, head: nat, from: nat, to: nat, next: nat)
    requires Uninterrupted(feed, head) && from <= next <= to <= head + 1 && next !in feed(from, to)
    ensures next == to
  {
  }

  /** The tail describes the table. */
  ghost predicate Agrees(tail: Option<nat>, t: Table, blocks: seq<Body>, head: nat)
  {
    tail.Some? && tail.value <= head + 1 && Indexed(t, blocks, tail.value, head + 1)
  }

  ghost predicate AllAgree(log: seq<Snapshot>, blocks: seq<Body>, head: nat)
  {
    forall s :: s in log ==> Agrees(s.tail, s.lookup, blocks, head)
  }

  lemma WrittenAgrees(log: seq<Snapshot>, t: Table, base: Table, blocks: seq<Body>, lo: nat, mid: nat, head: nat)
    requires lo <= mid <= head + 1 && Indexed(base, blocks, mid, head + 1)
    requires Written(t, base, blocks, lo, mid) && WrittenLog(log, base, blocks, lo, mid)
    ensures Agrees(Some(lo), t, blocks, head) && AllAgree(log, blocks, head)
  {
    MoveTail(t, base, blocks, lo, mid, head + 1);
    forall s | s in log ensures Agrees(s.tail, s.lookup, blocks, head) {
      MoveTail(s.lookup, base, blocks, s.tail.value, mid, head + 1);
    }
  }

  lemma RemovedAgrees(log: seq<Snapshot>, t: Table, base: Table, blocks: seq<Body>, lo: nat, mid: nat, head: nat)
    requires lo <= mid <= head + 1 && Indexed(base, blocks, lo, head + 1)
    requires Removed(t, base, blocks, lo, mid) && RemovedLog(log, base, blocks, lo, mid)
    ensures Agrees(Some(mid), t, blocks, head) && AllAgree(log, blocks, head)
  {
    MoveTail(t, base, blocks, lo, mid, head + 1);
    forall s | s in log ensures Agrees(s.tail, s.lookup, blocks, head) {
      MoveTail(s.lookup, base, blocks, lo, s.tail.value, head + 1);
    }
  }

  // ---------------------------------------------------------------- a changing chain

  /** A head event: the block writer has changed the chain from number `fork` on, or the chain has been rewound to some
      number of blocks; whether no task is under way, and the deliveries to the indexing task it starts. */
  datatype Event =
    | Reorganised(chain: seq<Body>, fork: nat, idle: bool, feed: Feed)
    | Rewound(length: nat, idle: bool, feed: Feed)

  function NextChain(blocks: seq<Body>, e: Event): seq<Body>
  {
    match e
    case Reorganised(chain, _, _, _) => chain
    case Rewound(length, _, _) => if length <= |blocks| then blocks[..length] else blocks
  }

  /** The number from which an event changes the chain. */
  function ForkOf(e: Event): nat
  {
    match e case Reorganised(_, fork, _, _) => fork case Rewound(length, _, _) => length
  }

  /** The event is one that may follow a chain; the new head may be lower than the old. */
  ghost predicate FollowsOn(blocks: seq<Body>, e: Event)
  {
    var chain := NextChain(blocks, e);
    && chain != [] && ForkOf(e) <= |blocks| && ForkOf(e) <= |chain| && chain[..ForkOf(e)] == blocks[..ForkOf(e)]
    && Unique(chain) && Feeds(e.feed, |chain| - 1) && Uninterrupted(e.feed, |chain| - 1)
  }

  /** Every block from the tail on is indexed, each transaction under its block; there may be any other entries. */
  ghost predicate Complete(tail: nat, t: Table, blocks: seq<Body>)
  {
    forall tx :: tail <= Home(blocks, tx) ==> Find(t, tx) == Some(Home(blocks, tx))
  }

  /** Every entry is right, and every block from the tail on is indexed; there may be entries below the tail as well. */
  ghost predicate Covers(tail: nat, t: Table, blocks: seq<Body>)
  {
    forall tx :: (tx in t ==> t[tx] == Home(blocks, tx)) && (tail <= Home(blocks, tx) ==> tx in t)
  }

  function TxsFrom(blocks: seq<Body>, fork: nat): set<TxHash>
  {
    set n, tx | fork <= n < |blocks| && tx in blocks[n] :: tx
  }

  /** `t` is `base` with the blocks from number `fork` on changed from those of `before` to those of `after`. */
  ghost predicate Replaced(t: Table, base: Table, before: seq<Body>, after: seq<Body>, fork: nat)
  {
    forall tx :: Find(t, tx) == if fork <= Home(after, tx) then Some(Home(after, tx))
                                else if fork <= Home(before, tx) then None else Find(base, tx)
  }

  lemma TxsAreAbove(blocks: seq<Body>, fork: nat, tx: TxHash)
    requires Unique(blocks)
    ensures tx in TxsFrom(blocks, fork) <==> fork <= Home(blocks, tx)
  {
    if tx in TxsFrom(blocks, fork) {
      var n :| fork <= n < |blocks| && tx in blocks[n];
      HomeIs(blocks, tx, n);
    }
  }

  lemma ReplaceDone(t: Table, base: Table, before: seq<Body>, after: seq<Body>, fork: nat)
    requires Unique(before) && Unique(after) && Written(t, base, after, fork, |after|)
    ensures Replaced(t - (TxsFrom(before, fork) - TxsFrom(after, fork)), base, before, after, fork)
  {
    forall tx ensures (tx in TxsFrom(before, fork) <==> fork <= Home(before, tx))
                   && (tx in TxsFrom(after, fork) <==> fork <= Home(after, tx)) && Home(after, tx) < |after| {
      TxsAreAbove(before, fork, tx);
      TxsAreAbove(after, fork, tx);
    }
  }

  /** Below the fork the two chains agree on where a transaction is. */
  lemma SameHome(before: seq<Body>, after: seq<Body>, fork: nat, tx: TxHash)
    requires Unique(before) && Unique(after) && fork <= |before| && fork <= |after| && after[..fork] == before[..fork]
    ensures 0 <= Home(before, tx) < fork || 0 <= Home(after, tx) < fork ==> Home(before, tx) == Home(after, tx)
  {
    var i, j := Home(before, tx), Home(after, tx);
    if 0 <= i < fork {
      assert after[..fork][i] == before[..fork][i];
      HomeIs(after, tx, i);
    } else if 0 <= j < fork {
      assert after[..fork][j] == before[..fork][j];
      HomeIs(before, tx, j);
    }
  }

  /** A change of chain keeps every entry right and every block from the tail on indexed, wherever the fork lies.  The
      tail goes on describing the table exactly when no block that joined below the tail carries a transaction; in
      particular, when the fork does not lie below the tail. */
  lemma SwitchCovers(t: Table, base: Table, before: seq<Body>, after: seq<Body>, fork: nat, tail: nat)
    requires Unique(before) && Unique(after) && fork <= |before| && fork <= |after| && after[..fork] == before[..fork]
    requires Replaced(t, base, before, after, fork) && Covers(tail, base, before)
    ensures Covers(tail, t, after)
    ensures Indexed(base, before, tail, |before|) ==>
      (Indexed(t, after, tail, |after|) <==> forall n :: fork <= n < tail && n < |after| ==> after[n] == [])
  {
    forall tx ensures (tx in t ==> t[tx] == Home(after, tx)) && (tail <= Home(after, tx) ==> tx in t) {
      SameHome(before, after, fork, tx);
      assert Find(t, tx) == if fork <= Home(after, tx) then Some(Home(after, tx))
                            else if fork <= Home(before, tx) then None else Find(base, tx);
    }
    if Indexed(base, before, tail, |before|) {
      SwitchExact(t, base, before, after, fork, tail);
    }
  }

  lemma SwitchExact(t: Table, base: Table, before: seq<Body>, after: seq<Body>, fork: nat, tail: nat)
    requires Unique(before) && Unique(after) && fork <= |before| && fork <= |after| && after[..fork] == before[..fork]
    requires Replaced(t, base, before, after, fork) && Indexed(base, before, tail, |before|)
    ensures Indexed(t, after, tail, |after|) <==> forall n :: fork <= n < tail && n < |after| ==> after[n] == []
  {
    forall n | fork <= n < tail && n < |after| && after[n] != [] ensures !Indexed(t, after, tail, |after|) {
      var tx := after[n][0];
      HomeIs(after, tx, n);
      assert Find(t, tx) == Some(n);
    }
    if forall n :: fork <= n < tail && n < |after| ==> after[n] == [] {
      forall tx ensures Find(t, tx) == if tail <= Home(after, tx) < |after| then Some(Home(after, tx)) else None {
        SameHome(before, after, fork, tx);
        var n := Home(after, tx);
        if fork <= n < tail {
          HomeIs(after, tx, n);
        }
        assert Find(base, tx) == if tail <= Home(before, tx) < |before| then Some(Home(before, tx)) else None;
      }
    }
  }

  lemma SwitchComplete(t: Table, base: Table, before: seq<Body>, after: seq<Body>, fork: nat, tail: nat)
    requires Unique(before) && Unique(after) && fork <= |before| && fork <= |after| && after[..fork] == before[..fork]
    requires Replaced(t, base, before, after, fork) && Complete(tail, base, before)
    ensures Complete(tail, t, after)
  {
    forall tx | tail <= Home(after, tx) ensures Find(t, tx) == Some(Home(after, tx)) {
      SameHome(before, after, fork, tx);
    }
  }

  /** A fork below the tail that leaves an entry below it: the block numbered one joins with a transaction. */
  lemma ForkExample()
    ensures var before: seq<Body>, after: seq<Body> := [[], [], [5]], [[], [6], []];
      var base: Table, t: Table := map[5 := 2], map[6 := 1];
      && Indexed(base, before, 2, 3) && Replaced(t, base, before, after, 1) && !Indexed(t, after, 2, 3)
  {
    var before: seq<Body>, after: seq<Body> := [[], [], [5]], [[], [6], []];
    HomeIs(before, 5, 2);
    HomeIs(after, 6, 1);
    assert Find(map[6 := 1], 6) == Some(1);
  }

  /** A rewound chain keeps the transactions below the cut where they were. */
  lemma CutHome(before: seq<Body>, k: nat, tx: TxHash)
    requires Unique(before) && k <= |before|
    ensures Unique(before[..k]) && Home(before[..k], tx) == if Home(before, tx) < k then Home(before, tx) else -1
  {
    var n := Home(before, tx);
    if 0 <= n < k {
      HomeIs(before[..k], tx, n);
    } else if Home(before[..k], tx) >= 0 {
      HomeIs(before, tx, Home(before[..k], tx));
    }
  }

  /** Rewinding the chain leaves the table alone.  Every block from the tail on is still indexed, but the entries are
      all right if and only if none of them points past the new head. */
  lemma CutCovers(t: Table, before: seq<Body>, k: nat, tail: nat)
    requires Unique(before) && k <= |before|
    ensures Complete(tail, t, before) ==> Complete(tail, t, before[..k])
    ensures Covers(tail, t, before) ==> (Covers(tail, t, before[..k]) <==> forall tx :: tx in t ==> t[tx] < k)
    ensures Indexed(t, before, tail, |before|) ==>
      (Indexed(t, before[..k], tail, k) <==> forall tx :: tx in t ==> t[tx] < k)
  {
    forall tx ensures Home(before[..k], tx) == if Home(before, tx) < k then Home(before, tx) else -1 {
      CutHome(before, k, tx);
    }
    CutExact(t, before, before[..k], k, tail);
  }

  lemma CutExact(t: Table, before: seq<Body>, after: seq<Body>, k: nat, tail: nat)
    requires forall tx :: Home(after, tx) == if Home(before, tx) < k then Home(before, tx) else -1
    requires k <= |before|
    ensures Indexed(t, before, tail, |before|) ==>
      (Indexed(t, after, tail, k) <==> forall tx :: tx in t ==> t[tx] < k)
  {
    if Indexed(t, before, tail, |before|) {
      forall tx
        ensures (Find(t, tx) == if tail <= Home(after, tx) < k then Some(Home(after, tx)) else None)
                <==> (tx in t ==> t[tx] < k)
      {
        assert Find(t, tx) == if tail <= Home(before, tx) < |before| then Some(Home(before, tx)) else None;
      }
    }
  }

  /** A rewind that leaves a wrong entry: the block numbered one is gone, and its transaction is still found there. */
  lemma RewindExample()
    ensures var before: seq<Body>, t: Table := [[], [7]], map[7 := 1];
      Unique(before) && Covers(0, t, before) && !Covers(0, t, before[..1])
  {
    var before: seq<Body>, t: Table := [[], [7]], map[7 := 1];
    HomeIs(before, 7, 1);
    CutCovers(t, before, 1, 0);
    assert 7 in t && t[7] == 1;
  }

  /** The event removes no block with a transaction without unindexing it. */
  ghost predicate Quiet(blocks: seq<Body>, e: Event)
  {
    e.Rewound? ==> forall n :: e.length <= n < |blocks| ==> blocks[n] == []
  }

  lemma QuietCut(t: Table, before: seq<Body>, k: nat, tail: nat)
    requires Unique(before) && k <= |before| && Covers(tail, t, before)
    requires forall n :: k <= n < |before| ==> before[n] == []
    ensures forall tx :: tx in t ==> t[tx] < k
  {
    forall tx | tx in t ensures t[tx] < k {
      HomeIs(before, tx, t[tx]);
    }
  }

  function ChainAfter(blocks: seq<Body>, events: seq<Event>): seq<Body>
  {
    if events == [] then blocks else NextChain(ChainAfter(blocks, events[..|events| - 1]), events[|events| - 1])
  }

  ghost predicate FollowOn(blocks: seq<Body>, events: seq<Event>)
  {
    forall i {:trigger events[i]} :: 0 <= i < |events| ==> FollowsOn(ChainAfter(blocks, events[..i]), events[i])
  }

  /** No rewind removes a block with a transaction. */
  ghost predicate AllQuiet(blocks: seq<Body>, events: seq<Event>)
  {
    events == [] ||
    (&& AllQuiet(blocks, events[..|events| - 1])
     && Quiet(ChainAfter(blocks, events[..|events| - 1]), events[|events| - 1]))
  }

  /** The highest the tail can have got: where it started, or the bound of some head seen since. */
  ghost function Reach(limit: nat, cutoff: nat, start: nat, blocks: seq<Body>, events: seq<Event>): nat
  {
    if events == [] then start
    else
      var before, chain := Reach(limit, cutoff, start, blocks, events[..|events| - 1]), ChainAfter(blocks, events);
      var bound := if chain == [] then 0 else Bound(limit, cutoff, |chain| - 1);
      if before < bound then bound else before
  }

  /** No fork lies below the windows seen before it. */
  ghost predicate Shallow(limit: nat, cutoff: nat, start: nat, blocks: seq<Body>, events: seq<Event>)
  {
    events == [] ||
    (&& Shallow(limit, cutoff, start, blocks, events[..|events| - 1])
     && Reach(limit, cutoff, start, blocks, events[..|events| - 1]) <= ForkOf(events[|events| - 1]))
  }

  /** What a head event does to the tail and the table. */
  ghost predicate HeadStep(limit: nat, cutoff: nat, e: Event, tail: Option<nat>, t: Table, blocks: seq<Body>,
                           tail': Option<nat>, t': Table)
    requires blocks != [] && NextChain(blocks, e) != [] && tail.Some?
  {
    var chain := NextChain(blocks, e);
    var head := |chain| - 1;
    && tail'.Some? && Complete(tail'.value, t', chain)
    && (Quiet(blocks, e) && Covers(tail.value, t, blocks) ==> Covers(tail'.value, t', chain))
    && (Quiet(blocks, e) && cutoff <= tail.value <= ForkOf(e) && Agrees(tail, t, blocks, |blocks| - 1) ==>
          && cutoff <= tail'.value && Agrees(tail', t', chain, head)
          && (tail' == tail || tail' == Some(Bound(limit, cutoff, head)))
          && (e.idle && 0 < head && cutoff <= head ==> tail' == Some(Bound(limit, cutoff, head))))
  }

  /** What holds after a run of head events. */
  ghost predicate Tracks(limit: nat, cutoff: nat, start: nat, chain: seq<Body>, events: seq<Event>,
                         tail: Option<nat>, t: Table, blocks: seq<Body>)
  {
    && blocks != [] && Unique(blocks) && blocks == ChainAfter(chain, events)
    && tail.Some? && Complete(tail.value, t, blocks)
    && (AllQuiet(chain, events) ==> Covers(tail.value, t, blocks))
    && (AllQuiet(chain, events) && Shallow(limit, cutoff, start, chain, events) ==>
          var head := |blocks| - 1;
          && Agrees(tail, t, blocks, head) && cutoff <= tail.value <= Reach(limit, cutoff, start, chain, events)
          && (events != [] && events[|events| - 1].idle && 0 < head && cutoff <= head ==>
                tail == Some(Bound(limit, cutoff, head)) && Indexed(t, blocks, Bound(limit, cutoff, head), head + 1)))
  }

  lemma TrackStart(limit: nat, cutoff: nat, tail: Option<nat>, t: Table, blocks: seq<Body>)
    requires blocks != [] && Unique(blocks) && Agrees(tail, t, blocks, |blocks| - 1) && cutoff <= tail.value
    ensures Tracks(limit, cutoff, tail.value, blocks, [], tail, t, blocks)
  {
    AgreesCovers(tail.value, t, blocks);
  }

  lemma NextFollows(chain: seq<Body>, events: seq<Event>, i: nat)
    requires FollowOn(chain, events) && i < |events|
    ensures FollowsOn(ChainAfter(chain, events[..i]), events[i]) && events[..i + 1] == events[..i] + [events[i]]
  {
  }

  lemma TrackStep(limit: nat, cutoff: nat, start: nat, chain: seq<Body>, events: seq<Event>, e: Event,
                  tail: Option<nat>, t: Table, blocks: seq<Body>, tail': Option<nat>, t': Table)
    requires Tracks(limit, cutoff, start, chain, events, tail, t, blocks) && FollowsOn(blocks, e)
    requires HeadStep(limit, cutoff, e, tail, t, blocks, tail', t')
    ensures Tracks(limit, cutoff, start, chain, events + [e], tail', t', NextChain(blocks, e))
  {
    assert (events + [e])[..|events|] == events;
  }

  /** Moving the tail down over written blocks, or up over removed ones, keeps the blocks from it on indexed. */
  lemma MoveCovers(t: Table, base: Table, blocks: seq<Body>, low: nat, bound: nat)
    requires Covers(low, base, blocks)
    ensures low <= bound && Removed(t, base, blocks, low, bound) ==> Covers(bound, t, blocks)
    ensures bound < low && Written(t, base, blocks, bound, if low < |blocks| then low else |blocks|) ==>
        Covers(bound, t, blocks)
  {
    forall tx ensures (tx in t ==> Find(t, tx) == Some(t[tx])) && (tx in base ==> Find(base, tx) == Some(base[tx]))
                   && (tx !in base ==> Find(base, tx).None?) && (tx !in t ==> Find(t, tx).None?)
                     && Home(blocks, tx) < |blocks| {
    }
  }

  lemma MoveComplete(t: Table, base: Table, blocks: seq<Body>, low: nat, bound: nat)
    requires Complete(low, base, blocks)
    ensures low <= bound && Removed(t, base, blocks, low, bound) ==> Complete(bound, t, blocks)
    ensures bound < low && Written(t, base, blocks, bound, if low < |blocks| then low else |blocks|) ==>
        Complete(bound, t, blocks)
  {
    assert forall tx :: Home(blocks, tx) < |blocks|;
  }

  lemma AgreesCovers(tail: nat, t: Table, blocks: seq<Body>)
    requires Indexed(t, blocks, tail, |blocks|)
    ensures Covers(tail, t, blocks) && Complete(tail, t, blocks)
  {
    assert forall tx :: Home(blocks, tx) < |blocks|;
    forall tx ensures (tx in t ==> t[tx] == Home(blocks, tx)) && (tail <= Home(blocks, tx) ==> tx in t) {
      assert Find(t, tx) == if tail <= Home(blocks, tx) < |blocks| then Some(Home(blocks, tx)) else None;
    }
  }

  /** A task has moved the tail to the bound, unindexing or indexing what lies between, or has touched nothing. */
  ghost predicate Moved(bound: nat, head: nat, tail: Option<nat>, t: Table, blocks: seq<Body>, tail': Option<nat>,
      t': Table)
    requires tail.Some?
  {
    if tail' == Some(bound) then
      && (tail.value <= bound ==> Removed(t', t, blocks, tail.value, bound))
      && (bound < tail.value ==> Written(t', t, blocks, bound, if tail.value <= head then tail.value else head + 1))
    else tail' == tail && t' == t
  }

  /** What a task makes of the tail and the table. */
  lemma TaskCovers(bound: nat, head: nat, tail: Option<nat>, t: Table, blocks: seq<Body>, tail': Option<nat>, t': Table)
    requires tail.Some? && head + 1 == |blocks| && Complete(tail.value, t, blocks)
    requires Moved(bound, head, tail, t, blocks, tail', t')
    ensures tail'.Some? && Complete(tail'.value, t', blocks)
    ensures Covers(tail.value, t, blocks) ==> Covers(tail'.value, t', blocks)
    ensures bound <= head && Agrees(tail, t, blocks, head) ==> Agrees(tail', t', blocks, head)
  {
    MoveComplete(t', t, blocks, tail.value, bound);
    if Covers(tail.value, t, blocks) {
      MoveCovers(t', t, blocks, tail.value, bound);
    }
    if bound <= head && tail.value <= head + 1 {
      if bound < tail.value {
        MoveTail(t', t, blocks, bound, tail.value, head + 1);
      } else {
        MoveTail(t', t, blocks, tail.value, bound, head + 1);
      }
    }
  }

  class TxIndexer {
    const limit: nat
    const cutoff: nat
    var blocks: seq<Body>       // the canonical bodies by number
    var tail: Option<nat>
    var lookup: Table
    var reported: Option<nat>   // the tail as the progress report sees it

    constructor (limit: nat, cutoff: nat, blocks: seq<Body>, tail: Option<nat>, lookup: Table)
      ensures this.limit == limit && this.cutoff == cutoff && this.blocks == blocks
      ensures this.tail == tail && this.lookup == lookup && reported == tail
    {
      this.limit, this.cutoff, this.blocks := limit, cutoff, blocks;
      this.tail, this.lookup, reported := tail, lookup, tail;
    }

    // -------------------------------------------------------------- indexing a range

    /** Indexes the blocks from `from` up to `to`, from the top down, in batches that carry the tail with them. */
    method IndexTransactions(from: nat, to: nat, d: seq<nat>, full: nat -> bool)
        returns (ghost log: seq<Snapshot>, lastNum: nat)
      requires Unique(blocks) && Deliveries(d, from, if to <= |blocks| then to else |blocks|)
      modifies `tail, `lookup
      ensures from >= to ==> lookup == old(lookup) && tail == old(tail) && log == []
      ensures from < to ==>
        && from <= lastNum <= to && tail == Some(lastNum) && Written(lookup, old(lookup), blocks, lastNum, to)
        && (forall n :: lastNum <= n < to ==> n in d) && lastNum - 1 !in d
        && WrittenLog(log, old(lookup), blocks, lastNum, to)
    {
      log, lastNum := [], to;
      if from >= to {
        return;
      }
      var batch: Table := map[];
      var queue: set<nat> := {};
      var i := 0;
      ghost var base, top := lookup, if to <= |blocks| then to else |blocks|;
      while i < |d|
        invariant from <= lastNum <= to && Queued(d, i, queue, lastNum, to) && lastNum - 1 !in queue
        invariant Written(lookup + batch, base, blocks, lastNum, to) && WrittenLog(log, base, blocks, lastNum, to)
      {
        Enqueue(d, i, queue, from, top, lastNum, to);
        queue := queue + {d[i]};
        i := i + 1;
        log, lastNum, queue, batch := DrainDown(from, to, d, i, full, base, log, lastNum, queue, batch);
      }
      assert d[..i] == d;
      lookup, tail := lookup + batch, Some(lastNum);
    }

    /** Indexes queued blocks as long as the next one down is there. */
    method DrainDown(from: nat, to: nat, ghost d: seq<nat>, ghost i: nat, full: nat -> bool, ghost base: Table,
                     ghost log0: seq<Snapshot>, lastNum0: nat, queue0: set<nat>, batch0: Table)
      returns (ghost log: seq<Snapshot>, lastNum: nat, queue: set<nat>, batch: Table)
      requires Unique(blocks) && Deliveries(d, from, if to <= |blocks| then to else |blocks|)
      requires from <= lastNum0 <= to && Queued(d, i, queue0, lastNum0, to)
      requires Written(lookup + batch0, base, blocks, lastNum0, to) && WrittenLog(log0, base, blocks, lastNum0, to)
      modifies `tail, `lookup
      ensures from <= lastNum <= to && Queued(d, i, queue, lastNum, to) && lastNum - 1 !in queue
      ensures Written(lookup + batch, base, blocks, lastNum, to) && WrittenLog(log, base, blocks, lastNum, to)
    {
      log, lastNum, queue, batch := log0, lastNum0, queue0, batch0;
      while queue != {}
        invariant from <= lastNum <= to && Queued(d, i, queue, lastNum, to)
        invariant Written(lookup + batch, base, blocks, lastNum, to) && WrittenLog(log, base, blocks, lastNum, to)
        decreases queue
      {
        var next := Peek(queue, true);
        assert next in d[..i];
        if next != lastNum - 1 {
          break;
        }
        Take(d, i, queue, lastNum, to, next);
        queue, lastNum := queue - {next}, next;
        log, batch := IndexBlock(lastNum, to, full, base, log, batch);
      }
    }

    /** Adds one block to the batch, and flushes the batch with the tail when it has grown too large. */
    method IndexBlock(n: nat, ghost to: nat, full: nat -> bool, ghost base: Table, ghost log0: seq<Snapshot>,
        batch0: Table)
      returns (ghost log: seq<Snapshot>, batch: Table)
      requires Unique(blocks) && n < |blocks| && n < to
      requires Written(lookup + batch0, base, blocks, n + 1, to) && WrittenLog(log0, base, blocks, n + 1, to)
      modifies `tail, `lookup
      ensures Written(lookup + batch, base, blocks, n, to) && WrittenLog(log, base, blocks, n, to)
    {
      log := log0;
      WriteBelow(lookup + batch0, base, blocks, n, to);
      assert (lookup + batch0) + EntriesOf(n, blocks[n]) == lookup + (batch0 + EntriesOf(n, blocks[n]));
      batch := WriteTxLookups(batch0, n, blocks[n]);
      if full(n) {
        lookup, tail := lookup + batch, Some(n);
        log := log + [Snapshot(tail, lookup)];
        batch := map[];
        assert lookup + batch == lookup;
      }
    }

    // -------------------------------------------------------------- unindexing a range

    /** Removes the blocks from `from` up to `to`, from the bottom up, in batches that carry the tail with them. */
    method UnindexTransactions(from: nat, to: nat, d: seq<nat>) returns (ghost log: seq<Snapshot>, nextNum: nat)
      requires Unique(blocks) && Deliveries(d, from, if to <= |blocks| then to else |blocks|)
      modifies `tail, `lookup
      ensures from >= to ==> lookup == old(lookup) && tail == old(tail) && log == []
      ensures from < to ==>
        && from <= nextNum <= to && tail == Some(nextNum) && Removed(lookup, old(lookup), blocks, from, nextNum)
        && (forall n :: from <= n < nextNum ==> n in d) && nextNum !in d
        && RemovedLog(log, old(lookup), blocks, from, nextNum)
    {
      log, nextNum := [], from;
      if from >= to {
        return;
      }
      var batch: set<TxHash> := {};
      var queue: set<nat> := {};
      var i, count := 0, 0;
      ghost var base, top := lookup, if to <= |blocks| then to else |blocks|;
      while i < |d|
        invariant from <= nextNum <= to && Queued(d, i, queue, from, nextNum) && nextNum !in queue
        invariant Removed(lookup - batch, base, blocks, from, nextNum) && RemovedLog(log, base, blocks, from, nextNum)
      {
        Enqueue(d, i, queue, from, top, from, nextNum);
        queue := queue + {d[i]};
        i := i + 1;
        log, nextNum, queue, batch, count := DrainUp(from, to, d, i, base, log, nextNum, queue, batch, count);
      }
      assert d[..i] == d;
      lookup, tail := lookup - batch, Some(nextNum);
    }

    /** Removes queued blocks as long as the next one up is there. */
    method DrainUp(from: nat, ghost to: nat, ghost d: seq<nat>, ghost i: nat, ghost base: Table,
                   ghost log0: seq<Snapshot>, nextNum0: nat, queue0: set<nat>, batch0: set<TxHash>, count0: nat)
      returns (ghost log: seq<Snapshot>, nextNum: nat, queue: set<nat>, batch: set<TxHash>, count: nat)
      requires Unique(blocks) && Deliveries(d, from, if to <= |blocks| then to else |blocks|)
      requires from <= nextNum0 <= to && Queued(d, i, queue0, from, nextNum0)
      requires Removed(lookup - batch0, base, blocks, from, nextNum0) && RemovedLog(log0, base, blocks, from, nextNum0)
      modifies `tail, `lookup
      ensures from <= nextNum <= to && Queued(d, i, queue, from, nextNum) && nextNum !in queue
      ensures Removed(lookup - batch, base, blocks, from, nextNum) && RemovedLog(log, base, blocks, from, nextNum)
    {
      log, nextNum, queue, batch, count := log0, nextNum0, queue0, batch0, count0;
      while queue != {}
        invariant from <= nextNum <= to && Queued(d, i, queue, from, nextNum)
        invariant Removed(lookup - batch, base, blocks, from, nextNum) && RemovedLog(log, base, blocks, from, nextNum)
        decreases queue
      {
        var next := Peek(queue, false);
        assert next in d[..i];
        if next != nextNum {
          break;
        }
        Take(d, i, queue, from, nextNum, next);
        queue, nextNum, count := queue - {next}, next + 1, count + 1;
        log, batch := UnindexBlock(from, next, count, base, log, batch);
      }
    }

    /** Adds one block's removal to the batch; every thousandth block flushes the batch with the tail. */
    method UnindexBlock(ghost from: nat, n: nat, count: nat, ghost base: Table, ghost log0: seq<Snapshot>,
        batch0: set<TxHash>)
      returns (ghost log: seq<Snapshot>, batch: set<TxHash>)
      requires Unique(blocks) && from <= n < |blocks|
      requires Removed(lookup - batch0, base, blocks, from, n) && RemovedLog(log0, base, blocks, from, n)
      modifies `tail, `lookup
      ensures Removed(lookup - batch, base, blocks, from, n + 1) && RemovedLog(log, base, blocks, from, n + 1)
    {
      log := log0;
      RemoveAbove(lookup - batch0, base, blocks, from, n);
      assert (lookup - batch0) - TxSet(blocks[n]) == lookup - (batch0 + TxSet(blocks[n]));
      batch := DeleteEntries(batch0, blocks[n]);
      if count % 1000 == 0 {
        lookup, tail := lookup - batch, Some(n + 1);
        log := log + [Snapshot(tail, lookup)];
        batch := {};
        assert lookup - batch == lookup;
      }
    }

    // -------------------------------------------------------------- the indexing task

    /** Indexes down from the tail. */
    method Lower(from: nat, to: nat, ghost head: nat, feed: Feed, full: nat -> bool) returns (ghost log: seq<Snapshot>)
      requires Unique(blocks) && head < |blocks| && Feeds(feed, head) && tail.Some? && to <= tail.value
      modifies `tail, `lookup
      ensures to == old(tail).value && Agrees(old(tail), old(lookup), blocks, head) ==>
        Agrees(tail, lookup, blocks, head) && AllAgree(log, blocks, head) && tail.value <= to
      ensures from < to <= head + 1 && Uninterrupted(feed, head) ==>
          tail == Some(from) && Written(lookup, old(lookup), blocks, from, to)
      ensures from >= to ==> tail == old(tail) && lookup == old(lookup)
      ensures to == old(tail).value > head + 1 ==> tail == old(tail) && Written(lookup, old(lookup), blocks, to, to)
    {
      ghost var base := lookup;
      assert Deliveries(feed(from, to), from, if to <= head + 1 then to else head + 1);
      var last;
      log, last := IndexTransactions(from, to, feed(from, to), full);
      if from < to {
        RangeDone(feed, head, from, to, last);
        if to <= head + 1 && Indexed(base, blocks, to, head + 1) {
          WrittenAgrees(log, lookup, base, blocks, last, to, head);
        }
      }
    }

    /** Unindexes up from the tail. */
    method Raise(from: nat, to: nat, ghost head: nat, feed: Feed) returns (ghost log: seq<Snapshot>)
      requires Unique(blocks) && head < |blocks| && Feeds(feed, head) && tail == Some(from) && to <= head
      modifies `tail, `lookup
      ensures Agrees(old(tail), old(lookup), blocks, head) ==>
        Agrees(tail, lookup, blocks, head) && AllAgree(log, blocks, head) && tail.value <= if from < to then to
          else from
      ensures from <= to && Uninterrupted(feed, head) ==>
          tail == Some(to) && Removed(lookup, old(lookup), blocks, from, to)
    {
      ghost var base := lookup;
      assert Deliveries(feed(from, to), from, to);
      var next;
      log, next := UnindexTransactions(from, to, feed(from, to));
      if from < to {
        if Uninterrupted(feed, head) {
          RangeUpDone(feed, head, from, to, next);
        }
        if Indexed(base, blocks, from, head + 1) {
          RemovedAgrees(log, lookup, base, blocks, from, next, head);
        }
      }
    }

    /** One indexing task.  Interrupted or not, and after every flush on the way, a tail that described the table before
        describes it again.  Uninterrupted, the tail ends on the bound exactly when a limited window's tail is at most
        one above the head, or an unlimited one's is not below the cutoff; otherwise nothing is touched. */
    method Run(head: nat, feed: Feed, full: nat -> bool) returns (ghost log: seq<Snapshot>)
      requires Unique(blocks) && head < |blocks| && Feeds(feed, head)
      modifies `tail, `lookup
      ensures head == 0 || head < cutoff ==> tail == old(tail) && lookup == old(lookup)
      ensures old(tail).Some? && old(tail).value <= head && Agrees(old(tail), old(lookup), blocks, head) ==>
        Agrees(tail, lookup, blocks, head) && AllAgree(log, blocks, head) && tail.value <= head
      ensures Uninterrupted(feed, head) && 0 < head && cutoff <= head && old(tail).None? ==>
        tail == Some(Bound(limit, cutoff, head))
          && Written(lookup, old(lookup), blocks, Bound(limit, cutoff, head), head + 1)
      ensures Uninterrupted(feed, head) && 0 < head && cutoff <= head && old(tail).Some? ==>
        && (tail == Some(Bound(limit, cutoff, head)) <==>
              if 0 < limit <= head then old(tail).value <= head + 1 else cutoff <= old(tail).value)
        && Moved(Bound(limit, cutoff, head), head, old(tail), old(lookup), blocks, tail, lookup)
    {
      log := [];
      if head == 0 || head < cutoff {
        return;
      }
      if tail.None? {
        var from := if limit != 0 && head >= limit then head - limit + 1 else 0;
        from := if from < cutoff then cutoff else from;
        assert Deliveries(feed(from, head + 1), from, head + 1);
        var last;
        log, last := IndexTransactions(from, head + 1, feed(from, head + 1), full);
        RangeDone(feed, head, from, head + 1, last);
        return;
      }
      var low := tail.value;
      if limit == 0 || head < limit {
        if low > 0 {
          log := Lower(cutoff, if low < head + 1 then low else head + 1, head, feed, full);
        }
        return;
      }
      var from := if head - limit + 1 < cutoff then cutoff else head - limit + 1;
      if from < low {
        ghost var base := lookup;
        log := Lower(from, low, head, feed, full);
        if Written(lookup, base, blocks, low, low) {
          WrittenNothing(lookup, base, blocks, low);
        }
      } else {
        log := Raise(low, from, head, feed);
      }
    }

    /** Makes the index valid for the head it finds, dropping what cannot be kept. */
    method Repair(head: nat)
      modifies `tail, `lookup, `reported
      ensures tail == if old(tail).None? || old(tail).value > head || head < cutoff then None
                      else if old(tail).value < cutoff then Some(cutoff) else old(tail)
      ensures old(tail).None? ==> lookup == old(lookup) && reported == old(reported)
      ensures old(tail).Some? && tail.None? ==> lookup == map[] && reported == None
      ensures old(tail) == tail ==> lookup == old(lookup) && reported == old(reported)
      ensures old(tail) != tail && tail.Some? ==> reported == tail
      ensures old(tail) != tail && tail.Some? ==>
        forall tx :: Find(lookup, tx) == if tx in old(lookup) && cutoff <= old(lookup)[tx] then Some(old(lookup)[tx])
                                         else None
      ensures cutoff <= head && Agrees(old(tail), old(lookup), blocks, head) && old(tail).value <= head ==>
        Agrees(tail, lookup, blocks, head)
    {
      if tail.None? {
        return;
      }
      var low := tail.value;
      if low > head || head < cutoff {
        reported, tail, lookup := None, None, map[];
        return;
      }
      if low < cutoff {
        if Agrees(tail, lookup, blocks, head) {
          CutBelow(lookup, blocks, low, cutoff, head + 1);
        }
        reported, tail, lookup := Some(cutoff), Some(cutoff), AtLeast(lookup, cutoff);
      }
    }

    /** What the indexer does when it starts: whatever limit and cutoff the index was built with, the window is exactly
        the configured one afterwards, if and only if a table without a tail had no strays in it. */
    method Start(head: nat, feed: Feed, full: nat -> bool) returns (ghost log: seq<Snapshot>)
      requires Unique(blocks) && head < |blocks| && Feeds(feed, head) && Uninterrupted(feed, head)
      modifies `tail, `lookup, `reported
      ensures 0 < head && cutoff <= head ==> tail == Some(Bound(limit, cutoff, head)) && reported == tail
      ensures var bound := Bound(limit, cutoff, head);
        && 0 < head && cutoff <= head
        && (old(tail).Some? && old(tail).value <= head ==> Agrees(old(tail), old(lookup), blocks, head)) ==>
          (Indexed(lookup, blocks, bound, head + 1)
           <==> (old(tail).None? ==> NoStrays(old(lookup), blocks, bound, head + 1)))
      ensures head < cutoff ==> tail.None? && (old(tail).Some? ==> lookup == map[])
    {
      log := [];
      Repair(head);
      ghost var base := lookup;
      if head != 0 {
        log := Run(head, feed, full);
        if cutoff <= head && Written(lookup, base, blocks, Bound(limit, cutoff, head), head + 1) {
          StraysStay(lookup, base, blocks, Bound(limit, cutoff, head), head + 1);
        }
      }
      reported := tail;
    }

    // -------------------------------------------------------------- following the head

    /** The block writer's part of a new head: the transactions of the blocks that join from number `fork` on are
        indexed, and those of the blocks that leave are not any more, unless they come back. */
    method Switch(chain: seq<Body>, fork: nat)
      requires Unique(blocks) && Unique(chain) && fork <= |blocks| && fork <= |chain|
      modifies `blocks, `lookup
      ensures blocks == chain && Replaced(lookup, old(lookup), old(blocks), chain, fork)
    {
      var gone, back := TxsFrom(blocks, fork), TxsFrom(chain, fork);
      var n := fork;
      ghost var base := lookup;
      while n < |chain|
        invariant fork <= n <= |chain| && blocks == old(blocks) && Written(lookup, base, chain, fork, n)
      {
        WriteAbove(lookup, base, chain, fork, n);
        lookup := WriteTxLookups(lookup, n, chain[n]);
        n := n + 1;
      }
      ReplaceDone(lookup, base, blocks, chain, fork);
      lookup := lookup - (gone - back);
      blocks := chain;
    }

    /** An uninterrupted task keeps the blocks from the tail on indexed, and makes an exact table the configured
        window. */
    method StartTask(feed: Feed, full: nat -> bool)
      requires Unique(blocks) && blocks != [] && Feeds(feed, |blocks| - 1) && Uninterrupted(feed, |blocks| - 1)
      requires tail.Some? && Complete(tail.value, lookup, blocks)
      modifies `tail, `lookup, `reported
      ensures tail.Some? && Complete(tail.value, lookup, blocks)
      ensures Covers(old(tail).value, old(lookup), blocks) ==> Covers(tail.value, lookup, blocks)
      ensures var head := |blocks| - 1;
        cutoff <= old(tail).value && Agrees(old(tail), old(lookup), blocks, head) ==>
          && Agrees(tail, lookup, blocks, head)
          && tail == if 0 < head && cutoff <= head then Some(Bound(limit, cutoff, head)) else old(tail)
    {
      ghost var tail0, base, head := tail, lookup, |blocks| - 1;
      ghost var log := Run(|blocks| - 1, feed, full);
      if 0 < head && cutoff <= head {
        TaskCovers(Bound(limit, cutoff, head), head, tail0, base, blocks, tail, lookup);
      }
      reported := tail;
    }

    /** One head event: the chain changes, and a task starts unless one is still under way. */
    method OnHead(e: Event, full: nat -> bool)
      requires Unique(blocks) && blocks != [] && FollowsOn(blocks, e) && tail.Some?
      requires Complete(tail.value, lookup, blocks)
      modifies this
      ensures blocks == NextChain(old(blocks), e)
      ensures HeadStep(limit, cutoff, e, old(tail), old(lookup), old(blocks), tail, lookup)
    {
      ChangeChain(e);
      if e.idle {
        StartTask(e.feed, full);
      }
    }

    /** The chain's part of a head event.  A rewind deletes bodies and leaves the lookups of what it deleted behind. */
    method ChangeChain(e: Event)
      requires Unique(blocks) && blocks != [] && FollowsOn(blocks, e) && tail.Some?
      requires Complete(tail.value, lookup, blocks)
      modifies `blocks, `lookup
      ensures blocks == NextChain(old(blocks), e) && Complete(tail.value, lookup, blocks)
      ensures Quiet(old(blocks), e) && Covers(tail.value, old(lookup), old(blocks)) ==>
        Covers(tail.value, lookup, blocks)
      ensures var head := |old(blocks)| - 1;
        Quiet(old(blocks), e) && tail.value <= ForkOf(e) && Agrees(tail, old(lookup), old(blocks), head) ==>
          Agrees(tail, lookup, blocks, |blocks| - 1)
    {
      ghost var before, table, low := blocks, lookup, tail.value;
      match e
      case Reorganised(chain, fork, _, _) =>
        Switch(chain, fork);
        SwitchComplete(lookup, table, before, blocks, fork, low);
        if Covers(low, table, before) {
          SwitchCovers(lookup, table, before, blocks, fork, low);
        }
        if Indexed(table, before, low, |before|) {
          AgreesCovers(low, table, before);
          SwitchCovers(lookup, table, before, blocks, fork, low);
        }
      case Rewound(length, _, _) =>
        blocks := blocks[..length];
        CutCovers(lookup, before, length, low);
        if Quiet(before, e) && Covers(low, lookup, before) {
          QuietCut(lookup, before, length, low);
        }
        if Quiet(before, e) && Indexed(lookup, before, low, |before|) {
          AgreesCovers(low, lookup, before);
          QuietCut(lookup, before, length, low);
        }
    }

    /** Any run of head events, wherever the chain forks and however low the head falls: every block from the tail on is
        indexed.  While no rewind removes a block with a transaction, every entry is right as well; and while besides no
        fork lies below the windows seen so far, the tail describes the table exactly, and every event that starts a
        task leaves exactly the configured window. */
    method Follow(events: seq<Event>, full: nat -> bool)
      requires Unique(blocks) && blocks != [] && FollowOn(blocks, events)
      requires Agrees(tail, lookup, blocks, |blocks| - 1) && cutoff <= tail.value
      modifies this
      ensures Tracks(limit, cutoff, old(tail).value, old(blocks), events, tail, lookup, blocks)
    {
      ghost var start, chain := tail.value, blocks;
      assert events[..0] == [];
      TrackStart(limit, cutoff, tail, lookup, blocks);
      var i := 0;
      while i < |events|
        invariant 0 <= i <= |events| && Tracks(limit, cutoff, start, chain, events[..i], tail, lookup, blocks)
      {
        ghost var tail0, lookup0, blocks0 := tail, lookup, blocks;
        NextFollows(chain, events, i);
        OnHead(events[i], full);
        TrackStep(limit, cutoff, start, chain, events[..i], events[i], tail0, lookup0, blocks0, tail, lookup);
        i := i + 1;
      }
      assert events[..i] == events;
    }
  }

  function UpTo(from: nat, to: nat): (r: seq<nat>)
    ensures |r| == if from < to then to - from else 0
    ensures forall i :: 0 <= i < |r| ==> r[i] == from + i
  {
    if from < to then seq(to - from, i requires 0 <= i => from + i) else []
  }

  /** Deliveries in order, of the blocks up to a head. */
  function InOrder(head: nat): Feed
  {
    (from: nat, to: nat) => UpTo(from, if to <= head + 1 then to else head + 1)
  }

  lemma InOrderFeeds(head: nat)
    ensures Feeds(InOrder(head), head) && Uninterrupted(InOrder(head), head)
  {
    var feed := InOrder(head);
    assert forall from: nat, to: nat :: feed(from, to) == UpTo(from, if to <= head + 1 then to else head + 1);
    forall from: nat, to: nat, n: nat | from <= n < to <= head + 1 ensures n in feed(from, to) {
      assert UpTo(from, to)[n - from] == n;
    }
  }

  /** A limited window does not come back once the chain has fallen far enough below its tail: with the head at number
      one and the tail left at three, a task changes nothing, and the head's transaction stays out of the table. */
  method StalledBelowTail() returns (ix: TxIndexer)
    ensures Bound(1, 0, 1) == 1 && ix.limit == 1 && ix.cutoff == 0 && ix.blocks == [[], [7]]
    ensures ix.tail == Some(3) && 7 !in ix.lookup
  {
    ix := new TxIndexer(1, 0, [[], [7]], Some(3), map[]);
    InOrderFeeds(1);
    ghost var log := ix.Run(1, InOrder(1), n => false);
  }

  /** An unlimited window whose tail lies below the cutoff is not cut by a task: the block below the cutoff stays
      indexed. */
  method StalledBelowCutoff() returns (ix: TxIndexer)
    ensures Bound(0, 1, 1) == 1 && ix.limit == 0 && ix.cutoff == 1 && ix.blocks == [[6], [7]]
    ensures ix.tail == Some(0) && ix.lookup == map[6 := 0, 7 := 1]
  {
    ix := new TxIndexer(0, 1, [[6], [7]], Some(0), map[6 := 0, 7 := 1]);
    InOrderFeeds(1);
    ghost var log := ix.Run(1, InOrder(1), n => false);
  }

  // ---------------------------------------------------------------- the progress report

  const TWO64: nat := 0x1_0000_0000_0000_0000

  /** The progress of an index whose tail is given.  The subtraction of the tail is on 64-bit words and wraps. */
  function Report(limit: nat, cutoff: nat, head: nat, tail: Option<nat>): Progress
  {
    if head < cutoff then Progress(0, 0)
    else
      var wanted := if limit == 0 || limit > head then head + 1 else limit;
      var length := head - cutoff + 1;
      var total := if wanted > length then length else wanted;
      var indexed := match tail case Some(t) => (head - t + 1) % TWO64 case None => 0;
      Progress(indexed, if indexed < total then total - indexed else 0)
  }

  /** The report agrees with the window the indexer keeps: what remains is the distance of the tail from the bound.  The
      one exception is a tail more than one block above the head, for which it claims that nothing remains. */
  lemma ReportMatchesBound(limit: nat, cutoff: nat, head: nat, tail: nat)
    requires cutoff <= head && head + 1 < TWO64 && tail < TWO64
    ensures var bound, p := Bound(limit, cutoff, head), Report(limit, cutoff, head, Some(tail));
      && (tail <= head + 1 ==> p.indexed == head + 1 - tail && p.remaining == if tail <= bound then 0 else tail - bound)
      && (p.remaining == 0 <==> tail <= bound || tail > head + 1)
      && Report(limit, cutoff, head, None) == Progress(0, head + 1 - bound)
  {
    if tail > head + 1 {
      assert (head - tail + 1) % TWO64 == head - tail + 1 + TWO64;
    } else {
      assert (head - tail + 1) % TWO64 == head - tail + 1;
    }
  }

  /** With the tail two above the head the report says that nothing remains, though nothing is indexed. */
  lemma ReportExample()
    ensures Bound(0, 0, 5) == 0 && Report(0, 0, 5, Some(7)).remaining == 0 && Report(0, 0, 5, None).remaining == 6
  {
    ReportMatchesBound(0, 0, 5, 7);
  }
}
