/**
 Garbage collection of in-memory state tries in full, non-archive hash mode.

 Every written block takes one metadata reference on its state root and queues the root under the block's number; a
 write past the retention window releases the roots that have matured.  Flushing whole tries to disk takes and releases
 no metadata reference and is not modelled.
 */
module TrieGc {
  type Root = int

  const TRIES_IN_MEMORY: nat := 128

  datatype Item = Item(root: Root, number: nat)

  ghost function RootSeq(q: seq<Item>): seq<Root>
  {
    seq(|q|, i requires 0 <= i < |q| => q[i].root)
  }

  /** The references a queue accounts for, one per queued root. */
  ghost function Roots(q: seq<Item>): multiset<Root>
  {
    multiset(RootSeq(q))
  }

  lemma AddOne(q: seq<Item>, item: Item)
    ensures Roots(q + [item]) == Roots(q) + multiset{item.root}
  {
    assert RootSeq(q + [item]) == RootSeq(q) + [item.root];
  }

  ghost function Without(q: seq<Item>, i: nat): seq<Item>
    requires i < |q|
  {
    q[..i] + q[i + 1..]
  }

  /** Taking one item out of a queue takes one reference out. */
  lemma RemoveOne(q: seq<Item>, i: nat)
    requires i < |q|
    ensures Roots(q) == Roots(Without(q, i)) + multiset{q[i].root}
  {
    var low, high := RootSeq(q[..i]), RootSeq(q[i + 1..]);
    assert RootSeq(q) == low + [q[i].root] + high;
    assert RootSeq(Without(q, i)) == low + high;
  }

  class Collector {
    var queue: seq<Item>        // a priority queue: the lowest number comes out first
    var refs: multiset<Root>    // metadata references held in the trie database

    constructor ()
      ensures Valid() && queue == []
    {
      queue, refs := [], multiset{};
    }

    ghost predicate Valid()
      reads this
    {
      refs == Roots(queue)
    }

    /** Where the item to come out next sits. */
    method Lowest() returns (best: nat)
      requires queue != []
      ensures best < |queue| && forall i :: 0 <= i < |queue| ==> queue[best].number <= queue[i].number
    {
      best := 0;
      var i := 1;
      while i < |queue|
        invariant 0 <= best < i <= |queue|
        invariant forall j :: 0 <= j < i ==> queue[best].number <= queue[j].number
      {
        if queue[i].number < queue[best].number {
          best := i;
        }
        i := i + 1;
      }
    }

    /** The trie part of a block write: afterwards the queue holds exactly what the retention rule keeps, and the
        references are exactly the queued roots. */
    method Write(root: Root, number: nat)
      requires Valid()
      modifies this
      ensures Valid() && queue == Step(old(queue), Item(root, number))
    {
      AddOne(queue, Item(root, number));
      refs := refs + multiset{root};
      queue := queue + [Item(root, number)];
      if number <= TRIES_IN_MEMORY {
        return;
      }
      Release(number - TRIES_IN_MEMORY);
    }

    /** Releases every queued root numbered `chosen` or less.  An item that is not due goes straight back into the
        queue. */
    method Release(chosen: nat)
      requires Valid()
      modifies this
      ensures Valid() && queue == Kept(old(queue), chosen)
    {
      while queue != []
        invariant Valid() && Kept(queue, chosen) == Kept(old(queue), chosen)
        decreases |queue|
      {
        var best := Lowest();
        if queue[best].number > chosen {
          KeptAll(queue, chosen);
          return;
        }
        RemoveOne(queue, best);
        KeptWithout(queue, best, chosen);
        refs := refs - multiset{queue[best].root};
        queue := queue[..best] + queue[best + 1..];
      }
    }
  }

  // ---------------------------------------------------------------- the retention rule

  /** The queued items numbered above `chosen`. */
  ghost function Kept(q: seq<Item>, chosen: nat): seq<Item>
  {
    if q == [] then []
    else Kept(q[..|q| - 1], chosen) + if q[|q| - 1].number > chosen then [q[|q| - 1]] else []
  }

  lemma {:induction false} KeptAll(q: seq<Item>, chosen: nat)
    requires forall i :: 0 <= i < |q| ==> q[i].number > chosen
    ensures Kept(q, chosen) == q
  {
    if q != [] {
      KeptAll(q[..|q| - 1], chosen);
    }
  }

  lemma {:induction false} KeptWithout(q: seq<Item>, i: nat, chosen: nat)
    requires i < |q| && q[i].number <= chosen
    ensures Kept(Without(q, i), chosen) == Kept(q, chosen)
  {
    if i == |q| - 1 {
      assert Without(q, i) == q[..|q| - 1];
    } else {
      var init, last := q[..|q| - 1], q[|q| - 1];
      KeptWithout(init, i, chosen);
      WithoutInit(q, i);
      KeptSnoc(Without(init, i), last, chosen);
    }
  }

  lemma WithoutInit(q: seq<Item>, i: nat)
    requires i < |q| - 1
    ensures Without(q, i) == Without(q[..|q| - 1], i) + [q[|q| - 1]]
  {
  }

  lemma KeptSnoc(q: seq<Item>, item: Item, chosen: nat)
    ensures Kept(q + [item], chosen) == Kept(q, chosen) + if item.number > chosen then [item] else []
  {
    assert (q + [item])[..|q|] == q;
  }

  ghost function Step(q: seq<Item>, w: Item): seq<Item>
  {
    if w.number <= TRIES_IN_MEMORY then q + [w] else Kept(q + [w], w.number - TRIES_IN_MEMORY)
  }

  /** The queue after a whole run of writes. */
  ghost function QueueAfter(ws: seq<Item>): seq<Item>
  {
    if ws == [] then [] else Step(QueueAfter(ws[..|ws| - 1]), ws[|ws| - 1])
  }

  /** A write at position `j` matures the item written at `i`: it lies past the window and is at least the window
      ahead. */
  ghost predicate Matures(ws: seq<Item>, i: nat, j: nat)
    requires i <= j < |ws|
  {
    ws[j].number > TRIES_IN_MEMORY && ws[i].number + TRIES_IN_MEMORY <= ws[j].number
  }

  ghost predicate Alive(ws: seq<Item>, i: nat)
    requires i < |ws|
  {
    forall j :: i <= j < |ws| ==> !Matures(ws, i, j)
  }

  /** The first `n` writes that no write so far has matured, in order. */
  ghost function Survivors(ws: seq<Item>, n: nat): seq<Item>
    requires n <= |ws|
  {
    if n == 0 then [] else Survivors(ws, n - 1) + if Alive(ws, n - 1) then [ws[n - 1]] else []
  }

  /** Over any run of writes, whatever order the block numbers come in, a root is still queued exactly when no write
      since its own was numbered a whole retention window above it. */
  lemma {:induction false} QueueIsSurvivors(ws: seq<Item>)
    ensures QueueAfter(ws) == Survivors(ws, |ws|)
  {
    if ws != [] {
      var init, w := ws[..|ws| - 1], ws[|ws| - 1];
      QueueIsSurvivors(init);
      if w.number <= TRIES_IN_MEMORY {
        QuietWrite(ws, |init|);
      } else {
        Sweep(ws, |init|);
        assert (Survivors(init, |init|) + [w])[..|Survivors(init, |init|)|] == Survivors(init, |init|);
      }
    }
  }

  lemma {:induction false} QuietWrite(ws: seq<Item>, n: nat)
    requires ws != [] && n < |ws| && ws[|ws| - 1].number <= TRIES_IN_MEMORY
    ensures Survivors(ws, n) == Survivors(ws[..|ws| - 1], n)
  {
    if n > 0 {
      QuietWrite(ws, n - 1);
      AliveSplit(ws, n - 1);
    }
  }

  lemma {:induction false} Sweep(ws: seq<Item>, n: nat)
    requires ws != [] && n < |ws| && ws[|ws| - 1].number > TRIES_IN_MEMORY
    ensures Survivors(ws, n) == Kept(Survivors(ws[..|ws| - 1], n), ws[|ws| - 1].number - TRIES_IN_MEMORY)
  {
    if n > 0 {
      Sweep(ws, n - 1);
      AliveSplit(ws, n - 1);
      var s := Survivors(ws[..|ws| - 1], n - 1);
      if Alive(ws[..|ws| - 1], n - 1) {
        assert (s + [ws[n - 1]])[..|s|] == s;
      } else {
        assert s + [] == s;
      }
    }
  }

  lemma AliveSplit(ws: seq<Item>, i: nat)
    requires i < |ws| - 1
    ensures Alive(ws, i) <==> Alive(ws[..|ws| - 1], i) && !Matures(ws, i, |ws| - 1)
  {
    var init := ws[..|ws| - 1];
    if Alive(init, i) && !Matures(ws, i, |ws| - 1) {
      forall j | i <= j < |ws| ensures !Matures(ws, i, j) {
        assert j < |ws| - 1 ==> Matures(init, i, j) == Matures(ws, i, j);
      }
    }
    if Alive(ws, i) {
      forall j | i <= j < |init| ensures !Matures(init, i, j) {
        assert Matures(init, i, j) == Matures(ws, i, j);
      }
    }
  }

  /** The retention window is 128 blocks. */
  lemma AliveInNumbers(ws: seq<Item>, i: nat)
    requires i < |ws|
    ensures Alive(ws, i) <==>
      forall j :: i <= j < |ws| && ws[j].number > 128 ==> ws[j].number < ws[i].number + 128
  {
    assert forall j :: i <= j < |ws| ==>
      (Matures(ws, i, j) <==> ws[j].number > 128 && ws[i].number + 128 <= ws[j].number);
  }

  /** A run of block writes on a fresh collector. */
  method WriteRun(ws: seq<Item>) returns (gc: Collector)
    ensures fresh(gc) && gc.Valid() && gc.queue == Survivors(ws, |ws|)
  {
    gc := new Collector();
    var i := 0;
    while i < |ws|
      invariant 0 <= i <= |ws| && fresh(gc)
      invariant gc.Valid() && gc.queue == QueueAfter(ws[..i])
    {
      assert ws[..i + 1][..i] == ws[..i];
      gc.Write(ws[i].root, ws[i].number);
      assert ws[i] == Item(ws[i].root, ws[i].number);
      i := i + 1;
    }
    assert ws[..i] == ws;
    QueueIsSurvivors(ws);
  }
}
