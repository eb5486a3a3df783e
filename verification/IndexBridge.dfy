/**
 The two views of the transaction lookups: the block writer's, over parent links, and the indexer's, over the list of
 canonical bodies.  A reorganisation as the block chain performs it is the change of chain the indexer follows.
 */
module IndexBridge {
  import opened Common
  import opened Chain
  import B = BlockChains
  import I = TxIndexers

  /** The bodies of a block's chain by number. */
  ghost function Bodies(s: Store, h: Hash): seq<I.Body>
    requires Closed(s) && h in s
  {
    seq(s[h].number + 1, n requires 0 <= n <= s[h].number => s[Anc(s, h, n)].txs)
  }

  lemma BodiesUnique(s: Store, h: Hash)
    requires Closed(s) && UniqueTxs(s) && h in s
    ensures I.Unique(Bodies(s, h))
  {
    var bodies := Bodies(s, h);
    forall i, j, tx | 0 <= i < |bodies| && 0 <= j < |bodies| && tx in bodies[i] && tx in bodies[j] ensures i == j {
      LookupExact(s, h, tx, i);
      LookupExact(s, h, tx, j);
    }
  }

  /** A transaction's home is what the whole chain's table says. */
  lemma HomeIsLookup(s: Store, h: Hash, tx: TxHash)
    requires Closed(s) && UniqueTxs(s) && h in s
    ensures I.Home(Bodies(s, h), tx) == if tx in LookupOf(s, h) then LookupOf(s, h)[tx] else -1
  {
    BodiesUnique(s, h);
    var n := I.Home(Bodies(s, h), tx);
    if n >= 0 {
      LookupExact(s, h, tx, n);
    } else if tx in LookupOf(s, h) {
      LookupExact(s, h, tx, LookupOf(s, h)[tx]);
      I.HomeIs(Bodies(s, h), tx, LookupOf(s, h)[tx]);
    }
  }

  lemma {:induction false} AboveNumbers(s: Store, h: Hash, lo: nat, tx: TxHash)
    requires Closed(s) && h in s && lo <= s[h].number && tx in LookupAbove(s, h, lo)
    ensures lo < LookupAbove(s, h, lo)[tx] <= s[h].number
    decreases s[h].number
  {
    if tx !in Entries(s[h]) {
      AboveNumbers(s, Up(s, h), lo, tx);
    }
  }

  /** The table above a number holds exactly the transactions whose home lies above it. */
  lemma AboveIsHome(s: Store, h: Hash, lo: nat, tx: TxHash)
    requires Closed(s) && UniqueTxs(s) && h in s && lo <= s[h].number
    ensures tx in LookupAbove(s, h, lo) <==> lo < I.Home(Bodies(s, h), tx)
    ensures tx in LookupAbove(s, h, lo) ==> LookupAbove(s, h, lo)[tx] == I.Home(Bodies(s, h), tx)
  {
    HomeIsLookup(s, h, tx);
    LookupSplit(s, h, lo);
    if tx in LookupAbove(s, h, lo) {
      AboveNumbers(s, h, lo, tx);
    } else if tx in LookupOf(s, h) {
      LookupKeysBelow(s, Anc(s, h, lo), tx);
    }
  }

  /** Chains that meet share their bodies up to there. */
  lemma SharedBodies(s: Store, h: Hash, k: Hash, lo: nat)
    requires Closed(s) && B.Meets(s, h, k, lo)
    ensures Bodies(s, h)[..lo + 1] == Bodies(s, k)[..lo + 1]
  {
    forall n | 0 <= n <= lo ensures Anc(s, h, n) == Anc(s, k, n) {
      MeetBelow(s, h, k, n, lo);
    }
  }

  /** A reorganisation to a new block `next` on top of `top`, followed by the write of `next` as the head, changes any
      table as the indexer's view says, from the number above the fork on. */
  lemma SwitchIsReplaced(s: Store, table: map<TxHash, nat>, head: Hash, next: Hash, lo: nat)
    requires Closed(s) && UniqueTxs(s) && next in s && s[next].number > 0 && B.Meets(s, head, Up(s, next), lo)
    ensures I.Unique(Bodies(s, head)) && I.Unique(Bodies(s, next))
    ensures Bodies(s, head)[..lo + 1] == Bodies(s, next)[..lo + 1]
    ensures I.Replaced(B.Switched(s, table, head, Up(s, next), lo) + Entries(s[next]), table,
                       Bodies(s, head), Bodies(s, next), lo + 1)
  {
    BodiesUnique(s, head);
    BodiesUnique(s, next);
    assert Anc(s, next, lo) == Anc(s, Up(s, next), lo);
    SharedBodies(s, head, next, lo);
    var t := B.Switched(s, table, head, Up(s, next), lo) + Entries(s[next]);
    assert LookupAbove(s, next, lo) == LookupAbove(s, Up(s, next), lo) + Entries(s[next]);
    forall tx
      ensures I.Find(t, tx) == if lo + 1 <= I.Home(Bodies(s, next), tx) then Some(I.Home(Bodies(s, next), tx))
                               else if lo + 1 <= I.Home(Bodies(s, head), tx) then None else I.Find(table, tx)
    {
      AboveIsHome(s, next, lo, tx);
      AboveIsHome(s, head, lo, tx);
    }
  }

  /** The same for a switch to an ancestor `next` of the head, which is then written as the head: from its number on. */
  lemma RewindIsReplaced(s: Store, table: map<TxHash, nat>, head: Hash, next: Hash)
    requires Closed(s) && UniqueTxs(s) && head in s && IsAncestor(s, next, head)
    ensures I.Unique(Bodies(s, head)) && I.Unique(Bodies(s, next)) && B.Meets(s, head, next, s[next].number)
    ensures Bodies(s, head)[..s[next].number] == Bodies(s, next)[..s[next].number]
    ensures I.Replaced(B.Switched(s, table, head, next, s[next].number) + Entries(s[next]), table,
                       Bodies(s, head), Bodies(s, next), s[next].number)
  {
    var lo := s[next].number;
    BodiesUnique(s, head);
    BodiesUnique(s, next);
    SharedBodies(s, head, next, lo);
    assert Bodies(s, head)[..lo] == Bodies(s, head)[..lo + 1][..lo];
    assert Bodies(s, next)[..lo] == Bodies(s, next)[..lo + 1][..lo];
    var t := B.Switched(s, table, head, next, lo) + Entries(s[next]);
    assert Bodies(s, next)[lo] == s[next].txs && Bodies(s, head)[lo] == s[next].txs;
    forall tx
      ensures I.Find(t, tx) == if lo <= I.Home(Bodies(s, next), tx) then Some(I.Home(Bodies(s, next), tx))
                               else if lo <= I.Home(Bodies(s, head), tx) then None else I.Find(table, tx)
    {
      AboveIsHome(s, head, lo, tx);
      I.HomeIs(Bodies(s, next), tx, lo);
      I.HomeIs(Bodies(s, head), tx, lo);
    }
  }
}
