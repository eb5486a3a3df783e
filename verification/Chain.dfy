/**
 The block store and the views derived from it.

 A database is a handful of finite maps.  `Store` maps a hash to the block kept under it;
 the canonical index maps a number to a hash.  Everything the node keeps redundantly about
 its head is defined here once, from the parent links alone: the ancestor path (`Path`),
 the total difficulty (`TdLaw`) and the transaction lookup table (`LookupOf`).
 */
module Chain {
  import opened Common

  type Hash = int
  type TxHash = int

  /** The empty hash: what a read of a missing canonical entry returns. */
  const ZERO: Hash := 0

  /** The hash of the genesis block, fixed for a network. */
  const GENESIS: Hash := 1

  /** A block.  `hash` stands for the hash of the whole record, so equal hashes mean equal blocks. */
  datatype Header = Header(hash: Hash, number: nat, parent: Hash, difficulty: nat,
                           time: nat, coinbase: nat, root: Hash, txs: seq<TxHash>)

  type Store = map<Hash, Header>

  /** Header reads are keyed by number and hash.  The number below zero stands for the wrapped 64-bit
      `0 - 1`, a number no block carries. */
  function GetHeader(s: Store, hash: Hash, number: int): Option<Header>
  {
    if hash in s && s[hash].number == number then Some(s[hash]) else None
  }

  function GetParent(s: Store, b: Header): Option<Header>
  {
    GetHeader(s, b.parent, b.number - 1)
  }

  function ReadCanonical(canon: map<nat, Hash>, n: nat): Hash
  {
    if n in canon then canon[n] else ZERO
  }

  /** Every block sits under its own hash. */
  ghost predicate Keyed(s: Store)
  {
    forall h :: h in s ==> s[h].hash == h && h != ZERO
  }

  /** The parent link of a stored block. */
  ghost function Up(s: Store, h: Hash): Hash
    requires h in s
  {
    s[h].parent
  }

  /** Only the genesis carries number zero, and it has no parent, and every other block's parent is stored one number
      below. */
  ghost predicate Closed(s: Store)
  {
    && Keyed(s)
    && (forall h :: h in s && s[h].number == 0 ==> h == GENESIS && s[h].parent == ZERO)
    && (forall h {:trigger Up(s, h)} :: h in s && s[h].number > 0 ==>
      Up(s, h) in s && s[Up(s, h)].number == s[h].number - 1)
  }

  predicate Has(s: Store, b: Header)
  {
    b.hash in s && s[b.hash] == b
  }

  /** `t` holds all of `s` unchanged. */
  ghost predicate Extends(s: Store, t: Store)
  {
    forall h :: h in s ==> h in t && t[h] == s[h]
  }

  // ---------------------------------------------------------------- ancestors

  /** The ancestor-or-self of `h` that carries number `n`. */
  ghost function Anc(s: Store, h: Hash, n: nat): (a: Hash)
    requires Closed(s) && h in s && n <= s[h].number
    ensures a in s && s[a].number == n
    decreases s[h].number
  {
    if s[h].number == n then h else Anc(s, Up(s, h), n)
  }

  /** The canonical index a chain ending in `h` must have, with nothing above it. */
  ghost function Path(s: Store, h: Hash): map<nat, Hash>
    requires Closed(s) && h in s
  {
    map n | 0 <= n <= s[h].number :: Anc(s, h, n)
  }

  ghost predicate IsAncestor(s: Store, a: Hash, h: Hash)
    requires Closed(s) && h in s
  {
    a in s && s[a].number <= s[h].number && Anc(s, h, s[a].number) == a
  }

  lemma {:induction false} AncOfAnc(s: Store, h: Hash, m: nat, n: nat)
    requires Closed(s) && h in s && m <= n <= s[h].number
    ensures Anc(s, Anc(s, h, n), m) == Anc(s, h, m)
    decreases s[h].number
  {
    if s[h].number != n {
      AncOfAnc(s, Up(s, h), m, n);
    }
  }

  /** Walking one parent link down from an ancestor gives the next ancestor. */
  lemma AncStep(s: Store, h: Hash, n: nat)
    requires Closed(s) && h in s && 0 < n <= s[h].number
    ensures Anc(s, h, n - 1) == Up(s, Anc(s, h, n))
  {
    AncOfAnc(s, h, n - 1, n);
  }

  lemma {:induction false} AncExtends(s: Store, t: Store, h: Hash, n: nat)
    requires Closed(s) && Closed(t) && Extends(s, t) && h in s && n <= s[h].number
    ensures Anc(t, h, n) == Anc(s, h, n)
    decreases s[h].number
  {
    if s[h].number != n {
      AncExtends(s, t, Up(s, h), n);
    }
  }

  lemma PathExtends(s: Store, t: Store, h: Hash)
    requires Closed(s) && Closed(t) && Extends(s, t) && h in s
    ensures Path(t, h) == Path(s, h)
  {
    forall n | 0 <= n <= s[h].number ensures Anc(t, h, n) == Anc(s, h, n) {
      AncExtends(s, t, h, n);
    }
  }

  /** Two chains that meet at number `n` agree on everything below. */
  lemma MeetBelow(s: Store, h: Hash, k: Hash, m: nat, n: nat)
    requires Closed(s) && h in s && k in s && m <= n <= s[h].number && n <= s[k].number
    requires Anc(s, h, n) == Anc(s, k, n)
    ensures Anc(s, h, m) == Anc(s, k, m)
  {
    AncOfAnc(s, h, m, n);
    AncOfAnc(s, k, m, n);
  }

  // ---------------------------------------------------------------- total difficulty

  /** Each stored block's total difficulty is its parent's plus its own. */
  ghost predicate TdLaw(s: Store, td: map<Hash, nat>)
    requires Closed(s)
  {
    && td.Keys == s.Keys
    && (forall h :: h in s && s[h].number == 0 ==> td[h] == s[h].difficulty)
    && (forall h {:trigger Up(s, h)} :: h in s && s[h].number > 0 ==> td[h] == td[Up(s, h)] + s[h].difficulty)
  }

  /** Difficulties summed along the ancestor path. */
  ghost function SumDifficulty(s: Store, h: Hash): nat
    requires Closed(s) && h in s
    decreases s[h].number
  {
    s[h].difficulty + if s[h].number == 0 then 0 else SumDifficulty(s, Up(s, h))
  }

  /** The local law fixes the whole table: an entry is the sum of the difficulties of its ancestor path. */
  lemma {:induction false} TdIsPathSum(s: Store, td: map<Hash, nat>, h: Hash)
    requires Closed(s) && TdLaw(s, td) && h in s
    ensures td[h] == SumDifficulty(s, h)
    decreases s[h].number
  {
    if s[h].number > 0 {
      TdIsPathSum(s, td, Up(s, h));
    }
  }

  lemma AddNewBlock(s: Store, b: Header)
    requires Closed(s) && CanAttach(s, b) && b.hash !in s
    ensures Closed(s[b.hash := b]) && Extends(s, s[b.hash := b])
  {
    var t := s[b.hash := b];
    assert forall h {:trigger Up(t, h)} :: h in s ==> Up(t, h) == Up(s, h);
  }

  lemma AddNewBlockTd(s: Store, td: map<Hash, nat>, b: Header)
    requires Closed(s) && TdLaw(s, td) && CanAttach(s, b) && Closed(s[b.hash := b]) && b.hash !in s
    ensures TdLaw(s[b.hash := b], td[b.hash := td[b.parent] + b.difficulty])
  {
    var t := s[b.hash := b];
    assert forall h {:trigger Up(t, h)} :: h in s ==> Up(t, h) == Up(s, h);
  }

  /** Adding a block on a stored parent keeps the store closed, and keeps the difficulty law when the
      block enters with its parent's total plus its own difficulty. */
  lemma AddBlock(s: Store, td: map<Hash, nat>, b: Header)
    requires Closed(s) && TdLaw(s, td) && CanAttach(s, b)
    ensures Closed(s[b.hash := b]) && Extends(s, s[b.hash := b])
    ensures TdLaw(s[b.hash := b], td[b.hash := td[b.parent] + b.difficulty])
  {
    if b.hash in s {
      AddKnownBlock(s, td, b);
    } else {
      AddNewBlock(s, b);
      AddNewBlockTd(s, td, b);
    }
  }

  lemma AddKnownBlock(s: Store, td: map<Hash, nat>, b: Header)
    requires Closed(s) && TdLaw(s, td) && CanAttach(s, b) && b.hash in s
    ensures s[b.hash := b] == s && td[b.hash := td[b.parent] + b.difficulty] == td
  {
    assert Up(s, b.hash) == b.parent;
  }

  /** `b` names a stored parent one number below it, and its hash does not collide with another block. */
  ghost predicate CanAttach(s: Store, b: Header)
  {
    && b.hash != ZERO
    && (b.hash in s ==> s[b.hash] == b)
    && b.parent in s && b.number == s[b.parent].number + 1
  }

  // ---------------------------------------------------------------- lists of arriving blocks

  /** Every block attaches to the store as the blocks before it have left it. */
  ghost predicate ParentFirst(s: Store, bs: seq<Header>)
    decreases |bs|
  {
    bs == [] || (CanAttach(s, bs[0]) && ParentFirst(s[bs[0].hash := bs[0]], bs[1..]))
  }

  /** The store after writing the listed blocks in order. */
  ghost function Stored(s: Store, bs: seq<Header>): Store
    decreases |bs|
  {
    if bs == [] then s else Stored(s[bs[0].hash := bs[0]], bs[1..])
  }

  /** A parent-first list overwrites nothing: the final store is the old one plus the listed blocks. */
  lemma {:induction false} StoredIsUnion(s: Store, bs: seq<Header>)
    requires ParentFirst(s, bs)
    ensures Extends(s, Stored(s, bs))
    ensures forall b :: b in bs ==> Has(Stored(s, bs), b)
    ensures forall h :: h in Stored(s, bs) ==> h in s || exists b :: b in bs && b.hash == h
    decreases |bs|
  {
    if bs != [] {
      StoredIsUnion(s[bs[0].hash := bs[0]], bs[1..]);
      assert bs == [bs[0]] + bs[1..];
    }
  }

  lemma {:induction false} StoredSnoc(s: Store, bs: seq<Header>, i: nat)
    requires i < |bs|
    ensures Stored(s, bs[..i + 1]) == Stored(s, bs[..i])[bs[i].hash := bs[i]]
    decreases i
  {
    if i > 0 {
      var rest := bs[1..];
      StoredSnoc(s[bs[0].hash := bs[0]], rest, i - 1);
      assert bs[..i + 1][1..] == rest[..i] && bs[..i][1..] == rest[..i - 1];
    }
  }

  lemma {:induction false} AttachAt(s: Store, bs: seq<Header>, i: nat)
    requires ParentFirst(s, bs) && i < |bs|
    ensures CanAttach(Stored(s, bs[..i]), bs[i])
    decreases i
  {
    if i > 0 {
      AttachAt(s[bs[0].hash := bs[0]], bs[1..], i - 1);
      assert bs[..i][1..] == bs[1..][..i - 1];
    }
  }

  // ---------------------------------------------------------------- transaction lookups

  /** The lookups of the transactions of a block numbered `number`. */
  ghost function EntriesOf(number: nat, txs: seq<TxHash>): map<TxHash, nat>
  {
    map tx | tx in txs :: number
  }

  ghost function Entries(b: Header): map<TxHash, nat>
  {
    EntriesOf(b.number, b.txs)
  }

  method WriteTxLookups(table: map<TxHash, nat>, number: nat, txs: seq<TxHash>) returns (r: map<TxHash, nat>)
    ensures r == table + EntriesOf(number, txs)
  {
    r := table;
    var i := 0;
    while i < |txs|
      invariant 0 <= i <= |txs| && r == table + EntriesOf(number, txs[..i])
    {
      EntriesSnoc(table, number, txs, i);
      r := r[txs[i] := number];
      i := i + 1;
    }
    assert txs[..i] == txs;
  }

  lemma EntriesSnoc(table: map<TxHash, nat>, number: nat, txs: seq<TxHash>, i: nat)
    requires i < |txs|
    ensures (table + EntriesOf(number, txs[..i]))[txs[i] := number] == table + EntriesOf(number, txs[..i + 1])
  {
    assert txs[..i + 1] == txs[..i] + [txs[i]];
    assert EntriesOf(number, txs[..i + 1]) == EntriesOf(number, txs[..i])[txs[i] := number];
  }

  /** Lookups of the blocks of `h`'s chain numbered above `lo`. */
  ghost function LookupAbove(s: Store, h: Hash, lo: nat): map<TxHash, nat>
    requires Closed(s) && h in s && lo <= s[h].number
    decreases s[h].number
  {
    if s[h].number == lo then map[] else LookupAbove(s, Up(s, h), lo) + Entries(s[h])
  }

  /** The lookup table of the whole chain ending in `h`. */
  ghost function LookupOf(s: Store, h: Hash): map<TxHash, nat>
    requires Closed(s) && h in s
    decreases s[h].number
  {
    if s[h].number == 0 then Entries(s[h]) else LookupOf(s, Up(s, h)) + Entries(s[h])
  }

  /** No transaction occurs in two blocks of one chain. */
  ghost predicate UniqueTxs(s: Store)
    requires Closed(s)
  {
    forall h {:trigger Entries(s[h])} :: h in s && s[h].number > 0 ==> LookupOf(s, Up(s, h)).Keys !! Entries(s[h]).Keys
  }

  lemma {:induction false} LookupExtends(s: Store, t: Store, h: Hash)
    requires Closed(s) && Closed(t) && Extends(s, t) && h in s
    ensures LookupOf(t, h) == LookupOf(s, h)
    decreases s[h].number
  {
    if s[h].number > 0 {
      LookupExtends(s, t, Up(s, h));
    }
  }

  /** A chain's table splits at any of its ancestors, and the two parts share no transaction. */
  lemma {:induction false} LookupSplit(s: Store, h: Hash, lo: nat)
    requires Closed(s) && UniqueTxs(s) && h in s && lo <= s[h].number
    ensures LookupOf(s, h) == LookupOf(s, Anc(s, h, lo)) + LookupAbove(s, h, lo)
    ensures LookupOf(s, Anc(s, h, lo)).Keys !! LookupAbove(s, h, lo).Keys
    decreases s[h].number
  {
    if s[h].number > lo {
      LookupSplit(s, Up(s, h), lo);
      StackMaps(LookupOf(s, Anc(s, h, lo)), LookupAbove(s, Up(s, h), lo), Entries(s[h]));
    }
  }

  lemma StackMaps(low: map<TxHash, nat>, mid: map<TxHash, nat>, top: map<TxHash, nat>)
    requires low.Keys !! mid.Keys && (low + mid).Keys !! top.Keys
    ensures (low + mid) + top == low + (mid + top)
    ensures low.Keys !! (mid + top).Keys
  {
  }

  /** The table maps a transaction to `n` exactly when the block numbered `n` on the chain contains it. */
  lemma {:induction false} LookupExact(s: Store, h: Hash, tx: TxHash, n: nat)
    requires Closed(s) && UniqueTxs(s) && h in s
    ensures (tx in LookupOf(s, h) && LookupOf(s, h)[tx] == n)
            <==> (n <= s[h].number && tx in s[Anc(s, h, n)].txs)
    decreases s[h].number
  {
    if s[h].number > 0 {
      LookupExact(s, Up(s, h), tx, n);
      if tx in LookupOf(s, Up(s, h)) {
        LookupKeysBelow(s, Up(s, h), tx);
      }
      if n < s[h].number && tx in s[h].txs {
        assert tx in Entries(s[h]).Keys;
        assert tx !in LookupOf(s, Up(s, h)).Keys;
      }
    }
  }

  lemma {:induction false} LookupKeysBelow(s: Store, h: Hash, tx: TxHash)
    requires Closed(s) && h in s && tx in LookupOf(s, h)
    ensures LookupOf(s, h)[tx] <= s[h].number
    decreases s[h].number
  {
    if s[h].number > 0 && tx !in Entries(s[h]) {
      LookupKeysBelow(s, Up(s, h), tx);
    }
  }

  /** `b` repeats no transaction of its own chain. */
  ghost predicate FreshTxs(s: Store, b: Header)
    requires Closed(s) && b.parent in s
  {
    LookupOf(s, b.parent).Keys !! Entries(b).Keys
  }

  lemma AddUnique(s: Store, b: Header)
    requires Closed(s) && UniqueTxs(s) && CanAttach(s, b) && FreshTxs(s, b)
    requires Closed(s[b.hash := b]) && Extends(s, s[b.hash := b])
    ensures UniqueTxs(s[b.hash := b])
  {
    var t := s[b.hash := b];
    forall h {:trigger Entries(t[h])} | h in t && t[h].number > 0
      ensures LookupOf(t, Up(t, h)).Keys !! Entries(t[h]).Keys
    {
      if h == b.hash {
        LookupExtends(s, t, b.parent);
      } else {
        assert Up(t, h) == Up(s, h);
        LookupExtends(s, t, Up(s, h));
        assert LookupOf(s, Up(s, h)).Keys !! Entries(s[h]).Keys;
      }
    }
  }

  /** Making `h` the head on top of its parent's indexes, or of its own, gives its indexes. */
  lemma LandOnHead(s: Store, h: Hash, top: Hash)
    requires Closed(s) && h in s && (top == h || (s[h].number > 0 && top == Up(s, h)))
    ensures Path(s, top)[s[h].number := h] == Path(s, h)
    ensures LookupOf(s, top) + Entries(s[h]) == LookupOf(s, h)
  {
    if top == h && s[h].number > 0 {
      var below := LookupOf(s, Up(s, h));
      assert (below + Entries(s[h])) + Entries(s[h]) == below + Entries(s[h]);
    }
  }
}
