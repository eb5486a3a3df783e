/**
 The block chain on top of the header chain: head blocks, reorganisations and the transaction lookup table.

 Runs are full-sync runs, so the head block and the head header are the same block and bodies are stored with headers.
 Events, logs, receipts, sidecars and caches are not modelled.
 */
module BlockChains {
  import opened Common
  import opened Chain
  import opened ForkChoice
  import opened HeaderChains

  datatype ChainError = Fine | InvalidOldChain | InvalidNewChain | UnknownParent | NoTd | GhostStateAttack

  /** The headers of `h`'s chain from `h` downwards. */
  ghost predicate Trail(s: Store, h: Hash, chain: seq<Header>)
    requires Closed(s) && h in s
  {
    |chain| <= s[h].number && forall i :: 0 <= i < |chain| ==> chain[i] == s[Anc(s, h, s[h].number - i)]
  }

  /** `common` is the last block shared by the two chains, and the lists hold what each has above it. */
  ghost predicate Forked(s: Store, old_: Header, new_: Header, oldChain: seq<Header>, newChain: seq<Header>,
      common: Header)
    requires Closed(s) && Has(s, old_) && Has(s, new_)
  {
    && Has(s, common) && IsAncestor(s, common.hash, old_.hash) && IsAncestor(s, common.hash, new_.hash)
    && Trail(s, old_.hash, oldChain) && |oldChain| == old_.number - common.number
    && Trail(s, new_.hash, newChain) && |newChain| == new_.number - common.number
    && forall n :: common.number < n <= old_.number && n <= new_.number ==> Anc(s, old_.hash, n) != Anc(s, new_.hash, n)
  }

  function HashDifference(a: seq<TxHash>, b: seq<TxHash>): (keep: seq<TxHash>)
    ensures forall tx :: tx in keep <==> tx in a && tx !in b
  {
    if a == [] then []
    else if a[0] in b then HashDifference(a[1..], b)
    else [a[0]] + HashDifference(a[1..], b)
  }

  method DeleteTxLookups(table: map<TxHash, nat>, txs: seq<TxHash>) returns (r: map<TxHash, nat>)
    ensures r == table - set tx | tx in txs
  {
    r := table;
    var i := 0;
    while i < |txs|
      invariant 0 <= i <= |txs|
      invariant r == table - set tx | tx in txs[..i]
    {
      assert txs[..i + 1] == txs[..i] + [txs[i]];
      r := r - {txs[i]};
      i := i + 1;
    }
    assert txs[..i] == txs;
  }

  class BlockChain {
    const hc: HeaderChain
    var lookup: map<TxHash, nat>
    var currentBlock: Header
    var headBlockHash: Hash

    /** Everything but the lookup table is in order. */
    ghost predicate Sound()
      reads this, hc
    {
      && hc.Valid()
      && currentBlock == hc.currentHeader && headBlockHash == currentBlock.hash
      && UniqueTxs(hc.headers)
    }

    /** The whole chain of the head is indexed. */
    ghost predicate Valid()
      reads this, hc
    {
      Sound() && Whole(hc.headers, currentBlock.hash, lookup)
    }

    constructor (genesis: Header)
      requires genesis.hash == GENESIS && genesis.number == 0 && genesis.parent == ZERO
      ensures Valid() && fresh(hc)
      ensures TheView() == View(map[GENESIS := genesis], map[GENESIS := genesis.difficulty], genesis)
    {
      hc := new HeaderChain(genesis);
      lookup := map tx | tx in genesis.txs :: 0;
      currentBlock, headBlockHash := genesis, GENESIS;
    }

    ghost function TheView(): View
      reads this, hc
    {
      View(hc.headers, hc.td, currentBlock)
    }

    /** Marks a block as the head and indexes it and its transactions. */
    method WriteHeadBlock(block: Header)
      modifies this, hc
      ensures hc.canon == old(hc.canon)[block.number := block.hash]
      ensures lookup == old(lookup) + Entries(block)
      ensures currentBlock == hc.currentHeader == block
      ensures headBlockHash == hc.currentHeaderHash == hc.headHeaderHash == block.hash
      ensures hc.headers == old(hc.headers) && hc.td == old(hc.td)
    {
      hc.canon := hc.canon[block.number := block.hash];
      hc.headHeaderHash := block.hash;
      headBlockHash := block.hash;
      lookup := WriteTxLookups(lookup, block.number, block.txs);
      hc.currentHeader := block;
      hc.currentHeaderHash := block.hash;
      currentBlock := block;
    }

    // -------------------------------------------------------------- reorg

    /** Walks parent links from `from` down to number `target`. */
    method Descend(from: Header, target: nat) returns (stop: Option<Header>, chain: seq<Header>)
      requires Keyed(hc.headers) && Has(hc.headers, from) && target <= from.number
      ensures stop.None? ==> !Closed(hc.headers)
      ensures stop.Some? ==>
        Has(hc.headers, stop.value) && stop.value.number == target && |chain| == from.number - target
      ensures stop.Some? && Closed(hc.headers) ==>
        stop.value.hash == Anc(hc.headers, from.hash, target) && Trail(hc.headers, from.hash, chain)
    {
      stop, chain := Some(from), [];
      while stop.Some? && stop.value.number != target
        invariant stop.None? ==> !Closed(hc.headers)
        invariant stop.Some? ==>
          && Has(hc.headers, stop.value) && target <= stop.value.number
          && |chain| == from.number - stop.value.number
        invariant stop.Some? && Closed(hc.headers) ==>
          stop.value.hash == Anc(hc.headers, from.hash, stop.value.number) && Trail(hc.headers, from.hash, chain)
        decreases if stop.Some? then stop.value.number + 1 else 0
      {
        if Closed(hc.headers) {
          AncStep(hc.headers, from.hash, stop.value.number);
          assert stop.value.parent == Up(hc.headers, stop.value.hash);
        }
        chain := chain + [stop.value];
        stop := GetParent(hc.headers, stop.value);
      }
    }

    /** Finds the last common block of two chains.  A missing ancestor fails, which an ancestor-closed store rules
        out. */
    method FindFork(oldHead: Header, newHead: Header)
      returns (err: ChainError, oldChain: seq<Header>, newChain: seq<Header>, common: Header)
      requires Keyed(hc.headers) && Has(hc.headers, oldHead) && Has(hc.headers, newHead)
      ensures err != Fine ==> !Closed(hc.headers)
      ensures err == Fine && Closed(hc.headers) ==> Forked(hc.headers, oldHead, newHead, oldChain, newChain, common)
    {
      var o, n := Some(oldHead), Some(newHead);
      oldChain, newChain, common := [], [], oldHead;
      if oldHead.number > newHead.number {
        o, oldChain := Descend(oldHead, newHead.number);
      } else {
        n, newChain := Descend(newHead, oldHead.number);
      }
      if o.None? {
        return InvalidOldChain, oldChain, newChain, common;
      }
      if n.None? {
        return InvalidNewChain, oldChain, newChain, common;
      }
      var a, b := o.value, n.value;
      while a.hash != b.hash
        invariant Has(hc.headers, a) && Has(hc.headers, b) && a.number == b.number
        invariant Closed(hc.headers) ==> Narrowing(hc.headers, oldHead, newHead, oldChain, newChain, a, b)
        decreases a.number
      {
        if Closed(hc.headers) {
          NarrowStep(hc.headers, oldHead, newHead, oldChain, newChain, a, b);
        }
        oldChain, newChain := oldChain + [a], newChain + [b];
        o := GetParent(hc.headers, a);
        if o.None? {
          return InvalidOldChain, oldChain, newChain, common;
        }
        n := GetParent(hc.headers, b);
        if n.None? {
          return InvalidNewChain, oldChain, newChain, common;
        }
        a, b := o.value, n.value;
      }
      return Fine, oldChain, newChain, a;
    }

    /** The transactions of the blocks that leave the chain. */
    method CollectTxs(oldChain: seq<Header>, ghost head: Hash, ghost lo: nat) returns (txs: seq<TxHash>)
      requires Closed(hc.headers) && head in hc.headers && Trail(hc.headers, head, oldChain)
      requires lo <= hc.headers[head].number && |oldChain| == hc.headers[head].number - lo
      ensures (set tx | tx in txs) == LookupAbove(hc.headers, head, lo).Keys
    {
      txs := [];
      var i := 0;
      ghost var at := head;
      while i < |oldChain|
        invariant 0 <= i <= |oldChain|
        invariant at == Anc(hc.headers, head, hc.headers[head].number - i)
        invariant LookupAbove(hc.headers, head, lo).Keys == (set tx | tx in txs) + LookupAbove(hc.headers, at, lo).Keys
      {
        assert LookupAbove(hc.headers, at, lo).Keys
            == LookupAbove(hc.headers, Up(hc.headers, at), lo).Keys + (set tx | tx in oldChain[i].txs);
        AncStep(hc.headers, head, hc.headers[head].number - i);
        txs := txs + oldChain[i].txs;
        at := Up(hc.headers, at);
        i := i + 1;
      }
    }

    /** Writes the blocks that join the chain as heads, oldest first, leaving out the newest. */
    method ApplyNew(newChain: seq<Header>, ghost head: Hash, ghost lo: nat) returns (txs: seq<TxHash>)
      requires Closed(hc.headers) && head in hc.headers && Trail(hc.headers, head, newChain)
      requires lo <= hc.headers[head].number && |newChain| == hc.headers[head].number - lo
      modifies this, hc
      ensures hc.headers == old(hc.headers) && hc.td == old(hc.td)
      ensures var top := Penultimate(hc.headers, head, lo);
        && (set tx | tx in txs) == LookupAbove(hc.headers, top, lo).Keys
        && hc.canon == old(hc.canon) + Segment(hc.headers, top, lo)
        && lookup == old(lookup) + LookupAbove(hc.headers, top, lo)
    {
      txs := [];
      var i := |newChain| - 1;
      ghost var s, canon0, lookup0 := hc.headers, hc.canon, lookup;
      ghost var at := Anc(s, head, lo);
      while i >= 1
        invariant -1 <= i < |newChain| && (newChain != [] ==> i >= 0)
        invariant hc.headers == s && hc.td == old(hc.td)
        invariant at == Anc(s, head, s[head].number - i - 1)
        invariant Merged(s, at, lo, canon0, lookup0, hc.canon, lookup, txs)
      {
        var block := newChain[i];
        AncStep(s, head, block.number);
        MergeStep(s, block.hash, lo, canon0, lookup0, hc.canon, lookup, txs);
        txs := txs + block.txs;
        WriteHeadBlock(block);
        at := block.hash;
        i := i - 1;
      }
      if newChain != [] {
        AncStep(s, head, s[head].number);
      }
    }

    /** Switches the indexes from the chain of `oldHead` to that of `newHead`, leaving `newHead` itself to the caller.
        Whatever the lookup table held, the blocks above the fork `lo` leave it and join it. */
    method Reorg(oldHead: Header, newHead: Header) returns (err: ChainError, ghost lo: nat)
      requires Sound() && oldHead == currentBlock && Has(hc.headers, newHead)
      modifies this, hc
      ensures err == Fine && hc.headers == old(hc.headers) && hc.td == old(hc.td)
      ensures var top := ReorgTop(hc.headers, oldHead, newHead);
        && Meets(hc.headers, oldHead.hash, top, lo) && hc.canon == Path(hc.headers, top)
        && lookup == Switched(hc.headers, old(lookup), oldHead.hash, top, lo)
    {
      var oldChain, newChain, common;
      err, oldChain, newChain, common := FindFork(oldHead, newHead);
      if err != Fine {
        return;
      }
      lo := common.number;
      ForkTop(hc.headers, oldHead, newHead, oldChain, newChain, common);
      var deletedTxs := CollectTxs(oldChain, oldHead.hash, common.number);
      var rebirthTxs := ApplyNew(newChain, newHead.hash, common.number);
      DropStale(if |newChain| > 1 then newChain[1].number else common.number, deletedTxs, rebirthTxs,
                old(lookup), oldHead, ReorgTop(hc.headers, oldHead, newHead), common.number);
    }

    /** Deletes the lookups of transactions that did not come back and the canonical entries above the new chain. */
    method DropStale(number: nat, deletedTxs: seq<TxHash>, rebirthTxs: seq<TxHash>, ghost table: map<TxHash, nat>,
                     ghost oldHead: Header, ghost top: Hash, ghost lo: nat)
      requires Closed(hc.headers) && Has(hc.headers, oldHead)
      requires Meets(hc.headers, oldHead.hash, top, lo) && number == hc.headers[top].number
      requires hc.canon == Path(hc.headers, oldHead.hash) + Segment(hc.headers, top, lo)
      requires lookup == table + LookupAbove(hc.headers, top, lo)
      requires (set tx | tx in deletedTxs) == LookupAbove(hc.headers, oldHead.hash, lo).Keys
      requires (set tx | tx in rebirthTxs) == LookupAbove(hc.headers, top, lo).Keys
      modifies `lookup, hc`canon
      ensures hc.canon == Path(hc.headers, top) && lookup == Switched(hc.headers, table, oldHead.hash, top, lo)
    {
      var stale := HashDifference(deletedTxs, rebirthTxs);
      assert (set tx | tx in stale) == (set tx | tx in deletedTxs) - (set tx | tx in rebirthTxs);
      lookup := DeleteTxLookups(lookup, stale);
      var batch, to := hc.DeleteAbove(number + 1);
      SwitchIndex(hc.headers, oldHead.hash, top, lo, batch, to);
      hc.canon := Flush(hc.canon, batch);
    }

    // -------------------------------------------------------------- block writes

    /** Makes a stored block the head, reorganising when it does not extend the current one. */
    method SwitchHead(block: Header) returns (err: ChainError)
      requires Valid() && Has(hc.headers, block)
      modifies this, hc
      ensures err == Fine && Valid() && TheView() == old(TheView()).(head := block)
    {
      ghost var top := currentBlock.hash;
      if block.parent != currentBlock.hash {
        top := ReorgTop(hc.headers, currentBlock, block);
        ghost var lo, head := 0, currentBlock.hash;
        err, lo := Reorg(currentBlock, block);
        if err != Fine {
          return;
        }
        SwitchLookup(hc.headers, head, top, lo);
      }
      assert block.parent == Up(hc.headers, block.hash);
      LandOnHead(hc.headers, block.hash, top);
      WriteHeadBlock(block);
      err := Fine;
    }

    /** Re-marks a block that is stored already, without asking the fork choice. */
    method WriteKnownBlock(block: Header) returns (err: ChainError)
      requires Valid() && Has(hc.headers, block)
      modifies this, hc
      ensures err == Fine && Valid() && TheView() == old(TheView()).(head := block)
    {
      err := SwitchHead(block);
    }

    /** Stores a block with its total difficulty. */
    method WriteBlockWithState(block: Header) returns (err: ChainError)
      requires Valid()
      requires block.parent in hc.headers ==> CanAttach(hc.headers, block) && FreshTxs(hc.headers, block)
      modifies hc`headers, hc`td
      ensures Valid()
      ensures err == if block.parent in old(hc.headers) then Fine else UnknownParent
      ensures TheView() == if err == Fine then Written(old(TheView()), block, false) else old(TheView())
    {
      if block.parent !in hc.td {
        return UnknownParent;
      }
      StoreBlock(block, hc.td[block.parent] + block.difficulty);
      return Fine;
    }

    /** Writes a block and its total difficulty to the database. */
    method StoreBlock(block: Header, total: nat)
      requires Valid() && CanAttach(hc.headers, block) && FreshTxs(hc.headers, block)
      requires total == hc.td[block.parent] + block.difficulty
      modifies hc`headers, hc`td
      ensures Valid() && TheView() == Written(old(TheView()), block, false)
    {
      assert Whole(hc.headers[block.hash := block], currentBlock.hash, lookup) by {
        StoreKeepsLookups(hc.headers, block, currentBlock.hash, lookup);
      }
      ghost var v := TheView();
      hc.PutBlock(block, total);
      WrittenIs(v, block, hc.headers, hc.td, total);
    }

    /** Stores a block and makes it the head if the fork choice, asked before the write, prefers it. */
    method WriteBlockAndSetHead(c: Config, block: Header, coin: bool) returns (status: WriteStatus, err: ChainError)
      requires Valid()
      requires block.parent in hc.headers ==> CanAttach(hc.headers, block) && FreshTxs(hc.headers, block)
      modifies this, hc
      ensures Valid()
      ensures TheView() == Arrive(c, old(TheView()), block, coin)
      ensures block.parent in old(hc.headers) ==>
        && err == Fine
        && status == if ReorgNeededWithFastFinality(c, old(hc.td), old(currentBlock), block, coin) == Decide(true)
                     then CanonStat else SideStat
      ensures block.parent !in old(hc.headers) ==>
          err == UnknownParent && status == NonStat && TheView() == old(TheView())
    {
      var d := ReorgNeededWithFastFinality(c, hc.td, currentBlock, block, coin);
      if d.MissingTd? {
        return NonStat, NoTd;
      }
      if d.UnknownAncestor? {
        return NonStat, UnknownParent;
      }
      ArriveWrites(c, TheView(), block, coin);
      err := WriteBlockWithState(block);
      if err != Fine {
        return NonStat, err;
      }
      ghost var v := TheView();
      assert Has(v.store, block);
      if d.reorg {
        err := SwitchHead(block);
        assert TheView() == v.(head := block);
        return CanonStat, err;
      }
      return SideStat, Fine;
    }

    /** Imports a list of blocks one by one, until it is told to stop or a block's parent is missing. */
    method InsertBlocks(c: Config, imports: seq<Import>, stops: nat -> bool, ghost u: Store) returns (done: nat)
      requires Valid() && Universe(hc.headers, u) && forall i :: 0 <= i < |imports| ==> Has(u, imports[i].block)
      modifies this, hc
      ensures Valid() && Universe(hc.headers, u)
      ensures done <= |imports| && TheView() == Imported(c, old(TheView()), imports[..done])
      ensures done == |imports| || stops(done) || imports[done].block.parent !in hc.headers
      ensures Handled(imports, stops, done, hc.headers)
    {
      done := 0;
      ghost var v := TheView();
      while done < |imports|
        invariant 0 <= done <= |imports| && Valid() && Universe(hc.headers, u)
        invariant TheView() == Imported(c, v, imports[..done])
        invariant Handled(imports, stops, done, hc.headers)
      {
        if stops(done) {
          return;
        }
        ImportedSnoc(c, v, imports, done);
        ghost var before := hc.headers;
        var err := InsertBlock(c, imports[done], u);
        if err != Fine {
          return;
        }
        HandledNext(imports, stops, done, before, hc.headers);
        done := done + 1;
      }
    }

    /** One turn of the import loop: a block known with its state is only marked again. */
    method InsertBlock(c: Config, i: Import, ghost u: Store) returns (err: ChainError)
      requires Valid() && Universe(hc.headers, u) && Has(u, i.block)
      modifies this, hc
      ensures Valid() && Universe(hc.headers, u)
      ensures TheView() == ImportOne(c, old(TheView()), i)
      ensures err != Fine ==> TheView() == old(TheView()) && i.block.parent !in hc.headers
      ensures err == Fine ==> i.block.hash in hc.headers
      ensures old(hc.headers).Keys <= hc.headers.Keys
    {
      if i.known && i.block.hash in hc.headers {
        err := WriteKnownBlock(i.block);
      } else {
        if i.block.parent in hc.headers {
          AttachFrom(hc.headers, u, i.block);
        }
        ArriveWrites(c, TheView(), i.block, i.coin);
        var status;
        status, err := WriteBlockAndSetHead(c, i.block, i.coin);
      }
    }

    /** Stores a batch of headers without moving the head. */
    method InsertHeaders(hs: seq<Header>, interrupted: bool, ghost u: Store) returns (err: Error)
      requires Valid() && Universe(hc.headers, u) && Listed(u, hs)
      modifies hc`headers, hc`td
      ensures Valid() && Universe(hc.headers, u)
      ensures hs != [] ==> err == if hs[0].parent !in old(hc.headers) then ErrUnknownAncestor
                                  else if interrupted then ErrAborted else NoError
      ensures hc.headers == if err == NoError then Stored(old(hc.headers), hs) else old(hc.headers)
    {
      ghost var s := hc.headers;
      if hs != [] && hs[0].parent in hc.headers {
        ListAttaches(s, u, hs);
      }
      var inserted;
      inserted, err := hc.WriteHeaders(hs, interrupted);
      if hs != [] && err == NoError {
        assert Whole(hc.headers, currentBlock.hash, lookup) by {
          WithinUniverse(hc.headers, u);
          LookupExtends(s, u, currentBlock.hash);
          LookupExtends(hc.headers, u, currentBlock.hash);
        }
      }
    }

    // -------------------------------------------------------------- side chains

    /** The block the canonical index names at a number, if any. */
    function CanonicalBlock(number: nat): Option<Header>
      reads this, hc
    {
      if number in hc.canon && hc.canon[number] in hc.headers then Some(hc.headers[hc.canon[number]]) else None
    }

    /** Writes the blocks of a side chain whose states are pruned, carrying the total difficulty from block to block.
        Blocks that are canonical already only supply their difficulty; a foreign block with a canonical state root
        stops the import after `done` blocks. */
    method InsertSideChain(blocks: seq<Header>) returns (err: ChainError, done: nat, externTd: Option<nat>)
      requires Valid() && blocks != [] && Contiguous(blocks) && AllFresh(hc.headers, blocks)
      modifies hc`headers, hc`td
      ensures done <= |blocks| && SideDone(old(hc.headers), blocks, done, externTd)
      ensures forall i :: 0 <= i < done ==> !GhostState(old(hc.headers), currentBlock, blocks[i])
      ensures err == if done == |blocks| then Fine else GhostStateAttack
      ensures done < |blocks| ==> GhostState(old(hc.headers), currentBlock, blocks[done])
    {
      done, externTd := 0, None;
      assert blocks[0..] == blocks;
      while done < |blocks|
        invariant 0 <= done <= |blocks| && SideDone(old(hc.headers), blocks, done, externTd)
        invariant forall i :: 0 <= i < done ==> !GhostState(old(hc.headers), currentBlock, blocks[i])
      {
        var attack;
        attack, externTd := InsertSideNext(old(hc.headers), blocks, done, externTd);
        if attack {
          return GhostStateAttack, done, externTd;
        }
        done := done + 1;
      }
      err := Fine;
    }

    /** A side chain is written when the parent of its first block is stored; a block with an unknown parent is not
        taken for one whose ancestor's state is pruned. */
    method InsertSide(bs: seq<Header>, ghost u: Store)
      requires Valid() && Universe(hc.headers, u) && Listed(u, bs)
      modifies hc`headers, hc`td
      ensures Valid() && Universe(hc.headers, u) && Extends(old(hc.headers), hc.headers)
      ensures SideWritten(old(TheView()), bs, hc.headers)
    {
      if bs == [] || bs[0].parent !in hc.headers {
        return;
      }
      ghost var v := TheView();
      ListAttaches(v.store, u, bs);
      var err, done, externTd := InsertSideChain(bs);
      assert SideStops(v, bs, hc.headers, done);
      PrefixStays(v.store, u, bs, done);
    }

    /** One write. */
    method Write(c: Config, op: Op, ghost u: Store)
      requires Valid() && Universe(hc.headers, u) && OpFrom(u, op)
      modifies this, hc
      ensures Valid() && Universe(hc.headers, u) && OpStep(c, old(TheView()), op, TheView())
    {
      match op
      case Headers(hs, interrupted) =>
        var err := InsertHeaders(hs, interrupted, u);
      case Blocks(imports, stops) =>
        ghost var v := TheView();
        var done := InsertBlocks(c, imports, stops, u);
        assert ImportStops(c, v, imports, stops, TheView(), done);
      case Side(bs) =>
        InsertSide(bs, u);
    }

    /** Any run of header batches, block imports and side-chain writes, in any order, takes one abstract step after
        another and keeps every invariant; in particular every stored block's total difficulty is the sum of
        difficulties along its path. */
    method WriteAll(c: Config, ops: seq<Op>, ghost u: Store) returns (ghost views: seq<View>)
      requires Valid() && Universe(hc.headers, u) && forall i :: 0 <= i < |ops| ==> OpFrom(u, ops[i])
      modifies this, hc
      ensures Valid() && Universe(hc.headers, u)
      ensures |views| == |ops| + 1 && views[0] == old(TheView()) && views[|ops|] == TheView()
      ensures forall i :: 0 <= i < |ops| ==> OpStep(c, views[i], ops[i], views[i + 1])
      ensures forall h :: h in hc.headers ==> h in hc.td && hc.td[h] == SumDifficulty(hc.headers, h)
      ensures forall h {:trigger Up(hc.headers, h)} :: h in hc.headers && hc.headers[h].number > 0 ==>
        hc.td[h] == hc.td[Up(hc.headers, h)] + hc.headers[h].difficulty
    {
      var i := 0;
      views := [TheView()];
      while i < |ops|
        invariant 0 <= i <= |ops| && Valid() && Universe(hc.headers, u)
        invariant |views| == i + 1 && views[0] == old(TheView()) && views[i] == TheView()
        invariant forall j :: 0 <= j < i ==> OpStep(c, views[j], ops[j], views[j + 1])
      {
        Write(c, ops[i], u);
        views := views + [TheView()];
        i := i + 1;
      }
      forall h | h in hc.headers ensures hc.td[h] == SumDifficulty(hc.headers, h) {
        TdIsPathSum(hc.headers, hc.td, h);
      }
    }

    /** The first `done` blocks of a side chain have been handled, and the difficulty carried on is that of the last. */
    ghost predicate SideDone(s: Store, blocks: seq<Header>, done: nat, externTd: Option<nat>)
      reads this, hc
      requires done <= |blocks|
    {
      && Valid() && AllFresh(hc.headers, blocks[done..]) && hc.headers == Stored(s, blocks[..done])
      && Closed(s) && Has(s, currentBlock) && Extends(s, hc.headers)
      && (done == 0 ==> externTd == None)
      && (done > 0 ==> blocks[done - 1].hash in hc.td && externTd == Some(hc.td[blocks[done - 1].hash]))
    }

    method InsertSideNext(ghost s: Store, blocks: seq<Header>, done: nat, before: Option<nat>)
        returns (attack: bool, externTd: Option<nat>)
      requires done < |blocks| && Contiguous(blocks) && SideDone(s, blocks, done, before)
      modifies hc`headers, hc`td
      ensures attack <==> GhostState(s, currentBlock, blocks[done])
      ensures if attack then SideDone(s, blocks, done, externTd) && hc.headers == old(hc.headers)
              else SideDone(s, blocks, done + 1, externTd)
    {
      assert blocks[done..][0] == blocks[done] && blocks[done..][1..] == blocks[done + 1..];
      StoredSnoc(s, blocks, done);
      GhostStays(s, hc.headers, currentBlock, blocks[done]);
      var td;
      attack, td := InsertSideBlock(blocks[done], before);
      externTd := if attack then before else Some(td);
    }

    /** One turn of the side-chain loop, given the total difficulty of the block before it, if known. */
    method InsertSideBlock(block: Header, before: Option<nat>) returns (attack: bool, externTd: nat)
      requires Valid() && CanAttach(hc.headers, block) && FreshTxs(hc.headers, block)
      requires before.Some? ==> before.value == hc.td[block.parent]
      modifies hc`headers, hc`td
      ensures Valid()
      ensures attack <==> GhostState(old(hc.headers), currentBlock, block)
      ensures attack ==> TheView() == old(TheView())
      ensures !attack ==> TheView() == Written(old(TheView()), block, false) && externTd == hc.td[block.hash]
    {
      attack := false;
      if block.hash in hc.headers {
        WrittenKnown(TheView(), block);
      }
      if currentBlock.number >= block.number {
        var canonical := CanonicalBlock(block.number);
        if canonical.Some? && canonical.value.hash == block.hash {
          externTd := hc.td[block.hash];
          return;
        }
        if canonical.Some? && canonical.value.root == block.root {
          return true, 0;
        }
      }
      externTd := (if before.None? then hc.td[block.parent] else before.value) + block.difficulty;
      if block.hash !in hc.headers {
        StoreBlock(block, externTd);
      }
    }
  }

  // ---------------------------------------------------------------- runs of writes

  /** A write to the chain: a header batch, an import of blocks, or a side chain whose states are pruned. */
  datatype Op = Headers(hs: seq<Header>, interrupted: bool) | Blocks(imports: seq<Import>, stops: nat -> bool)
      | Side(bs: seq<Header>)

  /** The blocks of a write come from the universe, and lists are contiguous. */
  ghost predicate OpFrom(u: Store, op: Op)
  {
    match op
    case Headers(hs, _) => Listed(u, hs)
    case Blocks(imports, _) => forall i :: 0 <= i < |imports| ==> Has(u, imports[i].block)
    case Side(bs) => Listed(u, bs)
  }

  /** A side chain on a stored block is stored up to its first ghost-state block; any other changes nothing. */
  ghost predicate SideWritten(v: View, bs: seq<Header>, s: Store)
    requires Closed(v.store) && Has(v.store, v.head)
  {
    if bs == [] || bs[0].parent !in v.store then s == v.store
    else exists done :: 0 <= done <= |bs| && SideStops(v, bs, s, done)
  }

  ghost predicate SideStops(v: View, bs: seq<Header>, s: Store, done: nat)
    requires Closed(v.store) && Has(v.store, v.head) && done <= |bs|
  {
    && s == Stored(v.store, bs[..done]) && (forall i :: 0 <= i < done ==> !GhostState(v.store, v.head, bs[i]))
    && (done < |bs| ==> GhostState(v.store, v.head, bs[done]))
  }

  /** The first `n` blocks of an import are stored, and none of them came after a stop. */
  ghost predicate Handled(imports: seq<Import>, stops: nat -> bool, n: nat, s: Store)
    requires n <= |imports|
  {
    forall i :: 0 <= i < n ==> !stops(i) && imports[i].block.hash in s
  }

  lemma HandledNext(imports: seq<Import>, stops: nat -> bool, n: nat, s: Store, t: Store)
    requires n < |imports| && Handled(imports, stops, n, s) && s.Keys <= t.Keys
    requires !stops(n) && imports[n].block.hash in t
    ensures Handled(imports, stops, n + 1, t)
  {
  }

  /** An import ends after `done` blocks. */
  ghost predicate ImportStops(c: Config, v: View, imports: seq<Import>, stops: nat -> bool, v': View, done: nat)
    requires done <= |imports|
  {
    && v' == Imported(c, v, imports[..done])
    && Handled(imports, stops, done, v'.store)
    && (done == |imports| || stops(done) || imports[done].block.parent !in v'.store)
  }

  /** What one write does to the stored blocks and the head.  Difficulties follow from the stored blocks. */
  ghost predicate OpStep(c: Config, v: View, op: Op, v': View)
  {
    && Closed(v.store) && Has(v.store, v.head)
    && match op
       case Headers(hs, interrupted) =>
         && v'.head == v.head
         && v'.store == if hs != [] && hs[0].parent in v.store && !interrupted then Stored(v.store, hs) else v.store
       case Blocks(imports, stops) =>
         exists done :: 0 <= done <= |imports| && ImportStops(c, v, imports, stops, v', done)
       case Side(bs) => v'.head == v.head && SideWritten(v, bs, v'.store)
  }

  /** A block to import; `known` says that it was validated as known with its state. */
  datatype Import = Import(block: Header, known: bool, coin: bool)

  ghost function ImportOne(c: Config, v: View, i: Import): View
  {
    if i.known && i.block.hash in v.store then v.(head := i.block) else Arrive(c, v, i.block, i.coin)
  }

  ghost function Imported(c: Config, v: View, imports: seq<Import>): View
  {
    if imports == [] then v else ImportOne(c, Imported(c, v, imports[..|imports| - 1]), imports[|imports| - 1])
  }

  ghost function BlocksOf(imports: seq<Import>): seq<Header>
  {
    seq(|imports|, i requires 0 <= i < |imports| => imports[i].block)
  }

  ghost function CoinsOf(imports: seq<Import>): seq<bool>
  {
    seq(|imports|, i requires 0 <= i < |imports| => imports[i].coin)
  }

  lemma {:induction false} RunSnoc(c: Config, v: View, bs: seq<Header>, coins: seq<bool>, b: Header, coin: bool)
    requires |bs| == |coins|
    ensures Run(c, v, bs + [b], coins + [coin]) == Arrive(c, Run(c, v, bs, coins), b, coin)
    decreases |bs|
  {
    if bs != [] {
      assert (bs + [b])[1..] == bs[1..] + [b] && (coins + [coin])[1..] == coins[1..] + [coin];
      RunSnoc(c, Arrive(c, v, bs[0], coins[0]), bs[1..], coins[1..], b, coin);
    } else {
      assert (bs + [b])[1..] == [] && (coins + [coin])[1..] == [];
    }
  }

  /** An import without known blocks is a run of arrivals, to which the fork-choice theorems apply. */
  lemma {:induction false} ImportedIsRun(c: Config, v: View, imports: seq<Import>)
    requires forall i :: 0 <= i < |imports| ==> !imports[i].known
    ensures Imported(c, v, imports) == Run(c, v, BlocksOf(imports), CoinsOf(imports))
  {
    if imports != [] {
      var init, last := imports[..|imports| - 1], imports[|imports| - 1];
      ImportedIsRun(c, v, init);
      RunSnoc(c, v, BlocksOf(init), CoinsOf(init), last.block, last.coin);
      assert BlocksOf(imports) == BlocksOf(init) + [last.block] && CoinsOf(imports) == CoinsOf(init) + [last.coin];
    }
  }

  lemma ImportedSnoc(c: Config, v: View, imports: seq<Import>, i: nat)
    requires i < |imports|
    ensures Imported(c, v, imports[..i + 1]) == ImportOne(c, Imported(c, v, imports[..i]), imports[i])
  {
    assert imports[..i + 1][..i] == imports[..i];
  }

  /** All the blocks there are: ancestor-closed, and no chain repeats a transaction.  The store holds some of them. */
  ghost predicate Universe(s: Store, u: Store)
  {
    Closed(u) && UniqueTxs(u) && Extends(s, u)
  }

  ghost predicate Listed(u: Store, bs: seq<Header>)
  {
    Contiguous(bs) && forall b :: b in bs ==> Has(u, b)
  }

  /** A block whose parent is stored attaches to the store and repeats no transaction. */
  lemma AttachFrom(s: Store, u: Store, b: Header)
    requires Closed(s) && Universe(s, u) && Has(u, b) && b.parent in s
    ensures CanAttach(s, b) && FreshTxs(s, b) && Universe(s[b.hash := b], u)
  {
    assert b.parent == Up(u, b.hash);
    LookupExtends(s, u, b.parent);
    assert LookupOf(u, Up(u, b.hash)).Keys !! Entries(u[b.hash]).Keys;
  }

  /** A contiguous list whose first parent is stored attaches to the store block by block. */
  lemma {:induction false} ListAttaches(s: Store, u: Store, bs: seq<Header>)
    requires Closed(s) && Universe(s, u) && Listed(u, bs) && bs != [] && bs[0].parent in s
    ensures ParentFirst(s, bs) && AllFresh(s, bs) && Universe(Stored(s, bs), u)
    decreases |bs|
  {
    var b, rest := bs[0], bs[1..];
    assert b in bs;
    AttachFrom(s, u, b);
    AddBlockClosed(s, b);
    if rest != [] {
      assert forall x :: x in rest ==> x in bs;
      ListAttaches(s[b.hash := b], u, rest);
    }
  }

  lemma PrefixStays(s: Store, u: Store, bs: seq<Header>, done: nat)
    requires Closed(s) && Universe(s, u) && Listed(u, bs) && bs != [] && bs[0].parent in s && done <= |bs|
    ensures Universe(Stored(s, bs[..done]), u) && Extends(s, Stored(s, bs[..done]))
  {
    if done > 0 {
      assert forall b :: b in bs[..done] ==> b in bs;
      ListAttaches(s, u, bs[..done]);
      StoredIsUnion(s, bs[..done]);
    }
  }

  lemma AddBlockClosed(s: Store, b: Header)
    requires Closed(s) && CanAttach(s, b)
    ensures Closed(s[b.hash := b])
  {
    if b.hash in s {
      assert s[b.hash := b] == s;
    } else {
      AddNewBlock(s, b);
    }
  }

  /** What lies within the universe repeats no transaction. */
  lemma WithinUniverse(s: Store, u: Store)
    requires Closed(s) && Universe(s, u)
    ensures UniqueTxs(s)
  {
    forall h {:trigger Entries(s[h])} | h in s && s[h].number > 0
      ensures LookupOf(s, Up(s, h)).Keys !! Entries(s[h]).Keys
    {
      assert Up(s, h) == Up(u, h);
      LookupExtends(s, u, Up(s, h));
      assert LookupOf(u, Up(u, h)).Keys !! Entries(u[h]).Keys;
    }
  }

  /** Every block attaches to the store the blocks before it have left and repeats no transaction of its chain. */
  ghost predicate AllFresh(s: Store, bs: seq<Header>)
    decreases |bs|
  {
    bs == [] || (Closed(s) && CanAttach(s, bs[0]) && FreshTxs(s, bs[0]) && AllFresh(s[bs[0].hash := bs[0]], bs[1..]))
  }

  /** A block that is not on the head's chain but carries the state root of that chain's block with its number. */
  ghost predicate GhostState(s: Store, head: Header, b: Header)
  {
    && Closed(s) && Has(s, head)
    && b.number <= head.number && Anc(s, head.hash, b.number) != b.hash
    && s[Anc(s, head.hash, b.number)].root == b.root
  }

  lemma GhostStays(s: Store, t: Store, head: Header, b: Header)
    requires Closed(s) && Closed(t) && Extends(s, t) && Has(s, head)
    ensures GhostState(s, head, b) <==> GhostState(t, head, b)
  {
    if b.number <= head.number {
      AncExtends(s, t, head.hash, b.number);
    }
  }

  /** The chains of `h` and `k` share the block numbered `lo`. */
  ghost predicate Meets(s: Store, h: Hash, k: Hash, lo: nat)
    requires Closed(s)
  {
    h in s && k in s && lo <= s[h].number && lo <= s[k].number && Anc(s, h, lo) == Anc(s, k, lo)
  }

  /** Where a reorg leaves the indexes: at `newHead` when it is on the old chain, at its parent otherwise. */
  ghost function ReorgTop(s: Store, oldHead: Header, newHead: Header): Hash
    requires Closed(s) && oldHead.hash in s
  {
    if IsAncestor(s, newHead.hash, oldHead.hash) then newHead.hash else newHead.parent
  }

  lemma ForkTop(s: Store, old_: Header, new_: Header, oldChain: seq<Header>, newChain: seq<Header>, common: Header)
    requires Closed(s) && Has(s, old_) && Has(s, new_) && Forked(s, old_, new_, oldChain, newChain, common)
    ensures var top := ReorgTop(s, old_, new_);
      && Meets(s, old_.hash, top, common.number)
      && top == Penultimate(s, new_.hash, common.number)
      && s[top].number == if |newChain| > 1 then newChain[1].number else common.number
  {
    assert new_.parent == Up(s, new_.hash);
    if IsAncestor(s, new_.hash, old_.hash) {
      assert Anc(s, new_.hash, new_.number) == Anc(s, old_.hash, new_.number);
      assert common.number == new_.number;
    } else {
      assert common.number < new_.number;
    }
  }

  /** The block a reorg stops at: the parent of `head`, or `head` itself when nothing lies between it and `lo`. */
  ghost function Penultimate(s: Store, head: Hash, lo: nat): (top: Hash)
    requires Closed(s) && head in s && lo <= s[head].number
    ensures top in s && lo <= s[top].number
  {
    if s[head].number == lo then head else Up(s, head)
  }

  ghost function Segment(s: Store, h: Hash, lo: nat): map<nat, Hash>
    requires Closed(s) && h in s && lo <= s[h].number
  {
    map n | lo < n <= s[h].number :: Anc(s, h, n)
  }

  /** The indexes hold the old chain with the new chain's blocks from above `lo` up to `h` written over it. */
  ghost predicate Merged(s: Store, h: Hash, lo: nat, canon0: map<nat, Hash>, lookup0: map<TxHash, nat>,
                         canon: map<nat, Hash>, lookup: map<TxHash, nat>, txs: seq<TxHash>)
    requires Closed(s)
  {
    && h in s && lo <= s[h].number
    && canon == canon0 + Segment(s, h, lo)
    && lookup == lookup0 + LookupAbove(s, h, lo)
    && (set tx | tx in txs) == LookupAbove(s, h, lo).Keys
  }

  lemma MergeStep(s: Store, h: Hash, lo: nat, canon0: map<nat, Hash>, lookup0: map<TxHash, nat>,
                  canon: map<nat, Hash>, lookup: map<TxHash, nat>, txs: seq<TxHash>)
    requires Closed(s) && h in s && lo < s[h].number
    requires Merged(s, Up(s, h), lo, canon0, lookup0, canon, lookup, txs)
    ensures Merged(s, h, lo, canon0, lookup0, canon[s[h].number := h], lookup + Entries(s[h]), txs + s[h].txs)
  {
    GrowSegment(s, h, lo, canon0);
    GrowLookup(s, h, lo, lookup0);
  }

  lemma GrowSegment(s: Store, h: Hash, lo: nat, canon: map<nat, Hash>)
    requires Closed(s) && h in s && lo < s[h].number
    ensures (canon + Segment(s, Up(s, h), lo))[s[h].number := h] == canon + Segment(s, h, lo)
  {
  }

  lemma GrowLookup(s: Store, h: Hash, lo: nat, lookup: map<TxHash, nat>)
    requires Closed(s) && h in s && lo < s[h].number
    ensures (lookup + LookupAbove(s, Up(s, h), lo)) + Entries(s[h]) == lookup + LookupAbove(s, h, lo)
    ensures LookupAbove(s, h, lo).Keys == LookupAbove(s, Up(s, h), lo).Keys + set tx | tx in s[h].txs
  {
  }

  /** Overwriting the new chain's numbers above the meeting point and deleting those above its top gives its index. */
  lemma SwitchIndex(s: Store, head: Hash, top: Hash, lo: nat, batch: Batch, to: nat)
    requires Closed(s) && Meets(s, head, top, lo)
    requires forall n :: n in batch <==> s[top].number < n < to
    requires forall n :: n in batch ==> batch[n] == ZERO
    requires s[top].number < to && ReadCanonical(Path(s, head) + Segment(s, top, lo), to) == ZERO
    ensures Flushed(Path(s, head) + Segment(s, top, lo), batch) == Path(s, top)
  {
    var c := Path(s, head) + Segment(s, top, lo);
    forall n | 0 <= n <= lo ensures Anc(s, head, n) == Anc(s, top, n) {
      MeetBelow(s, head, top, n, lo);
    }
    assert s[head].number < to by {
      assert forall n :: n in c ==> c[n] in s;
      assert to in c <==> to <= s[head].number;
    }
    FlushGives(c, batch, Path(s, top));
  }

  /** A lookup table with the blocks above `lo` switched from the chain of `head` to that of `top`. */
  ghost function Switched(s: Store, table: map<TxHash, nat>, head: Hash, top: Hash, lo: nat): map<TxHash, nat>
    requires Closed(s) && Meets(s, head, top, lo)
  {
    table + LookupAbove(s, top, lo) - (LookupAbove(s, head, lo).Keys - LookupAbove(s, top, lo).Keys)
  }

  /** Switching turns the whole chain's table into the new chain's. */
  lemma SwitchLookup(s: Store, head: Hash, top: Hash, lo: nat)
    requires Closed(s) && UniqueTxs(s) && Meets(s, head, top, lo)
    ensures Switched(s, LookupOf(s, head), head, top, lo) == LookupOf(s, top)
  {
    LookupSplit(s, head, lo);
    LookupSplit(s, top, lo);
    SwapTops(LookupOf(s, Anc(s, head, lo)), LookupAbove(s, head, lo), LookupAbove(s, top, lo));
  }

  lemma {:induction false} WindowSum(s: Store, h: Hash, t: nat, m: nat)
    requires Closed(s) && h in s && t <= m <= s[h].number
    ensures LookupAbove(s, h, t) == LookupAbove(s, Anc(s, h, m), t) + LookupAbove(s, h, m)
    decreases s[h].number
  {
    if s[h].number > m {
      WindowSum(s, Up(s, h), t, m);
      AssocMaps(LookupAbove(s, Anc(s, h, m), t), LookupAbove(s, Up(s, h), m), Entries(s[h]));
    }
  }

  lemma AssocMaps(low: map<TxHash, nat>, mid: map<TxHash, nat>, top: map<TxHash, nat>)
    ensures (low + mid) + top == low + (mid + top)
  {
  }

  lemma {:induction false} WindowWithin(s: Store, h: Hash, t: nat)
    requires Closed(s) && h in s && t <= s[h].number
    ensures LookupAbove(s, h, t).Keys <= LookupOf(s, h).Keys
    decreases s[h].number
  {
    if s[h].number > t {
      WindowWithin(s, Up(s, h), t);
    }
  }

  /** A window splits like the whole table. */
  lemma WindowSplit(s: Store, h: Hash, t: nat, m: nat)
    requires Closed(s) && UniqueTxs(s) && h in s && t <= m <= s[h].number
    ensures LookupAbove(s, h, t) == LookupAbove(s, Anc(s, h, m), t) + LookupAbove(s, h, m)
    ensures LookupAbove(s, Anc(s, h, m), t).Keys !! LookupAbove(s, h, m).Keys
  {
    WindowSum(s, h, t, m);
    LookupSplit(s, h, m);
    WindowWithin(s, Anc(s, h, m), t);
  }

  /** Switching a table that holds only the blocks above `t` leaves one that holds the blocks above the lower of `t` and
      the fork: a fork below the window brings in blocks below it. */
  lemma WindowSwitch(s: Store, head: Hash, top: Hash, lo: nat, t: nat)
    requires Closed(s) && UniqueTxs(s) && Meets(s, head, top, lo) && t <= s[head].number
    ensures Switched(s, LookupAbove(s, head, t), head, top, lo) == LookupAbove(s, top, if t <= lo then t else lo)
  {
    if t <= lo {
      WindowSplit(s, head, t, lo);
      WindowSplit(s, top, t, lo);
      SwapTops(LookupAbove(s, Anc(s, head, lo), t), LookupAbove(s, head, lo), LookupAbove(s, top, lo));
    } else {
      WindowSplit(s, head, lo, t);
      DropTop(LookupAbove(s, head, t), LookupAbove(s, head, lo), LookupAbove(s, top, lo));
    }
  }

  lemma DropTop(table: map<TxHash, nat>, before: map<TxHash, nat>, after: map<TxHash, nat>)
    requires table.Keys <= before.Keys
    ensures table + after - (before.Keys - after.Keys) == after
  {
  }

  /** A window survives a reorganisation exactly when the fork does not lie below it, or no block that joined below it
      carries a transaction. */
  lemma WindowSurvives(s: Store, head: Hash, top: Hash, lo: nat, t: nat)
    requires Closed(s) && UniqueTxs(s) && Meets(s, head, top, lo) && t <= s[head].number && t <= s[top].number
    ensures Switched(s, LookupAbove(s, head, t), head, top, lo) == LookupAbove(s, top, t)
            <==> t <= lo || LookupAbove(s, Anc(s, top, t), lo) == map[]
  {
    WindowSwitch(s, head, top, lo, t);
    if lo < t {
      WindowSplit(s, top, lo, t);
      DisjointSum(LookupAbove(s, Anc(s, top, t), lo), LookupAbove(s, top, t));
    }
  }

  lemma DisjointSum(low: map<TxHash, nat>, high: map<TxHash, nat>)
    requires low.Keys !! high.Keys
    ensures low + high == high <==> low == map[]
  {
    assert (low + high).Keys == low.Keys + high.Keys;
    assert low.Keys == {} ==> low == map[];
  }

  lemma SwapTops(base: map<TxHash, nat>, before: map<TxHash, nat>, after: map<TxHash, nat>)
    requires base.Keys !! before.Keys
    ensures (base + before) + after - (before.Keys - after.Keys) == base + after
  {
  }

  lemma WrittenIs(v: View, b: Header, s: Store, td: map<Hash, nat>, total: nat)
    requires b.parent in v.td && total == v.td[b.parent] + b.difficulty
    requires s == v.store[b.hash := b] && td == v.td[b.hash := total]
    ensures View(s, td, v.head) == Written(v, b, false)
  {
  }

  /** The table holds the whole chain of the head. */
  ghost predicate Whole(s: Store, head: Hash, lookup: map<TxHash, nat>)
  {
    Closed(s) && UniqueTxs(s) && head in s && lookup == LookupOf(s, head)
  }

  /** Storing a block repeats no transaction and changes nothing in the current head's lookup table. */
  lemma StoreKeepsLookups(s: Store, b: Header, head: Hash, lookup: map<TxHash, nat>)
    requires Whole(s, head, lookup) && CanAttach(s, b) && FreshTxs(s, b)
    ensures Whole(s[b.hash := b], head, lookup)
  {
    if b.hash in s {
      assert s[b.hash := b] == s;
    } else {
      AddNewBlock(s, b);
      AddUnique(s, b);
      LookupExtends(s, s[b.hash := b], head);
    }
  }

  /** The search has come down to `a` on the old chain and `b` on the new one, both at the same number. */
  ghost predicate Narrowing(s: Store, old_: Header, new_: Header, oldChain: seq<Header>, newChain: seq<Header>,
      a: Header, b: Header)
    requires Closed(s) && Has(s, old_) && Has(s, new_)
  {
    && Has(s, a) && Has(s, b) && a.number == b.number
    && IsAncestor(s, a.hash, old_.hash) && IsAncestor(s, b.hash, new_.hash)
    && Trail(s, old_.hash, oldChain) && |oldChain| == old_.number - a.number
    && Trail(s, new_.hash, newChain) && |newChain| == new_.number - b.number
    && forall n :: a.number < n <= old_.number && n <= new_.number ==> Anc(s, old_.hash, n) != Anc(s, new_.hash, n)
  }

  lemma NarrowStep(s: Store, old_: Header, new_: Header, oldChain: seq<Header>, newChain: seq<Header>, a: Header,
      b: Header)
    requires Closed(s) && Has(s, old_) && Has(s, new_) && Narrowing(s, old_, new_, oldChain, newChain, a, b)
    requires a.hash != b.hash
    ensures a.parent in s && s[a.parent].number == a.number - 1 && b.parent in s && s[b.parent].number == b.number - 1
    ensures Narrowing(s, old_, new_, oldChain + [a], newChain + [b], s[a.parent], s[b.parent])
  {
    assert a.number > 0;
    assert a.parent == Up(s, a.hash) && b.parent == Up(s, b.hash);
    AncStep(s, old_.hash, a.number);
    AncStep(s, new_.hash, b.number);
  }
}
