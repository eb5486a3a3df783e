/**
 The header chain: stored headers, total difficulties, the canonical index and the head header.

 Reads go to the database as it was; writes collect in a batch and are flushed at the end, as in
 the node.  Caches, metrics and logging are not modelled.
 */
module HeaderChains {
  import opened Common
  import opened Chain
  import opened ForkChoice

  /** Pending writes to the canonical index; the empty hash marks a deletion, the last write of a key wins. */
  type Batch = map<nat, Hash>

  ghost function Flushed(canon: map<nat, Hash>, batch: Batch): map<nat, Hash>
  {
    map n | n in canon.Keys + batch.Keys && (n in batch ==> batch[n] != ZERO) ::
      if n in batch then batch[n] else canon[n]
  }

  function Flush(canon: map<nat, Hash>, batch: Batch): (r: map<nat, Hash>)
    ensures r == Flushed(canon, batch)
    ensures forall n :: ReadCanonical(r, n) == if n in batch then batch[n] else ReadCanonical(canon, n)
  {
    map n | n in canon.Keys + batch.Keys && (n in batch ==> batch[n] != ZERO) ::
      if n in batch then batch[n] else canon[n]
  }

  ghost predicate Contiguous(hs: seq<Header>)
  {
    && (forall i :: 0 <= i < |hs| ==> hs[i].number == hs[0].number + i)
    && (forall i {:trigger hs[i].parent} :: 0 < i < |hs| ==> hs[i].parent == hs[i - 1].hash)
  }

  /** A non-empty contiguous list of stored headers. */
  ghost predicate Span(s: Store, hs: seq<Header>)
  {
    hs != [] && Contiguous(hs) && forall h :: h in hs ==> Has(s, h)
  }

  function Last(hs: seq<Header>): Header
    requires hs != []
  {
    hs[|hs| - 1]
  }

  /** A batch that carries the right hash at every number it touches, and touches every number at which the old and the
      new chain differ, turns the old chain's index into the new chain's. */
  lemma FlushIsPath(s: Store, canon: map<nat, Hash>, head: Hash, last: Hash, batch: Batch)
    requires Closed(s) && head in s && last in s && canon == Path(s, head)
    requires forall n :: n in batch ==> batch[n] == if n <= s[last].number then Anc(s, last, n) else ZERO
    requires forall n :: 0 <= n <= s[last].number && n !in batch ==>
        n <= s[head].number && Anc(s, head, n) == Anc(s, last, n)
    requires forall n :: s[last].number < n <= s[head].number ==> n in batch
    ensures Flushed(canon, batch) == Path(s, last)
  {
    var p := Path(s, last);
    forall n | n in batch ensures if n in p then batch[n] == p[n] != ZERO else batch[n] == ZERO {
      assert n in p ==> Anc(s, last, n) in s;
    }
    forall n | n !in batch ensures (n in p <==> n in canon) && (n in p ==> p[n] == canon[n]) {
    }
    FlushGives(canon, batch, p);
  }

  /** Flushing a batch gives the index that the batch says where it writes and the old index says elsewhere. */
  lemma FlushGives(canon: map<nat, Hash>, batch: Batch, p: map<nat, Hash>)
    requires forall n :: n in batch ==> if n in p then batch[n] == p[n] != ZERO else batch[n] == ZERO
    requires forall n :: n !in batch ==> (n in p <==> n in canon) && (n in p ==> p[n] == canon[n])
    ensures Flushed(canon, batch) == p
  {
  }

  datatype Error = NoError | ErrUnknownAncestor | ErrMissingTd | ErrAborted

  datatype WriteStatus = NonStat | CanonStat | SideStat

  /** What header validation establishes before an import: a contiguous list without hash collisions which, if its first
      parent is stored, attaches to the store header by header. */
  ghost predicate Importable(s: Store, hs: seq<Header>)
  {
    Contiguous(hs) && (hs != [] && hs[0].parent in s ==> ParentFirst(s, hs))
  }

  class HeaderChain {
    var headers: Store
    var td: map<Hash, nat>
    var canon: map<nat, Hash>
    var currentHeader: Header
    var currentHeaderHash: Hash
    var headHeaderHash: Hash   // the head marker kept in the database

    constructor (genesis: Header)
      requires genesis.hash == GENESIS && genesis.number == 0 && genesis.parent == ZERO
      ensures Valid() && headers == map[GENESIS := genesis] && currentHeader == genesis
    {
      headers, td, canon := map[GENESIS := genesis], map[GENESIS := genesis.difficulty], map[0 := GENESIS];
      currentHeader, currentHeaderHash, headHeaderHash := genesis, GENESIS, GENESIS;
    }

    ghost predicate Stored()
      reads this
    {
      Closed(headers) && GENESIS in headers && headers[GENESIS].number == 0 && TdLaw(headers, td)
    }

    ghost predicate Valid()
      reads this
    {
      && Stored()
      && Has(headers, currentHeader)
      && currentHeaderHash == headHeaderHash == currentHeader.hash
      && canon == Path(headers, currentHeaderHash)
    }

    /** Stores one block on a stored parent, with the total difficulty the caller has worked out. */
    method PutBlock(b: Header, total: nat)
      requires Valid() && CanAttach(headers, b) && total == td[b.parent] + b.difficulty
      modifies `headers, `td
      ensures Valid() && headers == old(headers)[b.hash := b] && td == old(td)[b.hash := total]
    {
      AddBlock(headers, td, b);
      PathExtends(headers, headers[b.hash := b], currentHeaderHash);
      headers, td := headers[b.hash := b], td[b.hash := total];
    }

    // -------------------------------------------------------------- WriteHeaders

    /** Stores a list of headers with their total difficulties.  The first `|hs| - inserted` of them were stored
        before. */
    method WriteHeaders(hs: seq<Header>, interrupted: bool) returns (inserted: nat, err: Error)
      requires Valid() && Importable(headers, hs)
      modifies `headers, `td
      ensures Valid()
      ensures hs != [] ==> err == if hs[0].parent !in old(headers) then ErrUnknownAncestor
                                  else if interrupted then ErrAborted else NoError
      ensures err != NoError || hs == [] ==> headers == old(headers) && td == old(td) && inserted == 0
      ensures err == NoError ==> headers == Chain.Stored(old(headers), hs) && inserted <= |hs|
      ensures err == NoError ==> forall i :: 0 <= i < |hs| ==> (hs[i].hash in old(headers) <==> i < |hs| - inserted)
    {
      if hs == [] {
        return 0, NoError;
      }
      if hs[0].parent !in td {
        return 0, ErrUnknownAncestor;
      }
      var view, viewTd;
      view, viewTd, inserted := CollectHeaders(hs);
      if interrupted {
        return 0, ErrAborted;
      }
      PathExtends(headers, view, currentHeaderHash);
      headers, td := view, viewTd;
      return inserted, NoError;
    }

    /** The loop of the import.  It reads the database as it is and returns it with the pending batch on top. */
    method CollectHeaders(hs: seq<Header>) returns (view: Store, viewTd: map<Hash, nat>, inserted: nat)
      requires Stored() && hs != [] && hs[0].parent in headers && Contiguous(hs) && ParentFirst(headers, hs)
      ensures Closed(view) && TdLaw(view, viewTd)
      ensures view == Chain.Stored(headers, hs) && Extends(headers, view)
      ensures inserted <= |hs| && forall i :: 0 <= i < |hs| ==> (hs[i].hash in headers <==> i < |hs| - inserted)
    {
      var newTd: nat, parentKnown := td[hs[0].parent], true;
      view, viewTd, inserted := headers, td, 0;
      var i := 0;
      assert hs[..0] == [];
      while i < |hs|
        invariant 0 <= i <= |hs| && Collecting(headers, view, viewTd, hs, i, inserted, parentKnown, newTd)
      {
        var header := hs[i];
        var hash := if i < |hs| - 1 then hs[i + 1].parent else header.hash;
        CollectStep(headers, view, viewTd, hs, i, inserted, parentKnown, newTd);
        newTd := newTd + header.difficulty;
        var alreadyKnown := parentKnown && hash in headers;
        if !alreadyKnown {
          view, viewTd := view[hash := header], viewTd[hash := newTd];
          inserted := inserted + 1;
        }
        parentKnown := alreadyKnown;
        i := i + 1;
      }
      assert hs[..i] == hs;
    }

    // -------------------------------------------------------------- Reorg

    /** Collects deletions of the canonical entries from `from` upwards, up to the first gap. */
    method DeleteAbove(from: nat) returns (batch: Batch, ghost to: nat)
      ensures from <= to && to !in batch
      ensures ReadCanonical(canon, to) == ZERO
      ensures forall n :: n in batch <==> from <= n < to
      ensures forall n :: n in batch ==> batch[n] == ZERO
    {
      batch := map[];
      var i := from;
      while ReadCanonical(canon, i) != ZERO
        invariant from <= i
        invariant forall n :: n in batch <==> from <= n < i
        invariant forall n :: n in batch ==> batch[n] == ZERO && n in canon
        decreases canon.Keys - batch.Keys
      {
        assert batch[i := ZERO].Keys == batch.Keys + {i} && i !in batch;
        batch := batch[i := ZERO];
        i := i + 1;
      }
      to := i;
    }

    /** Overwrites canonical entries from `first` backwards until the cross link with the canonical chain.
        A missing parent fails, which an ancestor-closed store rules out. */
    method OverwriteBack(first: Header) returns (ok: bool, batch: Batch, ghost cross: int)
      requires Keyed(headers) && Has(headers, first)
      ensures !ok ==> !Closed(headers)
      ensures ok ==> -1 <= cross <= first.number && forall n :: n in batch <==> cross < n <= first.number
      ensures ok && Closed(headers) ==> forall n :: n in batch ==> batch[n] == Anc(headers, first.hash, n)
      ensures ok && Closed(headers) && 0 <= cross ==> ReadCanonical(canon, cross) == Anc(headers, first.hash, cross)
    {
      batch := map[];
      var header, headNumber, headHash := first, first.number, first.hash;
      while ReadCanonical(canon, headNumber) != headHash
        invariant headNumber <= first.number && Has(headers, header)
        invariant headHash == header.hash && headNumber == header.number
        invariant forall n :: n in batch <==> headNumber < n <= first.number
        invariant Closed(headers) ==> headHash == Anc(headers, first.hash, headNumber)
        invariant Closed(headers) ==> forall n :: n in batch ==> batch[n] == Anc(headers, first.hash, n)
        decreases headNumber
      {
        batch := batch[headNumber := headHash];
        if headNumber == 0 {
          return true, batch, -1;
        }
        match GetHeader(headers, header.parent, headNumber - 1)
        case None =>
          return false, batch, headNumber;
        case Some(parent) =>
          if Closed(headers) {
            AncStep(headers, first.hash, headNumber);
          }
          headHash, headNumber := header.parent, headNumber - 1;
          header := parent;
      }
      return true, batch, headNumber;
    }

    /** Makes the chain ending in the last of the given stored headers canonical. */
    method Reorg(hs: seq<Header>) returns (ok: bool)
      requires Valid()
      requires hs == [] || Span(headers, hs)
      modifies this
      ensures ok && Valid()
      ensures headers == old(headers) && td == old(td)
      ensures hs == [] ==> canon == old(canon) && currentHeader == old(currentHeader)
      ensures hs != [] ==> currentHeader == Last(hs) && canon == Path(headers, Last(hs).hash)
    {
      if hs == [] {
        return true;
      }
      var batch;
      ok, batch := ReorgBatch(hs);
      if !ok {
        return;
      }
      canon := Flush(canon, batch);
      headHeaderHash := Last(hs).hash;
      currentHeaderHash := Last(hs).hash;
      currentHeader := Last(hs);
    }

    /** The index writes of a reorg, collected while the database still holds the old chain. */
    method ReorgBatch(hs: seq<Header>) returns (ok: bool, batch: Batch)
      requires Valid() && Span(headers, hs)
      ensures ok && Last(hs) in hs && Flushed(canon, batch) == Path(headers, Last(hs).hash)
    {
      var first := hs[0];
      assert first in hs && Last(hs) in hs;
      batch := map[];
      ghost var cross: int, to := first.number - 1, Last(hs).number + 1;
      if first.parent != currentHeaderHash {
        batch, to := DeleteAbove(Last(hs).number + 1);
        var back;
        ok, back, cross := OverwriteBack(first);
        if !ok {
          return;
        }
        batch := batch + back;
      }
      ghost var low := batch;
      batch := WriteForward(hs, batch);
      SpanWrites(headers, hs, low, batch);
      ReorgFlush(headers, canon, currentHeader, first, Last(hs), low, batch, cross, to);
      ok := true;
    }

    // -------------------------------------------------------------- writeHeadersAndSetHead

    /** Stores a batch of headers and makes its last one the head if the fork choice prefers it, unless it is canonical
        already. */
    method WriteHeadersAndSetHead(c: Config, hs: seq<Header>, interrupted: bool, coin: bool)
      returns (status: WriteStatus, imported: nat, err: Error)
      requires Valid() && hs != [] && Importable(headers, hs)
      modifies this
      ensures Valid()
      ensures err == if hs[0].parent !in old(headers) then ErrUnknownAncestor else if interrupted then ErrAborted
          else NoError
      ensures err != NoError ==> headers == old(headers) && td == old(td) && currentHeader == old(currentHeader)
      ensures err == NoError ==>
        && headers == Chain.Stored(old(headers), hs)
        && var d := ReorgNeededWithFastFinality(c, td, old(currentHeader), Last(hs), coin);
        && d.Decide?
        && currentHeader == (if d.reorg && ReadCanonical(old(canon), Last(hs).number) != Last(hs).hash
                             then Last(hs) else old(currentHeader))
        && (status == CanonStat <==> d.reorg && ReadCanonical(old(canon), Last(hs).number) != Last(hs).hash)
        && (status == SideStat <==> !d.reorg && imported != 0)
      ensures err == NoError ==> forall i :: 0 <= i < |hs| ==> (hs[i].hash in old(headers) <==> i < |hs| - imported)
      ensures err != NoError ==> status == NonStat && imported == 0
    {
      imported, err := WriteHeaders(hs, interrupted);
      if err != NoError {
        return NonStat, 0, err;
      }
      StoredIsUnion(old(headers), hs);
      assert Last(hs) in hs && Has(headers, Last(hs));
      match ReorgNeededWithFastFinality(c, td, currentHeader, Last(hs), coin)
      case MissingTd => return NonStat, imported, ErrMissingTd;
      case UnknownAncestor => return NonStat, imported, ErrUnknownAncestor;
      case Decide(reorg) =>
        if !reorg {
          return if imported != 0 then SideStat else NonStat, imported, NoError;
        }
      if ReadCanonical(canon, Last(hs).number) == Last(hs).hash && Last(hs).number <= currentHeader.number {
        return NonStat, imported, NoError;
      }
      var ok := Reorg(hs);
      return CanonStat, imported, NoError;
    }

    // -------------------------------------------------------------- setHead

    /** The hashes of all stored headers with a given number, forks included. */
    function AllHashes(n: nat): set<Hash>
      reads this
    {
      set h | h in headers && headers[h].number == n
    }

    /** The numbers above `num` that carry a header, highest first, up to the first gap. */
    method LevelsAbove(num: nat) returns (nums: seq<nat>)
      requires Closed(headers)
      ensures forall n :: n in nums ==> num < n && AllHashes(n) != {}
      ensures forall h :: h in headers && headers[h].number > num ==> headers[h].number in nums
    {
      nums := [];
      var n := num + 1;
      while AllHashes(n) != {}
        invariant n > num
        invariant forall k :: k in nums <==> num < k < n
        invariant forall k :: k in nums ==> AllHashes(k) != {}
        decreases Over(headers, n - 1)
      {
        assert AllHashes(n) <= Over(headers, n - 1) && AllHashes(n) !! Over(headers, n);
        nums := [n] + nums;
        n := n + 1;
      }
      assert forall h :: h in headers && headers[h].number == n ==> h in AllHashes(n);
      forall h | h in headers ensures headers[h].number < n {
        EmptyLevel(headers, h, n);
      }
    }

    /** Gathers what has to be deleted at the given numbers. */
    method DropLevels(nums: seq<nat>, hdr: Header) returns (dropped: set<Hash>, unnumbered: set<nat>)
      requires forall n :: n in nums ==> AllHashes(n) != {}
      ensures dropped == set h | h in headers && headers[h].number in nums
      ensures unnumbered == set n | n in nums
    {
      dropped, unnumbered := {}, {};
      var k := 0;
      while k < |nums|
        invariant 0 <= k <= |nums|
        invariant dropped == set h | h in headers && headers[h].number in nums[..k]
        invariant unnumbered == set n | n in nums[..k]
      {
        assert nums[..k + 1] == nums[..k] + [nums[k]];
        var hashes := AllHashes(nums[k]);
        if hashes == {} {
          hashes := {hdr.hash};
        }
        dropped := dropped + hashes;
        unnumbered := unnumbered + {nums[k]};
        k := k + 1;
      }
      assert nums[..k] == nums;
    }

    /** What goes with one rewound header: all forks at its number and, the first time, everything above it. */
    method CollectLevels(hdr: Header, origin: bool) returns (more: set<Hash>, numbers: set<nat>)
      requires Closed(headers) && Has(headers, hdr)
      ensures more == if origin then Over(headers, hdr.number - 1) else AllHashes(hdr.number)
      ensures hdr.number in numbers && forall n :: n in numbers ==> n >= hdr.number
    {
      var nums: seq<nat> := [];
      if origin {
        nums := LevelsAbove(hdr.number);
      }
      nums := nums + [hdr.number];
      assert hdr.hash in AllHashes(hdr.number);
      assert forall h :: h in headers ==>
        (headers[h].number in nums <==> headers[h].number == hdr.number || (origin && headers[h].number > hdr.number));
      more, numbers := DropLevels(nums, hdr);
    }

    /** Flushes the collected deletions. */
    method Commit(dropped: set<Hash>, unnumbered: set<nat>)
      modifies `headers, `td, `canon
      ensures headers == old(headers) - dropped && td == old(td) - dropped && canon == old(canon) - unnumbered
    {
      headers := headers - dropped;
      td := td - dropped;
      canon := canon - unnumbered;
    }

    /** Rewinds to the nearest ancestor at or below the target.  When the head has to move, every stored header above
        the new head goes, on whatever fork; when the head is at or below the target already, nothing is touched. */
    method SetHead(headBlock: nat, headTime: nat)
      requires Valid()
      requires headTime > 0 ==> headers[GENESIS].time <= headTime
      modifies this
      ensures Valid()
      ensures IsAncestor(old(headers), currentHeaderHash, old(currentHeaderHash))
          && Done(currentHeader, headBlock, headTime)
      ensures forall n :: currentHeader.number < n <= old(currentHeader).number
                ==> !Done(old(headers)[old(canon)[n]], headBlock, headTime)
      ensures Stops(old(headers), old(currentHeader), currentHeader, headBlock, headTime)
      ensures canon == map n | n in old(canon) && n <= currentHeader.number :: old(canon)[n]
      ensures if Done(old(currentHeader), headBlock, headTime) then headers == old(headers) && td == old(td)
              else
                && headers == Below(old(headers), currentHeader.number)
                && td == old(td) - Over(old(headers), currentHeader.number)
    {
      var origin := true;
      var dropped: set<Hash>, unnumbered: set<nat> := {}, {};
      ghost var s, head := headers, currentHeader;
      while !Done(currentHeader, headBlock, headTime)
        invariant headers == s && td == old(td) && canon == old(canon)
        invariant headHeaderHash == currentHeaderHash == currentHeader.hash
        invariant Rewinding(s, head, currentHeader, origin, dropped, unnumbered, headBlock, headTime)
        decreases currentHeader.number
      {
        var hdr := currentHeader;
        assert hdr.number > 0;
        var above := GetHeader(headers, hdr.parent, hdr.number - 1);
        var parent := match above case Some(p) => p case None => headers[GENESIS];
        headHeaderHash := parent.hash;
        currentHeader := parent;
        currentHeaderHash := parent.hash;
        var more, numbers := CollectLevels(hdr, origin);
        RewindStep(s, head, hdr, origin, dropped, unnumbered, headBlock, headTime, more, numbers);
        dropped, unnumbered := dropped + more, unnumbered + numbers;
        origin := false;
      }
      FinishRewind(s, td, head, currentHeader, origin, dropped, unnumbered, headBlock, headTime);
      TargetReached(s, head, currentHeader, origin, dropped, unnumbered, headBlock, headTime);
      Commit(dropped, unnumbered);
    }

    // -------------------------------------------------------------- GetAncestor

    /** The ancestor `ancestor` links up, found through the canonical index as soon as the walk reaches it.  At most
        `maxNonCanonical` links are followed off the canonical chain.  An unknown block has no ancestors, except that
        the empty hash above the head is taken for canonical. */
    method GetAncestor(hash: Hash, number: nat, ancestor: nat, maxNonCanonical: nat)
        returns (h: Hash, n: nat, left: nat)
      requires Valid()
      ensures GetHeader(headers, hash, number).Some? && ancestor <= number ==>
        var steps := if ancestor < OffCanonical(headers, canon, hash) then ancestor
          else OffCanonical(headers, canon, hash);
        if ancestor == 1 then (h, n, left) == (Anc(headers, hash, number - 1), number - 1, maxNonCanonical)
        else if steps <= maxNonCanonical
          then (h, n, left) == (Anc(headers, hash, number - ancestor), number - ancestor, maxNonCanonical - steps)
        else (h, n, left) == (ZERO, 0, 0)
      ensures ancestor > number ==> (h, n, left) == (ZERO, 0, maxNonCanonical)
      ensures GetHeader(headers, hash, number).None? && 0 < ancestor <= number ==>
        (h, n) == if hash == ZERO && ancestor != 1 && currentHeader.number < number
                  then (ReadCanonical(canon, number - ancestor), number - ancestor) else (ZERO, 0)
      ensures ancestor == 0 ==> (h, n, left) == (hash, number, maxNonCanonical)
    {
      left := maxNonCanonical;
      if ancestor > number {
        return ZERO, 0, left;
      }
      if ancestor == 1 {
        match GetHeader(headers, hash, number)
        case Some(header) =>
          assert header.parent == Up(headers, hash);
          return header.parent, number - 1, left;
        case None =>
          return ZERO, 0, left;
      }
      var todo: nat := ancestor;
      h, n := hash, number;
      ghost var known := GetHeader(headers, hash, number).Some?;
      while todo != 0
        invariant todo <= ancestor <= number && n - todo == number - ancestor && 0 <= left <= maxNonCanonical
        invariant maxNonCanonical - left == ancestor - todo
        invariant known ==> GetHeader(headers, h, n).Some? && h == Anc(headers, hash, n)
        invariant known ==> OffCanonical(headers, canon, hash) == OffCanonical(headers, canon, h) + (ancestor - todo)
        invariant !known ==> h == hash && n == number && todo == ancestor
        decreases todo
      {
        if ReadCanonical(canon, n) == h {
          if known {
            CanonicalAncestor(headers, currentHeaderHash, h, n - todo);
            AncOfAnc(headers, hash, n - todo, n);
          }
          return ReadCanonical(canon, n - todo), n - todo, left;
        }
        if left == 0 {
          return ZERO, 0, left;
        }
        left, todo := left - 1, todo - 1;
        match GetHeader(headers, h, n)
        case None =>
          return ZERO, 0, left;
        case Some(header) =>
          assert header.parent == Up(headers, h);
          AncOfAnc(headers, hash, n - 1, n);
          h, n := header.parent, n - 1;
      }
    }

    /** Adds the canonical entries of a contiguous list to a batch, taking each hash from the next header's parent
        link. */
    method WriteForward(hs: seq<Header>, batch0: Batch) returns (batch: Batch)
      requires hs != [] && Contiguous(hs)
      ensures WritesSpan(hs, batch0, batch)
    {
      batch := batch0;
      var i := 0;
      while i < |hs| - 1
        invariant 0 <= i <= |hs| - 1 && WritesPrefix(hs, i, batch0, batch)
      {
        WriteOne(hs, i, batch0, batch);
        batch := batch[hs[i].number := hs[i + 1].parent];
        i := i + 1;
      }
      WriteOne(hs, i, batch0, batch);
      batch := batch[hs[|hs| - 1].number := hs[|hs| - 1].hash];
    }
  }

  /** A rewind to a number the head is already at leaves what is stored above it: here a header imported without
      becoming the head, and a rewind to genesis that keeps it. */
  method IdleRewind() returns (hc: HeaderChain)
    ensures hc.Valid() && hc.currentHeader.number == 0 && 5 in hc.headers && hc.headers[5].number == 1
  {
    hc := new HeaderChain(Header(GENESIS, 0, ZERO, 1, 0, 0, 0, []));
    var child := Header(5, 1, GENESIS, 1, 1, 0, 0, []);
    assert CanAttach(hc.headers, child);
    assert [child][1..] == [];
    assert ParentFirst(hc.headers, [child]);
    var inserted, err := hc.WriteHeaders([child], false);
    StoredSnoc(map[GENESIS := Header(GENESIS, 0, ZERO, 1, 0, 0, 0, [])], [child], 0);
    assert [child][..1] == [child] && [child][..0] == [];
    hc.SetHead(0, 0);
  }

  /** The empty hash above the head is taken for canonical: asked for its second ancestor at number two, a fresh chain
      answers with the genesis. */
  method EmptyHashAncestor() returns (h: Hash, n: nat)
    ensures h == GENESIS && n == 0
  {
    var hc := new HeaderChain(Header(GENESIS, 0, ZERO, 1, 0, 0, 0, []));
    assert hc.canon[0] == GENESIS;
    var left;
    h, n, left := hc.GetAncestor(ZERO, 2, 2, 0);
  }

  /** The hash the header at position `i` must name as its parent. */
  ghost function Before(hs: seq<Header>, i: nat): Hash
    requires hs != [] && i <= |hs|
  {
    if i == 0 then hs[0].parent else hs[i - 1].hash
  }

  /** `t` and `u` are the store and the difficulties with the first `i` headers added. */
  ghost predicate Importing(s: Store, t: Store, u: map<Hash, nat>, hs: seq<Header>, i: nat)
    requires hs != [] && i <= |hs|
  {
    Closed(t) && TdLaw(t, u) && t == Chain.Stored(s, hs[..i]) && Extends(s, t) && Before(hs, i) in t
  }

  /** One turn of the import loop keeps the law; for a header stored before, the turn changes nothing. */
  lemma ImportStep(s: Store, t: Store, u: map<Hash, nat>, hs: seq<Header>, i: nat)
    requires Closed(s) && i < |hs| && Contiguous(hs) && ParentFirst(s, hs) && Importing(s, t, u, hs, i)
    ensures var b := hs[i];
      && b.parent == Before(hs, i) && b.parent in u
      && Importing(s, t[b.hash := b], u[b.hash := u[b.parent] + b.difficulty], hs, i + 1)
      && (b.hash in s ==> b.parent in s && t[b.hash := b] == t && u[b.hash := u[b.parent] + b.difficulty] == u)
  {
    var b := hs[i];
    AttachAt(s, hs, i);
    StoredSnoc(s, hs, i);
    AddBlock(t, u, b);
    if b.hash in s {
      AddKnownBlock(t, u, b);
      assert Up(s, b.hash) == b.parent;
    }
  }

  /** The state of the import loop: of the first `i` headers exactly the last `inserted` were not stored before, `known`
      says whether the last one was, and `newTd` is its total difficulty. */
  ghost predicate Collecting(s: Store, t: Store, u: map<Hash, nat>, hs: seq<Header>, i: nat, inserted: nat,
      known: bool, newTd: nat)
    requires hs != [] && i <= |hs|
  {
    && Importing(s, t, u, hs, i) && Before(hs, i) in u && newTd == u[Before(hs, i)]
    && inserted <= i && (known <==> Before(hs, i) in s)
    && forall j :: 0 <= j < i ==> (hs[j].hash in s <==> j < i - inserted)
  }

  lemma CollectStep(s: Store, t: Store, u: map<Hash, nat>, hs: seq<Header>, i: nat, inserted: nat, known: bool,
      newTd: nat)
    requires Closed(s) && i < |hs| && Contiguous(hs) && ParentFirst(s, hs)
        && Collecting(s, t, u, hs, i, inserted, known, newTd)
    ensures var b := hs[i];
      && (i < |hs| - 1 ==> hs[i + 1].parent == b.hash)
      && if known && b.hash in s then Collecting(s, t, u, hs, i + 1, inserted, true, newTd + b.difficulty)
         else Collecting(s, t[b.hash := b], u[b.hash := newTd + b.difficulty], hs, i + 1, inserted + 1, false,
           newTd + b.difficulty)
  {
    var b := hs[i];
    ImportStep(s, t, u, hs, i);
    assert Before(hs, i + 1) == b.hash;
    assert b.hash in s ==> known;
  }

  /** How many parent links lead from `h` to its first canonical ancestor-or-self. */
  ghost function OffCanonical(s: Store, canon: map<nat, Hash>, h: Hash): nat
    requires Closed(s) && h in s
    decreases s[h].number
  {
    if ReadCanonical(canon, s[h].number) == h || s[h].number == 0 then 0 else 1 + OffCanonical(s, canon, Up(s, h))
  }

  lemma CanonicalAncestor(s: Store, head: Hash, h: Hash, n: nat)
    requires Closed(s) && head in s && h in s && n <= s[h].number && ReadCanonical(Path(s, head), s[h].number) == h
    ensures ReadCanonical(Path(s, head), n) == Anc(s, h, n)
  {
    AncOfAnc(s, head, n, s[h].number);
  }

  /** The rewind stops at this header: by number, or by time when a time is given. */
  predicate Done(b: Header, headBlock: nat, headTime: nat)
  {
    if headTime > 0 then b.time <= headTime else b.number <= headBlock
  }

  /** The state of a rewind from `head` that has come down to `cur`. */
  ghost predicate Rewinding(s: Store, head: Header, cur: Header, origin: bool, dropped: set<Hash>, unnumbered: set<nat>,
                            headBlock: nat, headTime: nat)
  {
    && Closed(s) && Has(s, head) && Has(s, cur) && IsAncestor(s, cur.hash, head.hash)
    && (origin ==> cur == head && dropped == {} && unnumbered == {})
    && (!origin ==> dropped == Over(s, cur.number) && cur.number < head.number)
    && (forall n :: cur.number < n <= head.number ==>
      n in unnumbered && !Done(s[Anc(s, head.hash, n)], headBlock, headTime))
    && (forall n :: n in unnumbered ==> cur.number < n)
  }

  /** A rewind from `head` stops at the target number, or stays below it; given a time, at the highest block on the way
      that is no later. */
  ghost predicate Stops(s: Store, head: Header, cur: Header, headBlock: nat, headTime: nat)
    requires Closed(s) && Has(s, head)
  {
    if headTime == 0 then cur.number == if headBlock < head.number then headBlock else head.number
    else
      && cur.time <= headTime
      && forall n :: cur.number < n <= head.number ==> s[Anc(s, head.hash, n)].time > headTime
  }

  lemma TargetReached(s: Store, head: Header, cur: Header, origin: bool, dropped: set<Hash>, unnumbered: set<nat>,
                      headBlock: nat, headTime: nat)
    requires Rewinding(s, head, cur, origin, dropped, unnumbered, headBlock, headTime) && Done(cur, headBlock, headTime)
    ensures Stops(s, head, cur, headBlock, headTime)
  {
    if cur.number < head.number {
      assert !Done(s[Anc(s, head.hash, cur.number + 1)], headBlock, headTime);
    } else {
      assert cur == head;
    }
  }

  lemma RewindStep(s: Store, head: Header, cur: Header, origin: bool, dropped: set<Hash>, unnumbered: set<nat>,
                   headBlock: nat, headTime: nat, more: set<Hash>, numbers: set<nat>)
    requires Rewinding(s, head, cur, origin, dropped, unnumbered, headBlock, headTime)
    requires cur.number > 0 && !Done(cur, headBlock, headTime)
    requires more == if origin then Over(s, cur.number - 1) else set h | h in s && s[h].number == cur.number
    requires cur.number in numbers && forall n :: n in numbers ==> n >= cur.number
    ensures cur.parent in s && s[cur.parent].number == cur.number - 1
    ensures Rewinding(s, head, s[cur.parent], false, dropped + more, unnumbered + numbers, headBlock, headTime)
  {
    assert cur.parent == Up(s, cur.hash);
    AncStep(s, head.hash, cur.number);
  }

  ghost function Over(s: Store, n: int): set<Hash>
  {
    set h | h in s && s[h].number > n
  }

  ghost function Below(s: Store, n: nat): Store
  {
    map h | h in s && s[h].number <= n :: s[h]
  }

  /** Above an empty level there is nothing. */
  lemma {:induction false} EmptyLevel(s: Store, h: Hash, n: nat)
    requires Closed(s) && h in s && forall k :: k in s ==> s[k].number != n
    requires n > 0
    ensures s[h].number < n
    decreases s[h].number
  {
    if s[h].number > n {
      EmptyLevel(s, Up(s, h), n);
    }
  }

  /** Flushing the deletions of a rewind leaves a closed store, cut at the new head, with the new head's index. */
  lemma FinishRewind(s: Store, td: map<Hash, nat>, head: Header, cur: Header, origin: bool, dropped: set<Hash>,
                     unnumbered: set<nat>, headBlock: nat, headTime: nat)
    requires Rewinding(s, head, cur, origin, dropped, unnumbered, headBlock, headTime) && TdLaw(s, td)
    ensures s - dropped == if origin then s else Below(s, cur.number)
    ensures td - dropped == if origin then td else td - Over(s, cur.number)
    ensures Closed(s - dropped) && TdLaw(s - dropped, td - dropped) && Has(s - dropped, cur)
    ensures Path(s - dropped, cur.hash) == Path(s, head.hash) - unnumbered
    ensures Path(s, head.hash) - unnumbered == map n | n in Path(s, head.hash) && n <= cur.number ::
        Path(s, head.hash)[n]
  {
    CutIndex(s, head.hash, cur.hash, unnumbered);
    if origin {
      assert s - dropped == s && td - dropped == td;
    } else {
      assert s - dropped == Below(s, cur.number);
      CutCloses(s, cur.number);
      CutTd(s, td, cur.number);
      PathExtends(Below(s, cur.number), s, cur.hash);
    }
  }

  lemma CutIndex(s: Store, head: Hash, h: Hash, unnumbered: set<nat>)
    requires Closed(s) && head in s && IsAncestor(s, h, head)
    requires forall n :: s[h].number < n <= s[head].number ==> n in unnumbered
    requires forall n :: n in unnumbered ==> s[h].number < n
    ensures Path(s, head) - unnumbered == Path(s, h)
    ensures Path(s, h) == map n | n in Path(s, head) && n <= s[h].number :: Path(s, head)[n]
  {
    forall n | 0 <= n <= s[h].number ensures Anc(s, head, n) == Anc(s, h, n) {
      AncOfAnc(s, head, n, s[h].number);
    }
  }

  lemma CutCloses(s: Store, n: nat)
    requires Closed(s)
    ensures Closed(Below(s, n)) && Extends(Below(s, n), s)
  {
    var t := Below(s, n);
    assert forall k {:trigger Up(t, k)} :: k in t ==> Up(t, k) == Up(s, k);
  }

  lemma CutTd(s: Store, td: map<Hash, nat>, n: nat)
    requires Closed(s) && TdLaw(s, td) && Closed(Below(s, n))
    ensures TdLaw(Below(s, n), td - Over(s, n))
  {
    var t := Below(s, n);
    var u := td - Over(s, n);
    assert u.Keys == t.Keys;
    assert forall k {:trigger Up(t, k)} :: k in t ==> Up(t, k) == Up(s, k);
  }

  /** The batch with the hashes of the first `i` headers written over it. */
  ghost predicate WritesPrefix(hs: seq<Header>, i: nat, batch0: Batch, batch: Batch)
    requires hs != [] && i <= |hs|
  {
    var first := hs[0].number;
    && (forall n :: n in batch <==> n in batch0 || first <= n < first + i)
    && (forall n :: n in batch ==> batch[n] == if first <= n < first + i then hs[n - first].hash else batch0[n])
  }

  ghost predicate WritesSpan(hs: seq<Header>, batch0: Batch, batch: Batch)
    requires hs != []
  {
    WritesPrefix(hs, |hs|, batch0, batch)
  }

  lemma WriteOne(hs: seq<Header>, i: nat, batch0: Batch, batch: Batch)
    requires i < |hs| && Contiguous(hs) && WritesPrefix(hs, i, batch0, batch)
    ensures i < |hs| - 1 ==> hs[i + 1].parent == hs[i].hash
    ensures WritesPrefix(hs, i + 1, batch0, batch[hs[i].number := hs[i].hash])
  {
    var next := batch[hs[i].number := hs[i].hash];
    assert hs[i].number == hs[0].number + i;
    assert forall n :: n in next <==> n in batch || n == hs[i].number;
  }

  /** The headers of a stored contiguous list are consecutive ancestors of its last one. */
  lemma {:induction false} SpanIsAncestry(s: Store, hs: seq<Header>, i: nat)
    requires Closed(s) && Span(s, hs) && i < |hs|
    ensures Last(hs) in hs && hs[i] in hs && hs[i].number <= Last(hs).number
    ensures Anc(s, Last(hs).hash, hs[i].number) == hs[i].hash
    decreases |hs| - i
  {
    assert Has(s, Last(hs)) && Has(s, hs[i]);
    if i < |hs| - 1 {
      SpanIsAncestry(s, hs, i + 1);
      AncStep(s, Last(hs).hash, hs[i + 1].number);
    }
  }

  lemma SpanWrites(s: Store, hs: seq<Header>, low: Batch, batch: Batch)
    requires Closed(s) && Span(s, hs) && WritesSpan(hs, low, batch)
    ensures var first, last := hs[0], Last(hs);
      && Has(s, first) && Has(s, last) && first.number <= last.number && Anc(s, last.hash, first.number) == first.hash
      && (forall n :: n in batch <==> n in low || first.number <= n <= last.number)
      && (forall n :: n in batch ==> batch[n] == if first.number <= n <= last.number then Anc(s, last.hash, n)
        else low[n])
  {
    SpanIsAncestry(s, hs, 0);
    forall n | hs[0].number <= n <= Last(hs).number ensures n in batch && batch[n] == Anc(s, Last(hs).hash, n) {
      SpanIsAncestry(s, hs, n - hs[0].number);
    }
  }

  /** What the batch of a reorg amounts to.  `low` is the batch before the forward writes: it rewrites the numbers above
      the cross link up to the first header and deletes those above the last, up to `to`. */
  lemma ReorgFlush(s: Store, canon: map<nat, Hash>, head: Header, first: Header, last: Header,
                   low: Batch, batch: Batch, cross: int, to: nat)
    requires Closed(s) && Has(s, head) && canon == Path(s, head.hash) && Has(s, first) && Has(s, last)
    requires first.number <= last.number && Anc(s, last.hash, first.number) == first.hash
    requires forall n :: n in batch <==> n in low || first.number <= n <= last.number
    requires forall n :: n in batch ==> batch[n] == if first.number <= n <= last.number then Anc(s, last.hash, n)
        else low[n]
    requires -1 <= cross <= first.number && last.number < to
    requires forall n :: n in low ==>
      || (cross < n <= first.number && low[n] == Anc(s, first.hash, n))
      || (last.number < n < to && low[n] == ZERO)
    requires || (low == map[] && first.parent == head.hash && cross == first.number - 1 && to == last.number + 1)
             || (&& (forall n :: cross < n <= first.number || last.number < n < to ==> n in low)
                 && (0 <= cross ==> ReadCanonical(canon, cross) == Anc(s, first.hash, cross))
                 && ReadCanonical(canon, to) == ZERO)
    ensures Flushed(canon, batch) == Path(s, last.hash)
  {
    assert first.parent == Up(s, first.hash);
    assert first.parent == head.hash ==> first.number == head.number + 1;
    assert forall n :: n in canon ==> canon[n] in s;
    assert head.number < to by {
      assert to in canon <==> to <= head.number;
    }
    forall n | n in batch ensures batch[n] == if n <= last.number then Anc(s, last.hash, n) else ZERO {
      if n < first.number {
        AncOfAnc(s, last.hash, n, first.number);
      }
    }
    forall n | 0 <= n <= last.number && n !in batch
      ensures n <= head.number && Anc(s, head.hash, n) == Anc(s, last.hash, n)
    {
      CrossMeets(s, canon, head, first, last, cross, n);
    }
    FlushIsPath(s, canon, head.hash, last.hash, batch);
  }

  lemma CrossMeets(s: Store, canon: map<nat, Hash>, head: Header, first: Header, last: Header, cross: int, n: nat)
    requires Closed(s) && Has(s, head) && canon == Path(s, head.hash) && Has(s, first) && Has(s, last)
    requires first.number <= last.number && Anc(s, last.hash, first.number) == first.hash
    requires n <= cross <= first.number
    requires || (first.parent == head.hash && first.number == head.number + 1 && cross == head.number)
             || ReadCanonical(canon, cross) == Anc(s, first.hash, cross)
    ensures n <= head.number && Anc(s, head.hash, n) == Anc(s, last.hash, n)
  {
    AncOfAnc(s, last.hash, n, first.number);
    if first.parent == head.hash && first.number == head.number + 1 && cross == head.number {
    } else {
      assert Anc(s, first.hash, cross) in s;
      assert cross in canon;
      MeetBelow(s, head.hash, first.hash, n, cross);
    }
  }
}
