/**
 Fork choice: which of two headers the node prefers as its head.

 The random draw between equally heavy blocks of different validators is the parameter `coin`.
 The engine's justified number is the function `justified`; the tables it reads are not modelled.
 */
module ForkChoice {
  import opened Common
  import opened Chain

  datatype Config = Config(posa: bool, platoBlock: Option<nat>, ttd: Option<nat>, justified: Header -> nat)

  datatype Decision = Decide(reorg: bool) | MissingTd | UnknownAncestor

  predicate IsPlato(c: Config, number: nat)
  {
    c.platoBlock.Some? && c.platoBlock.value <= number
  }

  /** The number compared first; zero outside a proof-of-staked-authority engine or before Plato. */
  function Justified(c: Config, h: Header): nat
  {
    if c.posa && IsPlato(c, h.number) then c.justified(h) else 0
  }

  /** The stored total difficulty of a header, or the one it would get on its stored parent. */
  function ExternTd(td: map<Hash, nat>, h: Header): Option<nat>
  {
    if h.hash in td then Some(td[h.hash])
    else if h.parent in td then Some(td[h.parent] + h.difficulty)
    else None
  }

  function ReorgNeeded(c: Config, td: map<Hash, nat>, current: Header, extern: Header, coin: bool): Decision
  {
    if current.hash !in td then MissingTd
    else
      match ExternTd(td, extern)
      case None => UnknownAncestor
      case Some(externTd) =>
        var localTd := td[current.hash];
        if c.ttd.Some? && c.ttd.value <= externTd then Decide(true)
        else if externTd > localTd then Decide(true)
        else if externTd < localTd then Decide(false)
        else if extern.number < current.number then Decide(true)
        else if extern.number > current.number then Decide(false)
        else if extern.time != current.time then Decide(extern.time < current.time)
        else if extern.coinbase == current.coinbase then Decide(extern.hash < current.hash)
        else Decide(coin)
  }

  function ReorgNeededWithFastFinality(c: Config, td: map<Hash, nat>, current: Header, extern: Header,
      coin: bool): Decision
  {
    if !c.posa then ReorgNeeded(c, td, current, extern, coin)
    else
      var justified := if IsPlato(c, extern.number) then c.justified(extern) else 0;
      var curJustified := if IsPlato(c, current.number) then c.justified(current) else 0;
      if justified == curJustified then ReorgNeeded(c, td, current, extern, coin)
      else Decide(justified > curJustified)
  }

  /** From the Plato block on the engine's justified numbers decide first; before it they count as zero. */
  lemma FinalityDecides(c: Config, td: map<Hash, nat>, current: Header, extern: Header, coin: bool, p: nat)
    requires c.posa && c.platoBlock == Some(p)
    ensures var je := if extern.number >= p then c.justified(extern) else 0;
      var jc := if current.number >= p then c.justified(current) else 0;
      ReorgNeededWithFastFinality(c, td, current, extern, coin)
      == if je != jc then Decide(je > jc) else ReorgNeeded(c, td, current, extern, coin)
  {
  }

  /** Without such an engine, or without a Plato block, only the difficulties count. */
  lemma NoFinality(c: Config, td: map<Hash, nat>, current: Header, extern: Header, coin: bool)
    requires !c.posa || c.platoBlock.None?
    ensures ReorgNeededWithFastFinality(c, td, current, extern, coin) == ReorgNeeded(c, td, current, extern, coin)
  {
  }

  /** The comparison of difficulties in the headers' own terms: it fails without the current total or any total to give
      the other header, follows a header past the terminal total difficulty, and otherwise prefers the heavier, the
      lower, the earlier, the smaller hash of one validator, and the draw. */
  lemma ReorgExact(c: Config, td: map<Hash, nat>, current: Header, extern: Header, coin: bool)
    ensures var d := ReorgNeeded(c, td, current, extern, coin);
      var known := extern.hash in td || extern.parent in td;
      && (d == MissingTd <==> current.hash !in td)
      && (d == UnknownAncestor <==> current.hash in td && !known)
      && (current.hash in td && known ==>
            var own, other := td[current.hash],
                if extern.hash in td then td[extern.hash] else td[extern.parent] + extern.difficulty;
            d == Decide(
              || (c.ttd.Some? && c.ttd.value <= other)
              || other > own
              || (other == own && extern.number < current.number)
              || (other == own && extern.number == current.number && extern.time < current.time)
              || (&& other == own && extern.number == current.number && extern.time == current.time
                  && if extern.coinbase == current.coinbase then extern.hash < current.hash else coin)))
  {
  }

  // ---------------------------------------------------------------- the order behind the decisions

  ghost function Weight(td: map<Hash, nat>, h: Header): nat
  {
    if h.hash in td then td[h.hash] else 0
  }

  /** `a` is preferred to `b`: higher justified number, then heavier, then lower, then earlier, then smaller hash. */
  ghost predicate Above(c: Config, td: map<Hash, nat>, a: Header, b: Header)
  {
    var ja, jb := Justified(c, a), Justified(c, b);
    var ta, tb := Weight(td, a), Weight(td, b);
    || ja > jb
    || (ja == jb && ta > tb)
    || (ja == jb && ta == tb && a.number < b.number)
    || (ja == jb && ta == tb && a.number == b.number && a.time < b.time)
    || (ja == jb && ta == tb && a.number == b.number && a.time == b.time && a.hash < b.hash)
  }

  /** Nothing but the validator and the hash tells the two apart, and the validators differ. */
  ghost predicate Tied(c: Config, td: map<Hash, nat>, a: Header, b: Header)
  {
    && Justified(c, a) == Justified(c, b) && Weight(td, a) == Weight(td, b)
    && a.number == b.number && a.time == b.time && a.coinbase != b.coinbase
  }

  /** Without a terminal total difficulty the nested comparisons are this one order, except on a tie, where the draw
      decides. */
  lemma DecisionIsOrder(c: Config, td: map<Hash, nat>, current: Header, extern: Header, coin: bool)
    requires c.ttd.None? && current.hash in td && extern.hash in td
    ensures ReorgNeededWithFastFinality(c, td, current, extern, coin)
            == Decide(if Tied(c, td, extern, current) then coin else Above(c, td, extern, current))
  {
  }

  /** The order is a strict total order on headers with distinct hashes. */
  lemma OrderIsStrictTotal(c: Config, td: map<Hash, nat>, x: Header, y: Header, z: Header)
    ensures !Above(c, td, x, x)
    ensures Above(c, td, x, y) ==> !Above(c, td, y, x)
    ensures Above(c, td, x, y) && Above(c, td, y, z) ==> Above(c, td, x, z)
    ensures x.hash != y.hash ==> Above(c, td, x, y) || Above(c, td, y, x)
  {
  }

  /** Each of two untied headers displaces the other exactly when both have equal justified numbers and
      both have reached the terminal total difficulty. */
  lemma MutualDisplacement(c: Config, td: map<Hash, nat>, a: Header, b: Header, coin: bool)
    requires a.hash in td && b.hash in td && a.hash != b.hash && !Tied(c, td, a, b)
    ensures (&& ReorgNeededWithFastFinality(c, td, a, b, coin) == Decide(true)
             && ReorgNeededWithFastFinality(c, td, b, a, coin) == Decide(true))
            <==> (&& Justified(c, a) == Justified(c, b) && c.ttd.Some?
                  && c.ttd.value <= td[a.hash] && c.ttd.value <= td[b.hash])
  {
  }

  /** Two headers that displace each other: both are past a terminal total difficulty of one. */
  lemma DisplacementExample()
    ensures var c := Config(false, None, Some(1), (h: Header) => 0);
      var a, b := Header(5, 1, GENESIS, 1, 0, 0, 0, []), Header(6, 1, GENESIS, 2, 0, 0, 0, []);
      var td: map<Hash, nat> := map[5 := 2, 6 := 3];
      && !Tied(c, td, a, b)
      && (forall coin :: ReorgNeededWithFastFinality(c, td, a, b, coin) == Decide(true))
      && (forall coin :: ReorgNeededWithFastFinality(c, td, b, a, coin) == Decide(true))
  {
  }

  // ---------------------------------------------------------------- runs of arriving blocks

  /** What the arrival of blocks changes: the store, the difficulties and the head. */
  datatype View = View(store: Store, td: map<Hash, nat>, head: Header)

  ghost predicate ValidView(v: View)
  {
    Closed(v.store) && TdLaw(v.store, v.td) && Has(v.store, v.head)
  }

  /** One call of writeBlockAndSetHead: the fork choice is asked first, then the block is written. */
  ghost function Arrive(c: Config, v: View, b: Header, coin: bool): View
  {
    var d := ReorgNeededWithFastFinality(c, v.td, v.head, b, coin);
    if !d.Decide? || b.parent !in v.td then v else Written(v, b, d.reorg)
  }

  ghost function Written(v: View, b: Header, reorg: bool): View
    requires b.parent in v.td
  {
    View(v.store[b.hash := b], v.td[b.hash := v.td[b.parent] + b.difficulty], if reorg then b else v.head)
  }

  /** Writing a block that is stored already changes nothing. */
  lemma WrittenKnown(v: View, b: Header)
    requires ValidView(v) && CanAttach(v.store, b) && b.hash in v.store
    ensures Written(v, b, false) == v && v.td[b.hash] == v.td[b.parent] + b.difficulty
  {
    AddKnownBlock(v.store, v.td, b);
  }

  ghost function Run(c: Config, v: View, bs: seq<Header>, coins: seq<bool>): View
    requires |bs| == |coins|
    decreases |bs|
  {
    if bs == [] then v else Run(c, Arrive(c, v, bs[0], coins[0]), bs[1..], coins[1..])
  }

  /** With the parent known the fork choice never fails, so the block is always written; otherwise nothing is. */
  lemma ArriveWrites(c: Config, v: View, b: Header, coin: bool)
    requires v.head.hash in v.td
    ensures var d := ReorgNeededWithFastFinality(c, v.td, v.head, b, coin);
      if b.parent in v.td then d.Decide? && Arrive(c, v, b, coin) == Written(v, b, d.reorg)
      else !d.MissingTd? && Arrive(c, v, b, coin) == v
  {
  }

  lemma ArriveKeepsValid(c: Config, v: View, b: Header, coin: bool)
    requires ValidView(v) && CanAttach(v.store, b)
    ensures ValidView(Arrive(c, v, b, coin))
    ensures Arrive(c, v, b, coin).store == v.store[b.hash := b]
    ensures Arrive(c, v, b, coin).td == v.td[b.hash := v.td[b.parent] + b.difficulty]
    ensures GrowsTd(v.td, Arrive(c, v, b, coin).td)
  {
    ArriveWrites(c, v, b, coin);
    AddBlock(v.store, v.td, b);
    if b.hash in v.store {
      AddKnownBlock(v.store, v.td, b);
    }
  }

  ghost predicate GrowsTd(td: map<Hash, nat>, td': map<Hash, nat>)
  {
    forall h :: h in td ==> h in td' && td'[h] == td[h]
  }

  /** The head's justified number never drops, and neither does its total difficulty while the justified number
      stays. */
  ghost predicate NoDrop(c: Config, v: View, w: View)
  {
    var jv, jw := Justified(c, v.head), Justified(c, w.head);
    jv < jw || (jv == jw && Weight(w.td, v.head) <= Weight(w.td, w.head))
  }

  lemma ArriveNoDrop(c: Config, v: View, b: Header, coin: bool)
    requires c.ttd.None? && ValidView(v) && CanAttach(v.store, b)
    ensures NoDrop(c, v, Arrive(c, v, b, coin))
  {
    ArriveWrites(c, v, b, coin);
    ArriveDecides(c, v, b, coin);
  }

  /** The decision taken before the write is the order's verdict on the table after the write. */
  lemma DecidesOnNewTable(c: Config, td: map<Hash, nat>, head: Header, b: Header, coin: bool)
    requires c.ttd.None? && head.hash in td && b.parent in td
    requires b.hash in td ==> td[b.hash] == td[b.parent] + b.difficulty
    ensures var td' := td[b.hash := td[b.parent] + b.difficulty];
      ReorgNeededWithFastFinality(c, td, head, b, coin)
      == Decide(if Tied(c, td', b, head) then coin else Above(c, td', b, head))
  {
    var td' := td[b.hash := td[b.parent] + b.difficulty];
    assert ExternTd(td, b) == Some(td'[b.hash]);
    if b.hash in td {
      assert td' == td;
    }
    DecisionIsOrder(c, td', head, b, coin);
  }

  lemma ArriveDecides(c: Config, v: View, b: Header, coin: bool)
    requires c.ttd.None? && ValidView(v) && CanAttach(v.store, b)
    ensures var td' := v.td[b.hash := v.td[b.parent] + b.difficulty];
      ReorgNeededWithFastFinality(c, v.td, v.head, b, coin)
      == Decide(if Tied(c, td', b, v.head) then coin else Above(c, td', b, v.head))
  {
    if b.hash in v.store {
      AddKnownBlock(v.store, v.td, b);
    }
    DecidesOnNewTable(c, v.td, v.head, b, coin);
  }

  /** However the draws fall, no run of arrivals lets the head's (justified number, total difficulty) drop. */
  lemma {:induction false} HeadNeverDrops(c: Config, v: View, bs: seq<Header>, coins: seq<bool>)
    requires c.ttd.None? && ValidView(v) && |bs| == |coins| && ParentFirst(v.store, bs)
    ensures ValidView(Run(c, v, bs, coins))
    ensures GrowsTd(v.td, Run(c, v, bs, coins).td)
    ensures NoDrop(c, v, Run(c, v, bs, coins))
    decreases |bs|
  {
    if bs != [] {
      var v1 := Arrive(c, v, bs[0], coins[0]);
      ArriveKeepsValid(c, v, bs[0], coins[0]);
      ArriveNoDrop(c, v, bs[0], coins[0]);
      HeadNeverDrops(c, v1, bs[1..], coins[1..]);
      assert v.head.hash in v.td && v1.head.hash in v1.td;
    }
  }

  lemma {:induction false} RunHeadAmong(c: Config, v: View, bs: seq<Header>, coins: seq<bool>)
    requires |bs| == |coins|
    ensures Run(c, v, bs, coins).head == v.head || Run(c, v, bs, coins).head in bs
    decreases |bs|
  {
    if bs != [] {
      RunHeadAmong(c, Arrive(c, v, bs[0], coins[0]), bs[1..], coins[1..]);
    }
  }

  /** Past the Plato block the engine's justified number of the head never drops along a run, and while it stays neither
      does the head's total difficulty. */
  lemma JustifiedNeverDrops(c: Config, v: View, bs: seq<Header>, coins: seq<bool>, p: nat)
    requires c.posa && c.platoBlock == Some(p) && v.head.number >= p && forall b :: b in bs ==> b.number >= p
    requires c.ttd.None? && ValidView(v) && |bs| == |coins| && ParentFirst(v.store, bs)
    ensures var w := Run(c, v, bs, coins);
      && w.head.hash in w.td && v.head.hash in w.td && w.td[v.head.hash] == v.td[v.head.hash]
      && (c.justified(v.head) < c.justified(w.head)
          || (c.justified(v.head) == c.justified(w.head) && v.td[v.head.hash] <= w.td[w.head.hash]))
  {
    HeadNeverDrops(c, v, bs, coins);
    RunHeadAmong(c, v, bs, coins);
  }

  /** `m` is preferred to every other block of `bs`. */
  ghost predicate IsTop(c: Config, td: map<Hash, nat>, m: Header, bs: set<Header>)
  {
    m in bs && forall b :: b in bs && b != m ==> Above(c, td, m, b)
  }

  ghost predicate NoTies(c: Config, td: map<Hash, nat>, bs: set<Header>)
  {
    forall a, b :: a in bs && b in bs ==> !Tied(c, td, a, b)
  }

  ghost predicate AllIn(s: Store, bs: set<Header>)
  {
    forall b :: b in bs ==> Has(s, b)
  }

  ghost function Blocks(bs: seq<Header>): set<Header>
  {
    set b | b in bs
  }

  lemma {:induction false} RunStores(c: Config, v: View, bs: seq<Header>, coins: seq<bool>)
    requires ValidView(v) && |bs| == |coins| && ParentFirst(v.store, bs)
    ensures ValidView(Run(c, v, bs, coins))
    ensures Run(c, v, bs, coins).store == Stored(v.store, bs)
    ensures GrowsTd(v.td, Run(c, v, bs, coins).td)
    decreases |bs|
  {
    if bs != [] {
      ArriveKeepsValid(c, v, bs[0], coins[0]);
      RunStores(c, Arrive(c, v, bs[0], coins[0]), bs[1..], coins[1..]);
    }
  }

  lemma TopStep(c: Config, td: map<Hash, nat>, td': map<Hash, nat>, head: Header, b: Header, seen: set<Header>)
    requires GrowsTd(td, td') && IsTop(c, td, head, seen)
    requires forall x :: x in seen ==> x.hash in td && (x.hash == b.hash ==> x == b)
    ensures IsTop(c, td', if Above(c, td', b, head) then b else head, seen + {b})
  {
    forall x | x in seen ensures x != head ==> Above(c, td', head, x) {
      assert Weight(td', x) == Weight(td, x) && Weight(td', head) == Weight(td, head);
    }
    forall x | x in seen + {b} {
      OrderIsStrictTotal(c, td', b, head, x);
    }
  }

  lemma StepKeepsTop(c: Config, v: View, b: Header, coin: bool, seen: set<Header>)
    requires c.ttd.None? && ValidView(v) && CanAttach(v.store, b) && AllIn(v.store, seen)
    requires IsTop(c, v.td, v.head, seen)
    requires !Tied(c, Arrive(c, v, b, coin).td, b, v.head)
    ensures IsTop(c, Arrive(c, v, b, coin).td, Arrive(c, v, b, coin).head, seen + {b})
    ensures AllIn(Arrive(c, v, b, coin).store, seen + {b})
  {
    ArriveKeepsValid(c, v, b, coin);
    ArriveWrites(c, v, b, coin);
    ArriveDecides(c, v, b, coin);
    TopStep(c, v.td, Arrive(c, v, b, coin).td, v.head, b, seen);
  }

  /** Headers already tied or not stay so: later arrivals change no difficulty. */
  lemma TiesAreStable(c: Config, td: map<Hash, nat>, td': map<Hash, nat>, a: Header, b: Header)
    requires GrowsTd(td, td') && a.hash in td && b.hash in td
    ensures Tied(c, td, a, b) <==> Tied(c, td', a, b)
  {
  }

  /** The run ends on the most preferred block it has seen. */
  lemma {:induction false} RunEndsOnTop(c: Config, v: View, bs: seq<Header>, coins: seq<bool>, seen: set<Header>)
    requires c.ttd.None? && ValidView(v) && |bs| == |coins| && ParentFirst(v.store, bs)
    requires AllIn(v.store, seen) && IsTop(c, v.td, v.head, seen)
    requires NoTies(c, Run(c, v, bs, coins).td, seen + Blocks(bs))
    ensures IsTop(c, Run(c, v, bs, coins).td, Run(c, v, bs, coins).head, seen + Blocks(bs))
    decreases |bs|
  {
    if bs == [] {
      assert seen + Blocks(bs) == seen;
    } else {
      var b, rest := bs[0], bs[1..];
      var v1 := Arrive(c, v, b, coins[0]);
      assert seen + Blocks(bs) == (seen + {b}) + Blocks(rest) by { assert bs == [b] + rest; }
      FirstNotTied(c, v, bs, coins, seen);
      ArriveKeepsValid(c, v, b, coins[0]);
      StepKeepsTop(c, v, b, coins[0], seen);
      RunEndsOnTop(c, v1, rest, coins[1..], seen + {b});
    }
  }

  lemma FirstNotTied(c: Config, v: View, bs: seq<Header>, coins: seq<bool>, seen: set<Header>)
    requires ValidView(v) && |bs| == |coins| && bs != [] && ParentFirst(v.store, bs) && v.head in seen
    requires NoTies(c, Run(c, v, bs, coins).td, seen + Blocks(bs))
    ensures !Tied(c, Arrive(c, v, bs[0], coins[0]).td, bs[0], v.head)
  {
    var v1 := Arrive(c, v, bs[0], coins[0]);
    ArriveKeepsValid(c, v, bs[0], coins[0]);
    RunStores(c, v1, bs[1..], coins[1..]);
    assert bs[0] in seen + Blocks(bs) && v.head in seen + Blocks(bs);
    TiesAreStable(c, v1.td, Run(c, v, bs, coins).td, bs[0], v.head);
  }

  /** Two parent-first arrival orders of the same blocks end with the same store and the same head. */
  lemma ArrivalOrderIsIrrelevant(c: Config, v: View, bs: seq<Header>, cs: seq<bool>, bs': seq<Header>, cs': seq<bool>)
    requires c.ttd.None? && ValidView(v) && |bs| == |cs| && |bs'| == |cs'|
    requires ParentFirst(v.store, bs) && ParentFirst(v.store, bs') && Blocks(bs) == Blocks(bs')
    requires NoTies(c, Run(c, v, bs, cs).td, {v.head} + Blocks(bs))
    ensures Run(c, v, bs, cs) == Run(c, v, bs', cs')
  {
    var w, w' := Run(c, v, bs, cs), Run(c, v, bs', cs');
    RunStores(c, v, bs, cs);
    RunStores(c, v, bs', cs');
    SameStore(v.store, bs, bs');
    SameTd(w.store, w.td, w'.td);
    RunEndsOnTop(c, v, bs, cs, {v.head});
    RunEndsOnTop(c, v, bs', cs', {v.head});
    OrderIsStrictTotal(c, w.td, w.head, w'.head, w.head);
  }

  lemma SameStore(s: Store, bs: seq<Header>, bs': seq<Header>)
    requires ParentFirst(s, bs) && ParentFirst(s, bs') && Blocks(bs) == Blocks(bs')
    ensures Stored(s, bs) == Stored(s, bs')
  {
    StoredIsUnion(s, bs);
    StoredIsUnion(s, bs');
    forall b ensures b in bs <==> b in bs' {
      assert b in Blocks(bs) <==> b in Blocks(bs');
    }
    var t, t' := Stored(s, bs), Stored(s, bs');
    forall h ensures h in t <==> h in t' {
    }
    forall h | h in t ensures t[h] == t'[h] {
      if h !in s {
        var b :| b in bs && b.hash == h;
        assert Has(t, b) && Has(t', b);
      }
    }
  }

  lemma SameTd(s: Store, td: map<Hash, nat>, td': map<Hash, nat>)
    requires Closed(s) && TdLaw(s, td) && TdLaw(s, td')
    ensures td == td'
  {
    forall h | h in s ensures td[h] == td'[h] {
      TdIsPathSum(s, td, h);
      TdIsPathSum(s, td', h);
    }
  }
}
