/**
 The world state a transaction touches: balances of many native tokens, nonces, code, and the native token manager's
 flags and rates.  Storage is modelled only as far as the token manager's slots.
 */
module Ledger {
  import opened Common

  type Addr = int
  type Token = nat

  const DEFAULT_TOKEN: Token := 0
  const RATE_DENOMINATOR: nat := 1_000_000_000_000_000_000
  const TOKEN_MANAGER: Addr := 0x2007

  /** How many values a balance word has.  The node's balances are 256-bit words, so its size is two to the 256; nothing
      below depends on which size it is. */
  type WordSize = n: nat | n > 0 witness 1

  datatype Code = NoCode | Delegation(target: Addr) | Contract(id: int)

  type Book = map<Addr, nat>

  /** `doomed` holds the accounts that have self-destructed since the last finalisation. */
  datatype World = World(books: map<Token, Book>, nonces: map<Addr, nat>, code: map<Addr, Code>, accounts: set<Addr>,
                         gasAllowed: set<Token>, transferAllowed: set<Token>, rates: map<Token, nat>, refund: nat,
                         doomed: set<Addr>, word: WordSize)

  function BookOf(w: World, t: Token): Book
  {
    if t in w.books then w.books[t] else map[]
  }

  function Entry(b: Book, a: Addr): nat
  {
    if a in b then b[a] else 0
  }

  function Balance(w: World, a: Addr, t: Token): nat
  {
    Entry(BookOf(w, t), a)
  }

  function Nonce(w: World, a: Addr): nat
  {
    if a in w.nonces then w.nonces[a] else 0
  }

  function CodeOf(w: World, a: Addr): Code
  {
    if a in w.code then w.code[a] else NoCode
  }

  function Rate(w: World, t: Token): nat
  {
    if t in w.rates then w.rates[t] else 0
  }

  /** Conversion of a big integer to a word with its overflow flag ignored. */
  function ToWord(x: int, word: WordSize): nat
  {
    x % word
  }

  function SetBalance(w: World, a: Addr, t: Token, amount: nat): World
  {
    w.(books := w.books[t := BookOf(w, t)[a := amount]],
       accounts := w.accounts + {if t == DEFAULT_TOKEN then a else TOKEN_MANAGER})
  }

  /** Balances are words and wrap. */
  function AddBalance(w: World, a: Addr, t: Token, amount: nat): World
  {
    if amount == 0 then w else SetBalance(w, a, t, ToWord(Balance(w, a, t) + amount, w.word))
  }

  function SubBalance(w: World, a: Addr, t: Token, amount: nat): World
  {
    if amount == 0 then w else SetBalance(w, a, t, ToWord(Balance(w, a, t) - amount, w.word))
  }

  function SetNonce(w: World, a: Addr, n: nat): World
  {
    w.(nonces := w.nonces[a := n], accounts := w.accounts + {a})
  }

  function SetCode(w: World, a: Addr, c: Code): World
  {
    w.(code := w.code[a := c], accounts := w.accounts + {a})
  }

  predicate CanTransfer(w: World, a: Addr, amount: nat, t: Token)
  {
    Balance(w, a, t) >= amount
  }

  predicate TransferAllowed(w: World, t: Token)
  {
    t == DEFAULT_TOKEN || t in w.transferAllowed
  }

  // ---------------------------------------------------------------- finalisation

  predicate IsEmpty(w: World, a: Addr)
  {
    Nonce(w, a) == 0 && Balance(w, a, DEFAULT_TOKEN) == 0 && CodeOf(w, a) == NoCode
  }

  /** The accounts finalisation deletes: the self-destructed and the empty ones. */
  function Gone(w: World): set<Addr>
  {
    w.doomed + set a | a in w.accounts && IsEmpty(w, a)
  }

  /** The world after a transaction's finalisation.  Balances of other tokens, rates and flags live in the token
      manager's storage and go with it. */
  function Finalised(w: World): World
  {
    var gone := Gone(w);
    var keep := TOKEN_MANAGER !in gone;
    var books := if keep then w.books else map[];
    w.(books := books[DEFAULT_TOKEN := BookOf(w, DEFAULT_TOKEN) - gone], nonces := w.nonces - gone,
       code := w.code - gone, accounts := w.accounts - gone, gasAllowed := if keep then w.gasAllowed else {},
       transferAllowed := if keep then w.transferAllowed else {}, rates := if keep then w.rates else map[],
       refund := 0, doomed := {})
  }

  // ---------------------------------------------------------------- totals

  /** The balances of some accounts added up. */
  ghost function SumOver(keys: set<Addr>, b: Book): nat
  {
    if keys == {} then 0
    else
      HasMember(keys);
      var a :| a in keys;
      Entry(b, a) + SumOver(keys - {a}, b)
  }

  ghost function Sum(b: Book): nat
  {
    SumOver(b.Keys, b)
  }

  /** Any account may be taken out first. */
  lemma {:induction false} SumTakes(keys: set<Addr>, b: Book, a: Addr)
    requires a in keys
    ensures SumOver(keys, b) == Entry(b, a) + SumOver(keys - {a}, b)
  {
    var c :| c in keys && SumOver(keys, b) == Entry(b, c) + SumOver(keys - {c}, b);
    if c != a {
      SumTakes(keys - {c}, b, a);
      SumTakes(keys - {a}, b, c);
      assert keys - {c} - {a} == keys - {a} - {c};
    }
  }

  lemma {:induction false} SumIgnores(keys: set<Addr>, b: Book, a: Addr, v: nat)
    requires a !in keys
    ensures SumOver(keys, b[a := v]) == SumOver(keys, b)
  {
    if keys != {} {
      HasMember(keys);
      var c :| c in keys;
      SumTakes(keys, b, c);
      SumTakes(keys, b[a := v], c);
      SumIgnores(keys - {c}, b, a, v);
    }
  }

  lemma SumPut(b: Book, a: Addr, v: nat)
    ensures Sum(b[a := v]) == Sum(b) - Entry(b, a) + v
    ensures Entry(b, a) <= Sum(b)
  {
    var b' := b[a := v];
    SumTakes(b'.Keys, b', a);
    SumIgnores(b'.Keys - {a}, b, a, v);
    if a in b {
      SumTakes(b.Keys, b, a);
      assert b'.Keys - {a} == b.Keys - {a};
    } else {
      assert b'.Keys - {a} == b.Keys;
    }
  }

  /** Everything in existence of one token. */
  ghost function Total(w: World, t: Token): nat
  {
    Sum(BookOf(w, t))
  }

  lemma {:induction false} SumSame(keys: set<Addr>, b: Book, c: Book)
    requires forall a :: a in keys ==> Entry(b, a) == Entry(c, a)
    ensures SumOver(keys, b) == SumOver(keys, c)
  {
    if keys != {} {
      HasMember(keys);
      var a :| a in keys;
      SumTakes(keys, b, a);
      SumTakes(keys, c, a);
      SumSame(keys - {a}, b, c);
    }
  }

  lemma {:induction false} SumDisjoint(x: set<Addr>, y: set<Addr>, b: Book)
    requires x !! y
    ensures SumOver(x + y, b) == SumOver(x, b) + SumOver(y, b)
  {
    if x == {} {
      assert x + y == y;
    } else {
      HasMember(x);
      var a :| a in x;
      SumTakes(x, b, a);
      SumTakes(x + y, b, a);
      assert x + y - {a} == (x - {a}) + y;
      SumDisjoint(x - {a}, y, b);
    }
  }

  lemma {:induction false} SumZero(keys: set<Addr>, b: Book)
    requires forall a :: a in keys ==> Entry(b, a) == 0
    ensures SumOver(keys, b) == 0
  {
    if keys != {} {
      HasMember(keys);
      var a :| a in keys;
      SumTakes(keys, b, a);
      SumZero(keys - {a}, b);
    }
  }

  /** Deleting accounts takes exactly their balances out of a book. */
  lemma SumRemove(b: Book, keys: set<Addr>)
    ensures Sum(b) == Sum(b - keys) + SumOver(keys, b)
  {
    var stay, go := b.Keys - keys, b.Keys * keys;
    assert stay + go == b.Keys && (b - keys).Keys == stay && go + (keys - go) == keys;
    SumDisjoint(stay, go, b);
    SumSame(stay, b, b - keys);
    SumDisjoint(go, keys - go, b);
    SumZero(keys - go, b);
  }

  /** What finalisation destroys of a token: the default balances of the self-destructed accounts, and the others' whole
      books if the token manager's account goes. */
  ghost function Destroyed(w: World, t: Token): nat
  {
    if t == DEFAULT_TOKEN then SumOver(w.doomed, BookOf(w, t))
    else if TOKEN_MANAGER in Gone(w) then Total(w, t) else 0
  }

  /** Finalisation takes exactly what it destroys out of every token's total. */
  lemma FinalisedTotal(w: World, t: Token)
    ensures Total(Finalised(w), t) == Total(w, t) - Destroyed(w, t)
  {
    if t == DEFAULT_TOKEN {
      var b, empty := BookOf(w, t), Gone(w) - w.doomed;
      SumRemove(b, Gone(w));
      assert w.doomed + empty == Gone(w);
      SumDisjoint(w.doomed, empty, b);
      SumZero(empty, b);
      assert BookOf(Finalised(w), t) == b - Gone(w);
    } else if TOKEN_MANAGER in Gone(w) {
      assert BookOf(Finalised(w), t) == map[];
    } else {
      assert BookOf(Finalised(w), t) == BookOf(w, t);
    }
  }

  /** Finalisation lowers the nonces of self-destructed accounts, to zero, and no others. */
  lemma FinalisedNonce(w: World, a: Addr)
    ensures Nonce(Finalised(w), a) == if a in w.doomed then 0 else Nonce(w, a)
  {
  }

  /** Account by account: a self-destructed account keeps no default balance and no code; an account that is empty or
      has self-destructed is gone; and if the token manager's is, everybody's other tokens go with it, and the rates and
      flags. */
  lemma FinalisedAccount(w: World, a: Addr, t: Token)
    ensures var v := Finalised(w);
      var dead := (b: Addr) => b in w.doomed
        || (b in w.accounts && Nonce(w, b) == 0 && Balance(w, b, 0) == 0 && CodeOf(w, b) == NoCode);
      && Balance(v, a, 0) == (if a in w.doomed then 0 else Balance(w, a, 0))
      && (t != 0 ==> Balance(v, a, t) == if dead(0x2007) then 0 else Balance(w, a, t))
      && CodeOf(v, a) == (if a in w.doomed then NoCode else CodeOf(w, a))
      && (a in v.accounts <==> a in w.accounts && !dead(a))
      && Rate(v, t) == (if dead(0x2007) then 0 else Rate(w, t))
      && (t in v.gasAllowed <==> !dead(0x2007) && t in w.gasAllowed)
      && (t in v.transferAllowed <==> !dead(0x2007) && t in w.transferAllowed) && v.refund == 0 && v.doomed == {}
  {
  }

  lemma BalanceBelowTotal(w: World, a: Addr, t: Token)
    ensures Balance(w, a, t) <= Total(w, t)
  {
    SumPut(BookOf(w, t), a, 0);
  }

  lemma SetBalanceTotals(w: World, a: Addr, t: Token, amount: nat, u: Token)
    ensures Total(SetBalance(w, a, t, amount), u)
         == if u == t then Total(w, t) - Balance(w, a, t) + amount else Total(w, u)
  {
    SumPut(BookOf(w, t), a, amount);
    assert BookOf(SetBalance(w, a, t, amount), t) == BookOf(w, t)[a := amount];
  }

  /** A debit covered by the balance takes exactly the amount out of the token's total. */
  lemma Debit(w: World, a: Addr, t: Token, amount: nat, u: Token)
    requires amount <= Balance(w, a, t) && Total(w, t) < w.word
    ensures Total(SubBalance(w, a, t, amount), u) == Total(w, u) - (if u == t then amount else 0)
    ensures Balance(SubBalance(w, a, t, amount), a, t) == Balance(w, a, t) - amount
  {
    BalanceBelowTotal(w, a, t);
    SetBalanceTotals(w, a, t, Balance(w, a, t) - amount, u);
    SmallWord(Balance(w, a, t) - amount, w.word);
  }

  /** A credit that the token's total has room for adds exactly the amount. */
  lemma Credit(w: World, a: Addr, t: Token, amount: nat, u: Token)
    requires Total(w, t) + amount < w.word
    ensures Total(AddBalance(w, a, t, amount), u) == Total(w, u) + (if u == t then amount else 0)
    ensures Balance(AddBalance(w, a, t, amount), a, t) == Balance(w, a, t) + amount
  {
    BalanceBelowTotal(w, a, t);
    SetBalanceTotals(w, a, t, Balance(w, a, t) + amount, u);
    SmallWord(Balance(w, a, t) + amount, w.word);
  }

  lemma SmallWord(x: nat, word: WordSize)
    requires x < word
    ensures ToWord(x, word) == x
  {
  }

  // ---------------------------------------------------------------- prices in a native token

  /** A cost in the default token converted to a gas token; a disabled token or a missing rate fails, a zero cost never
      does. */
  function GasCost(w: World, t: Token, base: int): Option<int>
  {
    if base == 0 then Some(0)
    else if t == DEFAULT_TOKEN then Some(base)
    else if t !in w.gasAllowed || Rate(w, t) == 0 then None
    else Some(Convert(base, Rate(w, t)))
  }

  function Convert(base: int, rate: nat): int
  {
    base * rate / RATE_DENOMINATOR
  }

  /** What `base` costs where the token is known to be usable. */
  ghost function Cost(w: World, t: Token, base: int): int
  {
    if t == DEFAULT_TOKEN then base else Convert(base, Rate(w, t))
  }

  lemma MulMono(d: nat, x: int, y: int)
    requires x <= y
    ensures d * x <= d * y
  {
    assert d * y - d * x == d * (y - x);
  }

  /** A quotient is fixed by its remainder lying below the divisor. */
  lemma Quotient(a: int, q: int, d: nat)
    requires d > 0 && d * q <= a < d * (q + 1)
    ensures a / d == q
  {
    var p := a / d;
    assert d * p <= a < d * (p + 1);
    if p < q {
      MulMono(d, p + 1, q);
    } else if q < p {
      MulMono(d, q + 1, p);
    }
  }

  lemma FloorMono(a: int, b: int, d: nat)
    requires d > 0 && a <= b
    ensures a / d <= b / d
  {
    var p, q := a / d, b / d;
    assert d * p <= a && b < d * (q + 1);
    if q < p {
      MulMono(d, q + 1, p);
    }
  }

  lemma FloorSplit(a: int, b: int, d: nat)
    requires d > 0
    ensures a / d + b / d <= (a + b) / d <= a / d + b / d + 1
  {
    var p, q := a / d, b / d;
    assert d * (p + q) == d * p + d * q;
    if a + b < d * (p + q + 1) {
      Quotient(a + b, p + q, d);
    } else {
      assert d * (p + q + 2) == d * (p + 1) + d * (q + 1);
      Quotient(a + b, p + q + 1, d);
    }
  }

  /** Conversion keeps order. */
  lemma ConvertMono(a: nat, b: nat, rate: nat)
    requires a <= b
    ensures 0 <= Convert(a, rate) <= Convert(b, rate)
  {
    MulMono(rate, a, b);
    FloorMono(a * rate, b * rate, RATE_DENOMINATOR);
    FloorMono(0, a * rate, RATE_DENOMINATOR);
  }

  /** Converting a sum loses nothing and gains at most one unit against converting the parts. */
  lemma ConvertSplit(a: int, b: int, rate: nat)
    ensures Convert(a, rate) + Convert(b, rate) <= Convert(a + b, rate) <= Convert(a, rate) + Convert(b, rate) + 1
  {
    assert (a + b) * rate == a * rate + b * rate;
    FloorSplit(a * rate, b * rate, RATE_DENOMINATOR);
  }
}
