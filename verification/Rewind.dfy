/**
 Searching backwards for a block whose state is at hand, in the hash scheme and in the path scheme.

 The trie database is the set of state roots it holds and the set of roots it could recover.
 */
module Rewinds {
  import opened Common
  import opened Chain

  const FULL_IMMUTABILITY_THRESHOLD: nat := 600_000

  /** The ancestor of `head` with number `n`. */
  ghost function At(s: Store, head: Header, n: nat): Header
    requires Closed(s) && Has(s, head) && n <= head.number
  {
    s[Anc(s, head.hash, n)]
  }

  /** Some block of `head`'s chain numbered `n` or more carries the state root. */
  ghost predicate RootSeen(s: Store, head: Header, root: Hash, n: nat)
    requires Closed(s) && Has(s, head) && n <= head.number
  {
    exists m :: n <= m <= head.number && At(s, head, m).root == root
  }

  /** Some block of `head`'s chain numbered `n` or more has its state at hand. */
  ghost predicate StateSeen(s: Store, head: Header, states: set<Hash>, n: nat)
    requires Closed(s) && Has(s, head) && n <= head.number
  {
    exists m :: n <= m <= head.number && At(s, head, m).root in states
  }

  /** In the hash scheme: the state is at hand and the requested root, if any, has been passed. */
  ghost predicate Suits(s: Store, head: Header, root: Hash, states: set<Hash>, n: nat)
    requires Closed(s) && Has(s, head) && n <= head.number
  {
    At(s, head, n).root in states && (root == ZERO || RootSeen(s, head, root, n))
  }

  /** The requested root has been passed at or above `n`, or given up there because it cannot be had and a state was
      met. */
  ghost predicate Crossed(s: Store, head: Header, root: Hash, states: set<Hash>, noState: bool, n: nat)
    requires Closed(s) && Has(s, head) && n <= head.number
  {
    RootSeen(s, head, root, n) || (noState && StateSeen(s, head, states, n))
  }

  /** In the path scheme: the state can be had and the requested root has been passed or given up. */
  ghost predicate SuitsPath(s: Store, head: Header, root: Hash, states: set<Hash>, recoverable: set<Hash>, n: nat)
    requires Closed(s) && Has(s, head) && n <= head.number
  {
    && At(s, head, n).root in states + recoverable
    && (root == ZERO || Crossed(s, head, root, states, root !in states + recoverable, n))
  }

  lemma CrossedStep(s: Store, head: Header, root: Hash, states: set<Hash>, noState: bool, n: nat)
    requires Closed(s) && Has(s, head) && n <= head.number
    ensures Crossed(s, head, root, states, noState, n) <==>
      (|| (n < head.number && Crossed(s, head, root, states, noState, n + 1))
       || At(s, head, n).root == root || (noState && At(s, head, n).root in states))
  {
    if RootSeen(s, head, root, n) && At(s, head, n).root != root {
      assert RootSeen(s, head, root, n + 1);
    }
    if StateSeen(s, head, states, n) && At(s, head, n).root !in states {
      assert StateSeen(s, head, states, n + 1);
    }
  }

  /** Where a walk down `head`'s chain stands. */
  ghost predicate Walking(s: Store, head: Header, cur: Header)
  {
    Closed(s) && Has(s, head) && Has(s, cur) && cur.number <= head.number && At(s, head, cur.number) == cur
  }

  lemma WalkDown(s: Store, head: Header, cur: Header)
    requires Walking(s, head, cur) && cur.number > 0
    ensures GetParent(s, cur).Some? && Walking(s, head, GetParent(s, cur).value)
  {
    assert cur.parent == Up(s, cur.hash);
    AncStep(s, head.hash, cur.number);
  }

  /** `n` is the highest number on `head`'s chain whose block carries the root. */
  ghost predicate FirstRoot(s: Store, head: Header, root: Hash, n: nat)
    requires Closed(s) && Has(s, head)
  {
    n <= head.number && At(s, head, n).root == root && forall m :: n < m <= head.number ==> At(s, head, m).root != root
  }

  /** The search meets the root at number `n`: no block above carries it, and it has not been given up by then. */
  ghost predicate Meets(s: Store, head: Header, root: Hash, states: set<Hash>, recoverable: set<Hash>, n: nat)
    requires Closed(s) && Has(s, head)
  {
    && FirstRoot(s, head, root, n)
    && (root !in states + recoverable && n < head.number ==> !StateSeen(s, head, states, n + 1))
  }

  /** The number reported for the root is the one it is met at from `low` on, and zero if it is not. */
  ghost predicate Reports(s: Store, head: Header, root: Hash, states: set<Hash>, recoverable: set<Hash>, low: nat,
                          number: nat)
    requires Closed(s) && Has(s, head)
  {
    && (number > 0 ==> root != ZERO && low <= number && Meets(s, head, root, states, recoverable, number))
    && (root != ZERO ==>
          forall n :: low <= n <= head.number && Meets(s, head, root, states, recoverable, n) ==> number == n)
  }

  /** The path-scheme search has come down to `cur` without finding a suitable block. */
  ghost predicate Searching(s: Store, start: Header, cur: Header, root: Hash, states: set<Hash>, recoverable: set<Hash>,
                            pivot: Option<nat>, beyond: bool, rootNumber: nat)
  {
    && Walking(s, start, cur) && (cur == start || pivot.None? || pivot.value <= cur.number)
    && Reports(s, start, root, states, recoverable, cur.number + 1, rootNumber)
    && (beyond <==> root == ZERO
                    || (cur.number < start.number
                      && Crossed(s, start, root, states, root !in states + recoverable, cur.number + 1)))
    && (forall n :: cur.number < n <= start.number ==> !SuitsPath(s, start, root, states, recoverable, n))
  }

  /** One turn of the search decides whether `cur` suits, and if not goes on below it. */
  lemma SearchStep(s: Store, start: Header, cur: Header, root: Hash, states: set<Hash>, recoverable: set<Hash>,
                   pivot: Option<nat>, beyond: bool, rootNumber: nat, beyond': bool, rootNumber': nat)
    requires Searching(s, start, cur, root, states, recoverable, pivot, beyond, rootNumber)
    requires beyond' <==> beyond || cur.root == root || (root !in states + recoverable && cur.root in states)
    requires rootNumber' == if !beyond && cur.root == root then cur.number else rootNumber
    ensures SuitsPath(s, start, root, states, recoverable, cur.number) <==> beyond' && cur.root in states + recoverable
    ensures Reports(s, start, root, states, recoverable, cur.number, rootNumber')
    ensures cur.number == 0 ==> GetParent(s, cur).None?
    ensures cur.number > 0 ==> GetParent(s, cur).Some?
    ensures
      (&& cur.number > 0 && !SuitsPath(s, start, root, states, recoverable, cur.number)
        && (pivot.None? || pivot.value < cur.number))
      ==> Searching(s, start, GetParent(s, cur).value, root, states, recoverable, pivot, beyond', rootNumber')
  {
    CrossedStep(s, start, root, states, root !in states + recoverable, cur.number);
    if cur.number > 0 {
      WalkDown(s, start, cur);
    }
  }

  class Rewinder {
    const headers: Store
    const recoverable: set<Hash>
    var states: set<Hash>

    constructor (headers: Store, states: set<Hash>, recoverable: set<Hash>)
      ensures this.headers == headers && this.states == states && this.recoverable == recoverable
    {
      this.headers, this.states, this.recoverable := headers, states, recoverable;
    }

    ghost predicate Valid()
    {
      Closed(headers) && GENESIS in headers && headers[GENESIS].number == 0
    }

    /** The oldest number the hash-scheme search looks at. */
    static function SearchLimit(head: Header, pivot: Option<nat>): (limit: nat)
      ensures pivot.Some? ==> limit == pivot.value
      ensures pivot.None? ==> limit == 0 || head.number == limit + 600_000
      ensures pivot.None? && limit == 0 ==> head.number <= 600_000
    {
      if pivot.Some? then pivot.value
      else if head.number > FULL_IMMUTABILITY_THRESHOLD then head.number - FULL_IMMUTABILITY_THRESHOLD
      else 0
    }

    /** Finds the highest suitable ancestor-or-self not below the search limit, or else genesis. */
    method RewindHashHead(start: Header, root: Hash, pivot: Option<nat>) returns (head: Header, rootNumber: nat)
      requires Valid() && Has(headers, start)
      ensures Has(headers, head) && head.number <= start.number && At(headers, start, head.number) == head
      ensures head.number > 0 ==>
        SearchLimit(start, pivot) <= head.number && Suits(headers, start, root, states, head.number)
      ensures forall n :: head.number < n <= start.number && SearchLimit(start, pivot) <= n
                ==> !Suits(headers, start, root, states, n)
      ensures head.number > 0 && root != ZERO ==>
        && head.number <= rootNumber <= start.number && At(headers, start, rootNumber).root == root
        && forall n :: rootNumber < n <= start.number ==> At(headers, start, n).root != root
      ensures rootNumber > 0 ==> root != ZERO && FirstRoot(headers, start, root, rootNumber)
      ensures root != ZERO ==>
        forall n :: head.number <= n <= start.number && FirstRoot(headers, start, root, n) ==>
                      (SearchLimit(start, pivot) <= n + 1 || n == start.number) ==> rootNumber == n
    {
      head, rootNumber := start, 0;
      var limit := SearchLimit(start, pivot);
      var beyondRoot := root == ZERO;
      GenesisBelow(headers, start);
      while true
        invariant Walking(headers, start, head)
        invariant limit > 0 ==> head.number + 1 >= limit || head == start
        invariant beyondRoot && root != ZERO ==>
            FirstRoot(headers, start, root, rootNumber) && head.number <= rootNumber
        invariant !beyondRoot ==> root != ZERO
        invariant !beyondRoot || root == ZERO ==> rootNumber == 0
        invariant !beyondRoot ==> forall n :: head.number < n <= start.number ==> At(headers, start, n).root != root
        invariant forall n :: head.number < n <= start.number ==> !Suits(headers, start, root, states, n)
        decreases head.number
      {
        if !beyondRoot && head.root == root {
          beyondRoot, rootNumber := true, head.number;
        }
        if head.number < limit {
          return headers[GENESIS], rootNumber;
        }
        if head.number > 0 {
          WalkDown(headers, start, head);
        }
        if head.root !in states {
          match GetParent(headers, head) {
            case None =>
              return headers[GENESIS], rootNumber;
            case Some(parent) =>
              head := parent;
          }
          if head.number == 0 {
            return;
          }
          continue;
        }
        if beyondRoot || head.number == 0 {
          return;
        }
        head := GetParent(headers, head).value;
      }
    }

    /** Rolls the trie database back to a recoverable state; which other states it has then is left open. */
    method Recover(root: Hash)
      requires root in recoverable
      modifies this
      ensures root in states && states <= old(states) + recoverable
    {
      assert root in {root} && {root} <= states + recoverable;
      var recovered: set<Hash> :| root in recovered && recovered <= states + recoverable;
      states := recovered;
    }

    /** The oldest number the path-scheme search looks at; it always looks at the block it starts from. */
    static function PathLimit(start: Header, pivot: Option<nat>): (limit: nat)
      ensures limit <= start.number && (pivot.None? ==> limit == 0)
      ensures pivot.Some? ==> limit <= pivot.value && (limit == start.number || limit == pivot.value)
    {
      if pivot.None? then 0 else if pivot.value < start.number then pivot.value else start.number
    }

    /** The path-scheme search: the highest suitable ancestor-or-self not below the pivot, or else genesis. */
    method FindPathHead(start: Header, root: Hash, pivot: Option<nat>)
        returns (head: Header, rootNumber: nat, found: bool)
      requires Valid() && Has(headers, start)
      ensures Has(headers, head) && head.number <= start.number && At(headers, start, head.number) == head
      ensures found ==> SuitsPath(headers, start, root, states, recoverable, head.number)
      ensures found ==> head == start || pivot.None? || pivot.value <= head.number
      ensures !found ==> head.number == 0
      ensures forall n :: head.number < n <= start.number && (n == start.number || pivot.None? || pivot.value <= n)
                ==> !SuitsPath(headers, start, root, states, recoverable, n)
      ensures var low := if found then head.number else PathLimit(start, pivot);
        Reports(headers, start, root, states, recoverable, low, rootNumber)
      ensures start.number == 0 ==> (found <==> SuitsPath(headers, start, root, states, recoverable, 0))
    {
      head, rootNumber, found := start, 0, false;
      var beyondRoot := root == ZERO;
      var noState := root !in states && root !in recoverable;
      GenesisBelow(headers, start);
      while true
        invariant Searching(headers, start, head, root, states, recoverable, pivot, beyondRoot, rootNumber)
        decreases head.number
      {
        ghost var beyond0, rootNumber0 := beyondRoot, rootNumber;
        if !beyondRoot && head.root == root {
          beyondRoot, rootNumber := true, head.number;
        }
        if !beyondRoot && noState && head.root in states {
          beyondRoot := true;
        }
        SearchStep(headers, start, head, root, states, recoverable, pivot, beyond0, rootNumber0, beyondRoot,
          rootNumber);
        if beyondRoot && (head.root in states || head.root in recoverable) {
          return head, rootNumber, true;
        }
        if pivot.Some? && pivot.value >= head.number {
          return headers[GENESIS], rootNumber, false;
        }
        match GetParent(headers, head) {
          case None =>
            return headers[GENESIS], rootNumber, false;
          case Some(parent) =>
            head := parent;
        }
        if head.number == 0 {
          return;
        }
      }
    }

    /** Finds the highest ancestor-or-self whose state can be had, recovering it if need be, or else genesis.  The
        search does not go below the pivot. */
    method RewindPathHead(start: Header, root: Hash, pivot: Option<nat>) returns (head: Header, rootNumber: nat)
      requires Valid() && Has(headers, start)
      modifies this
      ensures Has(headers, head) && head.number <= start.number && At(headers, start, head.number) == head
      ensures states <= old(states) + recoverable && (head.root in old(states) ==> states == old(states))
      ensures head.number > 0 ==>
        && head.root in states && SuitsPath(headers, start, root, old(states), recoverable, head.number)
        && (head == start || pivot.None? || pivot.value <= head.number)
      ensures forall n :: head.number < n <= start.number && (n == start.number || pivot.None? || pivot.value <= n)
                ==> !SuitsPath(headers, start, root, old(states), recoverable, n)
      ensures states == old(states) || SuitsPath(headers, start, root, old(states), recoverable, head.number)
      ensures start.number == 0 && SuitsPath(headers, start, root, old(states), recoverable, 0) ==> head.root in states
      ensures var low := if head.number > 0 then head.number else PathLimit(start, pivot);
        Reports(headers, start, root, old(states), recoverable, low, rootNumber)
    {
      var found;
      head, rootNumber, found := FindPathHead(start, root, pivot);
      if found && head.root !in states {
        Recover(head.root);
      }
    }
  }

  lemma GenesisBelow(s: Store, head: Header)
    requires Closed(s) && Has(s, head)
    ensures Anc(s, head.hash, 0) == GENESIS
  {
  }
}
