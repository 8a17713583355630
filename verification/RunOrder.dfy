/** The seeded order in which (variant, repetition) pairs are run: a Fisher-Yates
    shuffle driven by SplitMix64. */
module RunOrder {
  import opened Wrappers

  datatype BenchmarkVariant =
    | CachyosBaseline
    | NemorObserve
    | NemorSafe
    | NemorGaming
    | NemorCapacity
    | Zram
    | Zswap

  type Item = (BenchmarkVariant, nat)

  function SplitMix64(value: bv64): bv64 {
    var v := value + 0x9e37_79b9_7f4a_7c15;
    var mixed := (v ^ (v >> 30)) * 0xbf58_476d_1ce4_e5b9;
    var mixed' := (mixed ^ (mixed >> 27)) * 0x94d0_49bb_1331_11eb;
    mixed' ^ (mixed' >> 31)
  }

  /** The random state reduced to a position below `n`. */
  function Pick(state: bv64, n: nat): (k: nat)
    requires n > 0
    ensures k < n
  {
    (state as int) % n
  }

  function OneRepetition(variants: seq<BenchmarkVariant>, repetition: nat): (r: seq<Item>)
    ensures |r| == |variants|
    ensures forall i | 0 <= i < |r| :: r[i] == (variants[i], repetition)
  {
    seq(|variants|, i requires 0 <= i < |variants| => (variants[i], repetition))
  }

  /** All pairs, repetition by repetition. */
  function Items(variants: seq<BenchmarkVariant>, repetitions: nat): seq<Item> {
    if repetitions == 0 then []
    else Items(variants, repetitions - 1) + OneRepetition(variants, repetitions - 1)
  }

  function Swapped<T>(s: seq<T>, i: nat, j: nat): seq<T>
    requires i < |s| && j < |s|
  {
    s[i := s[j]][j := s[i]]
  }

  /** The shuffle still to do when positions above `index` are settled. */
  function Shuffled(s: seq<Item>, index: nat, state: bv64): (r: seq<Item>)
    requires index < |s| || s == []
    ensures |r| == |s|
    decreases index
  {
    if index == 0 || s == [] then s
    else
      var next := SplitMix64(state);
      Shuffled(Swapped(s, index, Pick(next, index + 1)), index - 1, next)
  }

  lemma ShuffledUnfolds(s: seq<Item>, index: nat, state: bv64)
    requires 0 < index < |s|
    ensures Shuffled(s, index, state)
         == Shuffled(Swapped(s, index, Pick(SplitMix64(state), index + 1)), index - 1, SplitMix64(state))
  {
  }

  /** Shuffling up to a position ignores and keeps what is beyond. */
  lemma {:induction false} ShuffleLeavesRest(s: seq<Item>, index: nat, state: bv64)
    requires index < |s|
    ensures forall i | index < i < |s| :: Shuffled(s, index, state)[i] == s[i]
    ensures Shuffled(s, index, state)[..index + 1] == Shuffled(s[..index + 1], index, state)
    decreases index, 0
  {
    if index == 0 {
      assert Shuffled(s, 0, state) == s && Shuffled(s[..1], 0, state) == s[..1];
    } else {
      var next := SplitMix64(state);
      var other := Pick(next, index + 1);
      ShuffledUnfolds(s, index, state);
      ShuffledUnfolds(s[..index + 1], index, state);
      assert Swapped(s, index, other)[..index + 1] == Swapped(s[..index + 1], index, other);
      SamePrefix(Swapped(s, index, other), Swapped(s[..index + 1], index, other), index, next);
    }
  }

  lemma {:induction false} SamePrefix(whole: seq<Item>, part: seq<Item>, index: nat, state: bv64)
    requires 0 < index < |whole| && part == whole[..index + 1]
    ensures var r, q := Shuffled(whole, index - 1, state), Shuffled(part, index - 1, state);
      && (forall i | index - 1 < i < |whole| :: r[i] == whole[i])
      && r[..index + 1] == q
    decreases index - 1, 1
  {
    ShuffleLeavesRest(whole, index - 1, state);
    ShuffleLeavesRest(part, index - 1, state);
    assert whole[..index] == part[..index];
    var r, q := Shuffled(whole, index - 1, state), Shuffled(part, index - 1, state);
    assert q[index] == part[index] == whole[index];
    OneLonger(r, q, index);
  }

  lemma OneLonger(r: seq<Item>, q: seq<Item>, index: nat)
    requires index < |r| && |q| == index + 1 && r[..index] == q[..index] && r[index] == q[index]
    ensures r[..index + 1] == q
  {
    assert r[..index + 1] == r[..index] + [r[index]] && q == q[..index] + [q[index]];
  }

  /** The settled position holds the item the next random state points at, modulo
      the number of items left; the last of these fills the gap, and the rest is
      shuffled on with that state.  Later positions keep their items. */
  lemma SettledItem(s: seq<Item>, index: nat, state: bv64, next: bv64, drawn: nat)
    requires 0 < index < |s| && next == SplitMix64(state) && drawn == (next as nat) % (index + 1)
    ensures drawn <= index && Shuffled(s, index, state)[index] == s[drawn]
    ensures forall i | index < i < |s| :: Shuffled(s, index, state)[i] == s[i]
    ensures Shuffled(s, index, state)[..index] == Shuffled(s[drawn := s[index]][..index], index - 1, next)
  {
    PickIsRemainder(next, index + 1);
    ShuffledUnfolds(s, index, state);
    DrawnAndSwapped(s, index, drawn, next);
  }

  lemma PickIsRemainder(state: bv64, n: nat)
    requires n > 0
    ensures Pick(state, n) == (state as nat) % n
  {
  }

  lemma DrawnAndSwapped(s: seq<Item>, index: nat, drawn: nat, state: bv64)
    requires 0 < index < |s| && drawn <= index
    ensures var r := Shuffled(Swapped(s, index, drawn), index - 1, state);
      && r[index] == s[drawn]
      && (forall i | index < i < |s| :: r[i] == s[i])
      && r[..index] == Shuffled(s[drawn := s[index]][..index], index - 1, state)
  {
    var swapped := Swapped(s, index, drawn);
    ShuffleLeavesRest(swapped, index - 1, state);
    assert swapped[..index] == s[drawn := s[index]][..index];
  }

  /** The first state of the generator for the seed zero. */
  lemma KnownState()
    ensures SplitMix64(0) == 0xe220_a839_7b1d_cdaf
  {
  }

  function Order(variants: seq<BenchmarkVariant>, repetitions: nat, seed: bv64): (r: seq<Item>) {
    var items := Items(variants, repetitions);
    Shuffled(items, if items == [] then 0 else |items| - 1, seed)
  }

  method Swap<T>(items: array<T>, i: nat, j: nat)
    requires i < items.Length && j < items.Length
    modifies items
    ensures items[..] == Swapped(old(items[..]), i, j)
  {
    items[i], items[j] := items[j], items[i];
  }

  /** One settled position: the next random state picks its partner. */
  method Settle(items: array<Item>, index: nat, state: bv64) returns (next: bv64)
    requires 0 < index < items.Length
    modifies items
    ensures Shuffled(items[..], index - 1, next) == Shuffled(old(items[..]), index, state)
  {
    ShuffledUnfolds(items[..], index, state);
    next := SplitMix64(state);
    Swap(items, index, Pick(next, index + 1));
  }

  method ShuffleInPlace(items: array<Item>, seed: bv64)
    requires items.Length > 0
    modifies items
    ensures items[..] == Shuffled(old(items[..]), items.Length - 1, seed)
  {
    var state := seed;
    var index: nat := items.Length - 1;
    while index > 0
      invariant index < items.Length
      invariant Shuffled(items[..], index, state) == Shuffled(old(items[..]), items.Length - 1, seed)
    {
      state := Settle(items, index, state);
      index := index - 1;
    }
  }

  method DeterministicOrder(variants: seq<BenchmarkVariant>, repetitions: nat, seed: bv64)
    returns (items: array<Item>)
    ensures fresh(items)
    ensures items[..] == Order(variants, repetitions, seed)
  {
    var all := Items(variants, repetitions);
    items := new Item[|all|](i requires 0 <= i < |all| => all[i]);
    assert items[..] == all;
    if items.Length > 0 {
      ShuffleInPlace(items, seed);
    }
  }

  lemma SwappedIsPermutation<T>(s: seq<T>, i: nat, j: nat)
    requires i < |s| && j < |s|
    ensures multiset(Swapped(s, i, j)) == multiset(s)
  {
  }

  lemma {:induction false} ShuffledIsPermutation(s: seq<Item>, index: nat, state: bv64)
    requires index < |s| || s == []
    ensures multiset(Shuffled(s, index, state)) == multiset(s)
    decreases index
  {
    if index != 0 && s != [] {
      var next := SplitMix64(state);
      var other := Pick(next, index + 1);
      SwappedIsPermutation(s, index, other);
      ShuffledIsPermutation(Swapped(s, index, other), index - 1, next);
    }
  }

  /** For every list of variants, repetition count and seed, the order is a
      permutation of all pairs. */
  lemma OrderIsPermutation(variants: seq<BenchmarkVariant>, repetitions: nat, seed: bv64)
    ensures multiset(Order(variants, repetitions, seed)) == multiset(Items(variants, repetitions))
  {
    var items := Items(variants, repetitions);
    ShuffledIsPermutation(items, if items == [] then 0 else |items| - 1, seed);
  }

  /** The pairs before shuffling: repetition by repetition, in the order of the
      variants. */
  lemma {:induction false} ItemsInOrder(variants: seq<BenchmarkVariant>, repetitions: nat, rep: nat, i: nat)
    requires rep < repetitions && i < |variants|
    ensures 0 <= rep * |variants| + i < |Items(variants, repetitions)| == repetitions * |variants|
    ensures Items(variants, repetitions)[rep * |variants| + i] == (variants[i], rep)
    decreases repetitions
  {
    var n := repetitions - 1;
    ItemsContain(variants, repetitions);
    ItemsContain(variants, n);
    assert repetitions * |variants| == n * |variants| + |variants|;
    if rep == n {
      assert Items(variants, repetitions)[n * |variants| + i] == OneRepetition(variants, n)[i];
    } else {
      ItemsInOrder(variants, n, rep, i);
    }
  }

  lemma {:induction false} ItemsContain(variants: seq<BenchmarkVariant>, repetitions: nat)
    ensures |Items(variants, repetitions)| == |variants| * repetitions
    ensures forall v: BenchmarkVariant, rep: nat ::
              (v, rep) in Items(variants, repetitions) <==> v in variants && rep < repetitions
  {
    if repetitions > 0 {
      var n := repetitions - 1;
      ItemsContain(variants, n);
      var last := OneRepetition(variants, n);
      assert |variants| * repetitions == |variants| * n + |variants|;
      forall v: BenchmarkVariant, rep: nat
        ensures (v, rep) in last <==> v in variants && rep == n
      {
        if v in variants && rep == n {
          var i :| 0 <= i < |variants| && variants[i] == v;
          assert last[i] == (v, rep);
        }
      }
    }
  }

  lemma {:induction false} ItemsDistinct(variants: seq<BenchmarkVariant>, repetitions: nat)
    requires Distinct(variants)
    ensures Distinct(Items(variants, repetitions))
  {
    if repetitions > 0 {
      var n := repetitions - 1;
      ItemsDistinct(variants, n);
      ItemsContain(variants, n);
      var before, last := Items(variants, n), OneRepetition(variants, n);
      forall i | 0 <= i < |before|
        ensures before[i].1 < n
      {
        assert (before[i].0, before[i].1) in before;
      }
    }
  }

  lemma {:induction false} DistinctMeansOnce<T>(s: seq<T>)
    requires Distinct(s)
    ensures forall x :: multiset(s)[x] == if x in s then 1 else 0
  {
    if s != [] {
      var tail := s[1..];
      DistinctMeansOnce(tail);
      assert s == [s[0]] + tail;
      assert s[0] !in tail;
    }
  }

  /** Two positions holding the same element contribute two to its count. */
  lemma TwoPositions<T>(s: seq<T>, i: nat, j: nat)
    requires i < j < |s| && s[i] == s[j]
    ensures multiset(s)[s[i]] >= 2
  {
    assert s == s[..i] + [s[i]] + s[i + 1..j] + [s[j]] + s[j + 1..];
  }

  /** With distinct variants every pair is run exactly once. */
  lemma EveryPairOnce(variants: seq<BenchmarkVariant>, repetitions: nat, seed: bv64)
    requires Distinct(variants)
    ensures var order := Order(variants, repetitions, seed);
      && |order| == |variants| * repetitions
      && Distinct(order)
      && (forall v: BenchmarkVariant, rep: nat :: (v, rep) in order <==> v in variants && rep < repetitions)
  {
    var items, order := Items(variants, repetitions), Order(variants, repetitions, seed);
    ItemsContain(variants, repetitions);
    ItemsDistinct(variants, repetitions);
    OrderIsPermutation(variants, repetitions, seed);
    DistinctMeansOnce(items);
    forall i, j | 0 <= i < j < |order|
      ensures order[i] != order[j]
    {
      if order[i] == order[j] {
        TwoPositions(order, i, j);
      }
    }
    forall v: BenchmarkVariant, rep: nat
      ensures (v, rep) in order <==> v in variants && rep < repetitions
    {
      assert (v, rep) in order <==> (v, rep) in multiset(order);
      assert (v, rep) in items <==> (v, rep) in multiset(items);
    }
  }
}
