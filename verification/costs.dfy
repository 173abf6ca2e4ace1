/**
 `ManaCost`: the enumeration of a parsed cost's concrete interpretations
 (`combinations`), their number (`num_variations`), and the relations
 `==`, `<`, `<=` defined by "some interpretation of the left relates to
 some interpretation of the right", with `>` and `>=` derived from `<`.
 */
module Costs {
  import opened Wrappers
  import opened Tokens
  import opened Parser
  import Counters

  /** The errors the source raises instead of returning a value. */
  datatype Error =
    | ReduceOfEmpty  // `reduce` over no groups without an initial value
    | MinOfEmpty     // `min` over a group whose alternatives are all `P` or `X`
    | MaxOfEmpty     // `max` over such a group

  /** `choice` picks one alternative of each group, in group order. */
  predicate IsChoice(cost: Cost, choice: seq<Token>)
  {
    |choice| == |cost| && forall i :: 0 <= i < |cost| ==> choice[i] in cost[i]
  }

  /** Every alternative of `g` put in front of every tail. */
  function Prepend(g: Group, tails: set<seq<Token>>): set<seq<Token>>
  {
    set t, tail | t in g && tail in tails :: [t] + tail
  }

  /** `product(*groups)`: the choices of a cost, as a set of tuples. */
  function Choices(cost: Cost): set<seq<Token>>
    decreases |cost|
  {
    if |cost| == 0 then {[]} else Prepend(cost[0], Choices(cost[1..]))
  }

  /** The choices enumerated are exactly the picks of one alternative per group. */
  lemma {:induction false} ChoicesAreProduct(cost: Cost, choice: seq<Token>)
    ensures choice in Choices(cost) <==> IsChoice(cost, choice)
    decreases |cost|
  {
    if |cost| == 0 {
      if IsChoice(cost, choice) {
        assert choice == [];
      }
    } else {
      if choice in Choices(cost) {
        var t, tail :| t in cost[0] && tail in Choices(cost[1..]) && choice == [t] + tail;
        ChoicesAreProduct(cost[1..], tail);
        forall i | 1 <= i < |cost| ensures choice[i] in cost[i] {
          assert choice[i] == tail[i - 1] && cost[i] == cost[1..][i - 1];
        }
      }
      if IsChoice(cost, choice) {
        var tail := choice[1..];
        forall i | 0 <= i < |cost| - 1 ensures tail[i] in cost[1..][i] {
          assert tail[i] == choice[i + 1];
        }
        ChoicesAreProduct(cost[1..], tail);
        assert choice == [choice[0]] + tail;
      }
    }
  }

  /** The product of the group sizes. */
  function Product(cost: Cost): nat
  {
    if |cost| == 0 then 1 else |cost[0]| * Product(cost[1..])
  }

  /** One alternative put in front of every tail. */
  function Row(x: Token, tails: set<seq<Token>>): set<seq<Token>>
  {
    set tail | tail in tails :: [x] + tail
  }

  lemma {:induction false} RowCount(x: Token, tails: set<seq<Token>>)
    ensures |Row(x, tails)| == |tails|
    decreases tails
  {
    if tails == {} {
      assert Row(x, tails) == {};
    } else {
      var y :| y in tails;
      RowCount(x, tails - {y});
      assert Row(x, tails) == Row(x, tails - {y}) + {[x] + y};
      forall tail | tail in tails - {y} ensures [x] + tail != [x] + y {
        assert ([x] + tail)[1..] == tail;
        assert ([x] + y)[1..] == y;
      }
    }
  }

  lemma PrependSplit(g: Group, x: Token, tails: set<seq<Token>>)
    requires x in g
    ensures Prepend(g, tails) == Row(x, tails) + Prepend(g - {x}, tails)
    ensures Row(x, tails) !! Prepend(g - {x}, tails)
  {
    forall s | s in Prepend(g - {x}, tails) ensures s[0] != x {
      var t, tail :| t in g - {x} && tail in tails && s == [t] + tail;
    }
  }

  lemma UnionCount<T>(all: set<T>, row: set<T>, others: set<T>, n: nat, m: nat)
    requires all == row + others && row !! others
    requires |row| == m && |others| == n * m
    ensures |all| == (n + 1) * m
  {
    assert |row + others| == |row| + |others|;
  }

  lemma {:induction false} PrependCount(g: Group, tails: set<seq<Token>>)
    ensures |Prepend(g, tails)| == |g| * |tails|
    decreases g
  {
    if g == {} {
      assert Prepend(g, tails) == {};
    } else {
      var x :| x in g;
      var rest := g - {x};
      PrependCount(rest, tails);
      RowCount(x, tails);
      PrependSplit(g, x, tails);
      UnionCount(Prepend(g, tails), Row(x, tails), Prepend(rest, tails), |rest|, |tails|);
      assert |g| == |rest| + 1;
    }
  }

  /** The number of choices is the product of the group sizes. */
  lemma {:induction false} ChoicesCount(cost: Cost)
    ensures |Choices(cost)| == Product(cost)
    decreases |cost|
  {
    if |cost| > 0 {
      ChoicesCount(cost[1..]);
      PrependCount(cost[0], Choices(cost[1..]));
    }
  }

  /** A cost whose groups are all non-empty has at least one choice. */
  lemma {:induction false} ChoicesNonEmpty(cost: Cost)
    requires WellFormed(cost)
    ensures Choices(cost) != {}
    decreases |cost|
  {
    if |cost| > 0 {
      ChoicesNonEmpty(cost[1..]);
      var tail :| tail in Choices(cost[1..]);
      assert cost[0] != {};
      var t :| t in cost[0];
      assert [t] + tail in Prepend(cost[0], Choices(cost[1..]));
    } else {
      assert [] in Choices(cost);
    }
  }

  /** `num_variations`: `reduce(mul, map(len, groups))`, which raises when there
      are no groups. Otherwise it is the number of choices `combinations` yields. */
  function NumVariations(cost: Cost): (r: Result<nat, Error>)
    ensures r.Failure? <==> |cost| == 0
    ensures r.Success? ==> r.value == |Choices(cost)|
  {
    if |cost| == 0 then Failure(ReduceOfEmpty)
    else
      ChoicesCount(cost);
      Success(Product(cost))
  }

  /** The evidently intended `num_variations`: the product over no groups is 1,
      the number of (empty) choices of the empty cost. */
  function IntendedNumVariations(cost: Cost): (r: nat)
    ensures r == |Choices(cost)|
    ensures NumVariations(cost).Success? ==> NumVariations(cost).value == r
  {
    ChoicesCount(cost);
    Product(cost)
  }

  /** The counter of one choice: the loop of `combinations`, applied left to
      right starting from an empty counter. */
  function Tally(choice: seq<Token>): Counters.Counter
  {
    if |choice| == 0 then map[]
    else Counters.Add(Tally(choice[..|choice| - 1]), choice[|choice| - 1])
  }

  /** The sum of the values of the numeric tokens of a choice. */
  function NumericSum(choice: seq<Token>): nat
  {
    if |choice| == 0 then 0
    else (if choice[0].Num? then Weight(choice[0]) else 0) + NumericSum(choice[1..])
  }

  lemma {:induction false} NumericSumAppend(a: seq<Token>, b: seq<Token>)
    ensures NumericSum(a + b) == NumericSum(a) + NumericSum(b)
    decreases |a|
  {
    if |a| == 0 {
      assert a + b == b;
    } else {
      NumericSumAppend(a[1..], b);
      assert (a + b)[1..] == a[1..] + b;
    }
  }

  /** What the counter of a choice holds: the keys of its tokens (a `{0}`
      creates a `GENERIC` key with count 0), under `GENERIC` the sum of its
      numbers, and under each letter the number of times it was chosen. */
  lemma TallyCounts(choice: seq<Token>)
    ensures Tally(choice).Keys == set t | t in choice :: Counters.KeyOf(t)
    ensures Counters.Get(Tally(choice), Counters.Generic) == NumericSum(choice)
    ensures forall s :: Counters.Get(Tally(choice), Counters.Mana(s)) == multiset(choice)[Sym(s)]
  {
    TallyKeys(choice);
    TallyGeneric(choice);
    forall s ensures Counters.Get(Tally(choice), Counters.Mana(s)) == multiset(choice)[Sym(s)] {
      TallyLetter(choice, s);
    }
  }

  lemma {:induction false} TallyKeys(choice: seq<Token>)
    ensures Tally(choice).Keys == set t | t in choice :: Counters.KeyOf(t)
    decreases |choice|
  {
    if |choice| == 0 {
      assert (set t | t in choice :: Counters.KeyOf(t)) == {};
    } else {
      var init, last := choice[..|choice| - 1], choice[|choice| - 1];
      TallyKeys(init);
      assert choice == init + [last];
      assert (set t | t in choice :: Counters.KeyOf(t))
          == (set t | t in init :: Counters.KeyOf(t)) + {Counters.KeyOf(last)};
    }
  }

  lemma {:induction false} TallyGeneric(choice: seq<Token>)
    ensures Counters.Get(Tally(choice), Counters.Generic) == NumericSum(choice)
    decreases |choice|
  {
    if |choice| > 0 {
      var init, last := choice[..|choice| - 1], choice[|choice| - 1];
      TallyGeneric(init);
      assert choice == init + [last];
      NumericSumAppend(init, [last]);
      assert NumericSum([last]) == (if last.Num? then Weight(last) else 0);
    }
  }

  lemma {:induction false} TallyLetter(choice: seq<Token>, s: Symbol)
    ensures Counters.Get(Tally(choice), Counters.Mana(s)) == multiset(choice)[Sym(s)]
    decreases |choice|
  {
    if |choice| > 0 {
      var init, last := choice[..|choice| - 1], choice[|choice| - 1];
      TallyLetter(init, s);
      assert choice == init + [last];
      assert multiset(choice) == multiset(init) + multiset{last};
    }
  }

  /** Extending a choice only adds to its counter. */
  lemma TallyAppendCovers(y: seq<Token>, z: seq<Token>)
    ensures Counters.Covers(Tally(y + z), Tally(y))
  {
    TallyCounts(y);
    TallyCounts(y + z);
    NumericSumAppend(y, z);
    assert multiset(y + z) == multiset(y) + multiset(z);
    forall k ensures Counters.Get(Tally(y), k) <= Counters.Get(Tally(y + z), k) {
      match k
      case Generic =>
      case Mana(s) =>
    }
  }

  /** `combinations`: the counters of all choices. The relations below only ask
      whether some pair of counters is related, so the set loses nothing. */
  function Combinations(cost: Cost): set<Counters.Counter>
  {
    set choice | choice in Choices(cost) :: Tally(choice)
  }

  /** Every counter `combinations` yields is the tally of one choice of the
      cost, and every choice's tally is yielded. */
  lemma CombinationsAreTallies(cost: Cost, c: Counters.Counter)
    ensures c in Combinations(cost) <==> exists choice :: IsChoice(cost, choice) && Tally(choice) == c
  {
    if c in Combinations(cost) {
      var choice :| choice in Choices(cost) && Tally(choice) == c;
      ChoicesAreProduct(cost, choice);
    }
    if exists choice :: IsChoice(cost, choice) && Tally(choice) == c {
      var choice :| IsChoice(cost, choice) && Tally(choice) == c;
      ChoicesAreProduct(cost, choice);
    }
  }

  /** `a == b`: some combination of `a` equals some combination of `b`. */
  predicate Equal(a: Cost, b: Cost)
  {
    exists l, r :: l in Combinations(a) && r in Combinations(b) && l == r
  }

  /** `a < b`: some combination of `a` is below some combination of `b`. */
  predicate Less(a: Cost, b: Cost)
  {
    exists l, r :: l in Combinations(a) && r in Combinations(b) && Counters.Less(l, r)
  }

  /** `a <= b`: some combination of `a` is at most some combination of `b`. */
  predicate LessOrEqual(a: Cost, b: Cost)
  {
    exists l, r :: l in Combinations(a) && r in Combinations(b) && Counters.LessOrEqual(l, r)
  }

  /** `a > b` as `total_ordering` derives it from `<`: neither `a < b` nor `a == b`. */
  predicate Greater(a: Cost, b: Cost)
  {
    !Less(a, b) && !Equal(a, b)
  }

  /** `a >= b` as `total_ordering` derives it from `<`: not `a < b`. */
  predicate GreaterOrEqual(a: Cost, b: Cost)
  {
    !Less(a, b)
  }

  /** Every parsed cost has a combination. */
  lemma CombinationsNonEmpty(cost: Cost)
    requires WellFormed(cost)
    ensures Combinations(cost) != {}
  {
    ChoicesNonEmpty(cost);
    var choice :| choice in Choices(cost);
    assert Tally(choice) in Combinations(cost);
  }

  lemma EqualReflexive(a: Cost)
    requires WellFormed(a)
    ensures Equal(a, a)
  {
    CombinationsNonEmpty(a);
    var l :| l in Combinations(a);
    assert l in Combinations(a) && l in Combinations(a) && l == l;
  }

  lemma EqualSymmetric(a: Cost, b: Cost)
    ensures Equal(a, b) <==> Equal(b, a)
  {
  }

  lemma LessOrEqualReflexive(a: Cost)
    requires WellFormed(a)
    ensures LessOrEqual(a, a)
  {
    CombinationsNonEmpty(a);
    var l :| l in Combinations(a);
    Counters.LessOrEqualReflexive(l);
  }

  lemma LessImpliesLessOrEqual(a: Cost, b: Cost)
    ensures Less(a, b) ==> LessOrEqual(a, b)
  {
    if Less(a, b) {
      var l, r :| l in Combinations(a) && r in Combinations(b) && Counters.Less(l, r);
      Counters.LessImpliesLessOrEqual(l, r);
    }
  }

  lemma EqualImpliesLessOrEqual(a: Cost, b: Cost)
    ensures Equal(a, b) ==> LessOrEqual(a, b)
  {
    if Equal(a, b) {
      var l, r :| l in Combinations(a) && r in Combinations(b) && l == r;
      Counters.LessOrEqualReflexive(l);
    }
  }

  /** The derived `>` is irreflexive on parsed costs, because every parsed cost
      equals itself, although `<` is not irreflexive; and the derived `>=`
      holds of a cost and itself exactly when `<` does not. */
  lemma GreaterIrreflexive(a: Cost)
    requires WellFormed(a)
    ensures !Greater(a, a)
    ensures GreaterOrEqual(a, a) <==> !Less(a, a)
  {
    EqualReflexive(a);
  }

  /** A cost without groups has one choice, the empty one, and so one
      combination: the empty counter. */
  lemma CombinationsOfNoGroups()
    ensures Choices([]) == {[]}
    ensures Combinations([]) == {map[]}
  {
    assert Tally([]) == map[];
    assert [] in Choices([]);
  }

  /** The cost without groups is below every parsed cost: its one combination is
      the empty counter. */
  lemma EmptyCostIsLess(b: Cost)
    requires WellFormed(b)
    ensures Less([], b) && LessOrEqual([], b)
  {
    assert Tally([]) in Combinations([]);
    CombinationsNonEmpty(b);
    var r :| r in Combinations(b);
    Counters.EmptyIsLess(r);
  }

  lemma ChoiceAppend(b: Cost, e: Cost, y: seq<Token>, z: seq<Token>)
    requires y in Choices(b) && z in Choices(e)
    ensures y + z in Choices(b + e)
  {
    ChoicesAreProduct(b, y);
    ChoicesAreProduct(e, z);
    ChoicesAreProduct(b + e, y + z);
    forall i | 0 <= i < |b + e| ensures (y + z)[i] in (b + e)[i] {
      if i >= |b| {
        assert (y + z)[i] == z[i - |b|] && (b + e)[i] == e[i - |b|];
      }
    }
  }

  /** Adding groups to the right operand keeps `<` and `<=` true. */
  lemma AppendRightKeepsOrder(a: Cost, b: Cost, e: Cost)
    requires WellFormed(e)
    ensures Less(a, b) ==> Less(a, b + e)
    ensures LessOrEqual(a, b) ==> LessOrEqual(a, b + e)
  {
    ChoicesNonEmpty(e);
    var z :| z in Choices(e);
    forall r | r in Combinations(b)
      ensures exists r' :: r' in Combinations(b + e) && Counters.Covers(r', r)
    {
      var y :| y in Choices(b) && Tally(y) == r;
      ChoiceAppend(b, e, y, z);
      TallyAppendCovers(y, z);
      assert Tally(y + z) in Combinations(b + e);
    }
    if Less(a, b) {
      var l, r :| l in Combinations(a) && r in Combinations(b) && Counters.Less(l, r);
      var r' :| r' in Combinations(b + e) && Counters.Covers(r', r);
      Counters.ComparisonsGrowRight(l, r, r');
    }
    if LessOrEqual(a, b) {
      var l, r :| l in Combinations(a) && r in Combinations(b) && Counters.LessOrEqual(l, r);
      var r' :| r' in Combinations(b + e) && Counters.Covers(r', r);
      Counters.ComparisonsGrowRight(l, r, r');
    }
  }
}
