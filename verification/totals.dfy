/**
 `min_mana_cost` and `max_mana_cost`: per group the least (greatest) weight
 of the alternatives other than `P` and `X`, summed over the groups.
 */
module Totals {
  import opened Wrappers
  import opened Tokens
  import opened Parser
  import opened Costs

  /** What the `min`/`max` generator of one group ranges over: the weights of
      its alternatives other than `P` and `X`. */
  function ManaWeights(g: Group): set<nat>
  {
    set t | t in g && IsMana(t) :: Weight(t)
  }

  lemma {:induction false} SetHasLeast(s: set<nat>)
    requires s != {}
    ensures exists m :: m in s && forall x :: x in s ==> m <= x
    decreases s
  {
    var y :| y in s;
    var rest := s - {y};
    if rest == {} {
      assert s == {y};
    } else {
      SetHasLeast(rest);
      var m :| m in rest && forall x :: x in rest ==> m <= x;
      LeastOfOneMore(rest, y, m);
      assert s == rest + {y};
    }
  }

  lemma LeastOfOneMore(rest: set<nat>, y: nat, m: nat)
    requires m in rest && forall x :: x in rest ==> m <= x
    ensures var least := if y < m then y else m;
      least in rest + {y} && forall x :: x in rest + {y} ==> least <= x
  {
  }

  lemma {:induction false} SetHasGreatest(s: set<nat>)
    requires s != {}
    ensures exists m :: m in s && forall x :: x in s ==> x <= m
    decreases s
  {
    var y :| y in s;
    var rest := s - {y};
    if rest == {} {
      assert s == {y};
    } else {
      SetHasGreatest(rest);
      var m :| m in rest && forall x :: x in rest ==> x <= m;
      GreatestOfOneMore(rest, y, m);
      assert s == rest + {y};
    }
  }

  lemma GreatestOfOneMore(rest: set<nat>, y: nat, m: nat)
    requires m in rest && forall x :: x in rest ==> x <= m
    ensures var greatest := if y > m then y else m;
      greatest in rest + {y} && forall x :: x in rest + {y} ==> x <= greatest
  {
  }

  /** `min` of a non-empty collection of numbers. */
  function SetMin(s: set<nat>): (m: nat)
    requires s != {}
    ensures m in s && forall x :: x in s ==> m <= x
  {
    SetHasLeast(s);
    var m :| m in s && forall x :: x in s ==> m <= x;
    m
  }

  /** `max` of a non-empty collection of numbers. */
  function SetMax(s: set<nat>): (m: nat)
    requires s != {}
    ensures m in s && forall x :: x in s ==> x <= m
  {
    SetHasGreatest(s);
    var m :| m in s && forall x :: x in s ==> x <= m;
    m
  }

  /** Some group has only `P` and `X` alternatives. */
  predicate HasNonManaGroup(cost: Cost)
  {
    exists i :: 0 <= i < |cost| && ManaWeights(cost[i]) == {}
  }

  lemma NonManaGroupInTail(cost: Cost)
    requires |cost| > 0
    ensures HasNonManaGroup(cost) <==> ManaWeights(cost[0]) == {} || HasNonManaGroup(cost[1..])
  {
    if HasNonManaGroup(cost[1..]) {
      var i :| 0 <= i < |cost| - 1 && ManaWeights(cost[1..][i]) == {};
      assert cost[1..][i] == cost[i + 1];
    }
    if HasNonManaGroup(cost) && ManaWeights(cost[0]) != {} {
      var i :| 0 <= i < |cost| && ManaWeights(cost[i]) == {};
      assert cost[1..][i - 1] == cost[i];
    }
  }

  /** `min_mana_cost`: raises exactly when some group has only `P` and `X`
      alternatives, the first such group being the one `min` fails on. */
  function MinManaCost(cost: Cost): (r: Result<nat, Error>)
    ensures r.Failure? <==> HasNonManaGroup(cost)
    ensures r.Failure? ==> r.error == MinOfEmpty
    decreases |cost|
  {
    if |cost| == 0 then Success(0)
    else
      NonManaGroupInTail(cost);
      if ManaWeights(cost[0]) == {} then Failure(MinOfEmpty)
      else
        match MinManaCost(cost[1..])
        case Failure(e) => Failure(e)
        case Success(rest) => Success(SetMin(ManaWeights(cost[0])) + rest)
  }

  /** `max_mana_cost`: raises exactly when some group has only `P` and `X`
      alternatives. */
  function MaxManaCost(cost: Cost): (r: Result<nat, Error>)
    ensures r.Failure? <==> HasNonManaGroup(cost)
    ensures r.Failure? ==> r.error == MaxOfEmpty
    decreases |cost|
  {
    if |cost| == 0 then Success(0)
    else
      NonManaGroupInTail(cost);
      if ManaWeights(cost[0]) == {} then Failure(MaxOfEmpty)
      else
        match MaxManaCost(cost[1..])
        case Failure(e) => Failure(e)
        case Success(rest) => Success(SetMax(ManaWeights(cost[0])) + rest)
  }

  /** What a chosen alternative adds to a total: its weight, or 0 for `P` and `X`. */
  function ManaValue(t: Token): nat
  {
    if IsMana(t) then Weight(t) else 0
  }

  /** The total a choice pays. */
  function TotalValue(choice: seq<Token>): nat
  {
    if |choice| == 0 then 0 else ManaValue(choice[0]) + TotalValue(choice[1..])
  }

  /** A choice that takes an alternative other than `P` and `X` from every group. */
  predicate ManaChoice(cost: Cost, choice: seq<Token>)
  {
    IsChoice(cost, choice) && forall i :: 0 <= i < |choice| ==> IsMana(choice[i])
  }

  lemma ManaChoiceTail(cost: Cost, choice: seq<Token>)
    requires |cost| > 0
    ensures ManaChoice(cost, choice) <==>
      |choice| > 0 && choice[0] in cost[0] && IsMana(choice[0]) && ManaChoice(cost[1..], choice[1..])
  {
    if |choice| > 0 && ManaChoice(cost[1..], choice[1..]) {
      forall i | 1 <= i < |choice| ensures choice[i] in cost[i] && IsMana(choice[i]) {
        assert choice[1..][i - 1] == choice[i];
        assert cost[1..][i - 1] == cost[i];
      }
    }
    if ManaChoice(cost, choice) {
      forall i | 0 <= i < |choice| - 1 ensures choice[1..][i] in cost[1..][i] {
        assert choice[1..][i] == choice[i + 1];
      }
    }
  }

  /** The minimum is the least total over the choices that avoid `P` and `X`,
      and some such choice pays exactly the minimum. */
  lemma {:induction false} MinManaCostIsLeast(cost: Cost)
    requires MinManaCost(cost).Success?
    ensures forall choice :: ManaChoice(cost, choice) ==> MinManaCost(cost).value <= TotalValue(choice)
    ensures exists choice :: ManaChoice(cost, choice) && TotalValue(choice) == MinManaCost(cost).value
    decreases |cost|
  {
    if |cost| == 0 {
      assert ManaChoice(cost, []);
    } else {
      var w := ManaWeights(cost[0]);
      var v := MinManaCost(cost).value;
      MinManaCostIsLeast(cost[1..]);
      forall choice | ManaChoice(cost, choice) ensures v <= TotalValue(choice) {
        ManaChoiceTail(cost, choice);
        assert Weight(choice[0]) in w;
      }
      var t :| t in cost[0] && IsMana(t) && Weight(t) == SetMin(w);
      var tail :| ManaChoice(cost[1..], tail) && TotalValue(tail) == MinManaCost(cost[1..]).value;
      var choice := [t] + tail;
      assert choice[1..] == tail;
      ManaChoiceTail(cost, choice);
    }
  }

  /** The maximum is the greatest total over the choices that avoid `P` and `X`,
      and some such choice pays exactly the maximum. */
  lemma {:induction false} MaxManaCostIsGreatest(cost: Cost)
    requires MaxManaCost(cost).Success?
    ensures forall choice :: ManaChoice(cost, choice) ==> TotalValue(choice) <= MaxManaCost(cost).value
    ensures exists choice :: ManaChoice(cost, choice) && TotalValue(choice) == MaxManaCost(cost).value
    decreases |cost|
  {
    if |cost| == 0 {
      assert ManaChoice(cost, []);
    } else {
      var w := ManaWeights(cost[0]);
      var v := MaxManaCost(cost).value;
      MaxManaCostIsGreatest(cost[1..]);
      forall choice | ManaChoice(cost, choice) ensures TotalValue(choice) <= v {
        ManaChoiceTail(cost, choice);
        assert Weight(choice[0]) in w;
      }
      var t :| t in cost[0] && IsMana(t) && Weight(t) == SetMax(w);
      var tail :| ManaChoice(cost[1..], tail) && TotalValue(tail) == MaxManaCost(cost[1..]).value;
      var choice := [t] + tail;
      assert choice[1..] == tail;
      ManaChoiceTail(cost, choice);
    }
  }

  /** Both totals raise on the same costs, and otherwise the minimum is at most
      the maximum. */
  lemma MinAtMostMax(cost: Cost)
    ensures MinManaCost(cost).Success? <==> MaxManaCost(cost).Success?
    ensures MinManaCost(cost).Success? ==> MinManaCost(cost).value <= MaxManaCost(cost).value
  {
    if MinManaCost(cost).Success? {
      MinManaCostIsLeast(cost);
      MaxManaCostIsGreatest(cost);
      var choice :| ManaChoice(cost, choice) && TotalValue(choice) == MinManaCost(cost).value;
    }
  }

  /** The least weight of a group's mana alternatives, or 0 when it has none. */
  function GroupMinOrZero(g: Group): nat
  {
    if ManaWeights(g) == {} then 0 else SetMin(ManaWeights(g))
  }

  /** The greatest weight of a group's mana alternatives, or 0 when it has none. */
  function GroupMaxOrZero(g: Group): nat
  {
    if ManaWeights(g) == {} then 0 else SetMax(ManaWeights(g))
  }

  /** The evidently intended `min_mana_cost`: a group with only `P` and `X`
      alternatives adds 0 instead of raising; it agrees with the source
      wherever the source returns. */
  function IntendedMinManaCost(cost: Cost): (r: nat)
    ensures MinManaCost(cost).Success? ==> MinManaCost(cost).value == r
    decreases |cost|
  {
    if |cost| == 0 then 0 else GroupMinOrZero(cost[0]) + IntendedMinManaCost(cost[1..])
  }

  /** The evidently intended `max_mana_cost`, in the same way. */
  function IntendedMaxManaCost(cost: Cost): (r: nat)
    ensures MaxManaCost(cost).Success? ==> MaxManaCost(cost).value == r
    decreases |cost|
  {
    if |cost| == 0 then 0 else GroupMaxOrZero(cost[0]) + IntendedMaxManaCost(cost[1..])
  }

  /** A choice that avoids `P` and `X` in every group that has another alternative. */
  predicate AdmissibleChoice(cost: Cost, choice: seq<Token>)
  {
    IsChoice(cost, choice) && forall i :: 0 <= i < |cost| ==> ManaWeights(cost[i]) != {} ==> IsMana(choice[i])
  }

  lemma AdmissibleChoiceTail(cost: Cost, choice: seq<Token>)
    requires |cost| > 0
    ensures AdmissibleChoice(cost, choice) <==>
      && |choice| > 0 && choice[0] in cost[0]
      && (ManaWeights(cost[0]) != {} ==> IsMana(choice[0]))
      && AdmissibleChoice(cost[1..], choice[1..])
  {
    if |choice| > 0 && AdmissibleChoice(cost[1..], choice[1..]) {
      forall i | 1 <= i < |cost| ensures choice[i] in cost[i] && (ManaWeights(cost[i]) != {} ==> IsMana(choice[i])) {
        assert choice[1..][i - 1] == choice[i];
        assert cost[1..][i - 1] == cost[i];
      }
    }
    if AdmissibleChoice(cost, choice) {
      forall i | 0 <= i < |cost| - 1
        ensures choice[1..][i] in cost[1..][i] && (ManaWeights(cost[1..][i]) != {} ==> IsMana(choice[1..][i]))
      {
        assert choice[1..][i] == choice[i + 1];
        assert cost[1..][i] == cost[i + 1];
      }
    }
  }

  /** A group without mana alternatives adds nothing whatever is chosen from it. */
  lemma NonManaGroupAddsNothing(g: Group, t: Token)
    requires t in g && ManaWeights(g) == {}
    ensures ManaValue(t) == 0
  {
    assert IsMana(t) ==> Weight(t) in ManaWeights(g);
  }

  /** The intended minimum is the least total over the admissible choices, and
      some admissible choice pays exactly that. */
  lemma {:induction false} IntendedMinIsLeast(cost: Cost)
    requires WellFormed(cost)
    ensures forall choice :: AdmissibleChoice(cost, choice) ==> IntendedMinManaCost(cost) <= TotalValue(choice)
    ensures exists choice :: AdmissibleChoice(cost, choice) && TotalValue(choice) == IntendedMinManaCost(cost)
    decreases |cost|
  {
    if |cost| == 0 {
      assert AdmissibleChoice(cost, []);
    } else {
      var w := ManaWeights(cost[0]);
      IntendedMinIsLeast(cost[1..]);
      forall choice | AdmissibleChoice(cost, choice) ensures IntendedMinManaCost(cost) <= TotalValue(choice) {
        AdmissibleChoiceTail(cost, choice);
        if w != {} {
          assert Weight(choice[0]) in w;
        }
      }
      var t: Token;
      if w == {} {
        assert cost[0] != {};
        t :| t in cost[0];
        NonManaGroupAddsNothing(cost[0], t);
      } else {
        t :| t in cost[0] && IsMana(t) && Weight(t) == SetMin(w);
      }
      var tail :| AdmissibleChoice(cost[1..], tail) && TotalValue(tail) == IntendedMinManaCost(cost[1..]);
      var choice := [t] + tail;
      assert choice[1..] == tail;
      AdmissibleChoiceTail(cost, choice);
    }
  }

  /** The intended maximum is the greatest total over the admissible choices,
      and some admissible choice pays exactly that. */
  lemma {:induction false} IntendedMaxIsGreatest(cost: Cost)
    requires WellFormed(cost)
    ensures forall choice :: AdmissibleChoice(cost, choice) ==> TotalValue(choice) <= IntendedMaxManaCost(cost)
    ensures exists choice :: AdmissibleChoice(cost, choice) && TotalValue(choice) == IntendedMaxManaCost(cost)
    decreases |cost|
  {
    if |cost| == 0 {
      assert AdmissibleChoice(cost, []);
    } else {
      var w := ManaWeights(cost[0]);
      IntendedMaxIsGreatest(cost[1..]);
      forall choice | AdmissibleChoice(cost, choice) ensures TotalValue(choice) <= IntendedMaxManaCost(cost) {
        AdmissibleChoiceTail(cost, choice);
        if w != {} {
          assert Weight(choice[0]) in w;
        } else {
          NonManaGroupAddsNothing(cost[0], choice[0]);
        }
      }
      var t: Token;
      if w == {} {
        assert cost[0] != {};
        t :| t in cost[0];
        NonManaGroupAddsNothing(cost[0], t);
      } else {
        t :| t in cost[0] && IsMana(t) && Weight(t) == SetMax(w);
      }
      var tail :| AdmissibleChoice(cost[1..], tail) && TotalValue(tail) == IntendedMaxManaCost(cost[1..]);
      var choice := [t] + tail;
      assert choice[1..] == tail;
      AdmissibleChoiceTail(cost, choice);
    }
  }

  /** The intended minimum never exceeds the intended maximum. */
  lemma IntendedMinAtMostMax(cost: Cost)
    requires WellFormed(cost)
    ensures IntendedMinManaCost(cost) <= IntendedMaxManaCost(cost)
  {
    IntendedMinIsLeast(cost);
    IntendedMaxIsGreatest(cost);
    var choice :| AdmissibleChoice(cost, choice) && TotalValue(choice) == IntendedMinManaCost(cost);
  }
}
