/**
 The cases of the repository's test suite, and a few consequences of the
 comparison rules, stated about the model: each test lemma takes the texts of
 one parametrized case and proves what the test asserts of them.
 */
module Examples {
  import opened Wrappers
  import opened Tokens
  import opened Parser
  import opened Costs
  import opened Totals
  import Counters

  /** The alternatives of a list, as a set. */
  function Elements(alts: seq<Token>): set<Token>
  {
    if |alts| == 0 then {} else {alts[0]} + Elements(alts[1..])
  }

  lemma {:induction false} ElementsAreMembers(alts: seq<Token>)
    ensures Elements(alts) == set t | t in alts
    decreases |alts|
  {
    if |alts| > 0 {
      ElementsAreMembers(alts[1..]);
      assert forall t :: t in alts <==> t == alts[0] || t in alts[1..];
    } else {
      assert (set t | t in alts) == {};
    }
  }

  lemma ParseEmpty()
    ensures Parse("") == []
  {
    assert FindAll("") == [];
  }

  /** A group written in front of a text adds its alternatives in front of
      what the text parses to. */
  lemma ParseGroupThen(alts: seq<Token>, g: Group, rest: string, cost: Cost)
    requires |alts| >= 1 && Elements(alts) == g && Parse(rest) == cost
    ensures Parse(RenderGroup(alts) + rest) == [g] + cost
  {
    ParseGroupPrefix(alts, rest);
    ElementsAreMembers(alts);
  }

  // Costs whose groups each have one alternative

  /** The text of one alternative per group: `{a}{b}...`. */
  function SingletonsText(ts: seq<Token>): string
  {
    if |ts| == 0 then "" else RenderGroup([ts[0]]) + SingletonsText(ts[1..])
  }

  /** The cost of one alternative per group. */
  function Singletons(ts: seq<Token>): Cost
  {
    if |ts| == 0 then [] else [{ts[0]}] + Singletons(ts[1..])
  }

  lemma {:induction false} ParseSingletons(ts: seq<Token>)
    ensures Parse(SingletonsText(ts)) == Singletons(ts)
    decreases |ts|
  {
    if |ts| == 0 {
      ParseEmpty();
    } else {
      ParseSingletons(ts[1..]);
      ParseGroupThen([ts[0]], {ts[0]}, SingletonsText(ts[1..]), Singletons(ts[1..]));
    }
  }

  /** A text of one alternative per group parses to one group per alternative. */
  lemma ParseSingletonsText(text: string, ts: seq<Token>)
    requires text == SingletonsText(ts)
    ensures Parse(text) == Singletons(ts)
  {
    ParseSingletons(ts);
  }

  /** The text of one alternative per group, split anywhere. */
  lemma {:induction false} SingletonsTextAppend(xs: seq<Token>, ys: seq<Token>)
    ensures SingletonsText(xs + ys) == SingletonsText(xs) + SingletonsText(ys)
    decreases |xs|
  {
    if |xs| == 0 {
      assert xs + ys == ys;
    } else {
      var zs := xs + ys;
      assert zs[0] == xs[0] && zs[1..] == xs[1..] + ys;
      SingletonsTextAppend(xs[1..], ys);
      var head := RenderGroup([xs[0]]);
      calc {
        SingletonsText(zs);
        head + SingletonsText(xs[1..] + ys);
        head + (SingletonsText(xs[1..]) + SingletonsText(ys));
        (head + SingletonsText(xs[1..])) + SingletonsText(ys);
      }
    }
  }

  lemma SingletonsTextOf(ts: seq<Token>, text: string)
    requires text == SingletonsText(ts)
    ensures SingletonsText(ts) == text
  {
  }

  lemma {:induction false} SingletonsAt(ts: seq<Token>)
    ensures |Singletons(ts)| == |ts|
    ensures forall i :: 0 <= i < |ts| ==> Singletons(ts)[i] == {ts[i]}
    decreases |ts|
  {
    if |ts| > 0 {
      SingletonsAt(ts[1..]);
      forall i | 1 <= i < |ts| ensures Singletons(ts)[i] == {ts[i]} {
        assert Singletons(ts)[i] == Singletons(ts[1..])[i - 1];
      }
    }
  }

  /** A cost of one alternative per group has the one combination of those
      alternatives. */
  lemma SingletonsCombination(cost: Cost, ts: seq<Token>)
    requires cost == Singletons(ts)
    ensures Combinations(cost) == {Tally(ts)}
  {
    SingletonsAt(ts);
    ChoicesAreProduct(cost, ts);
    forall c | c in Combinations(cost) ensures c == Tally(ts) {
      var other :| other in Choices(cost) && Tally(other) == c;
      ChoicesAreProduct(cost, other);
      assert other == ts;
    }
  }

  /** ... and so one variation, once it has a group. */
  lemma {:induction false} SingletonsVariations(cost: Cost, ts: seq<Token>)
    requires cost == Singletons(ts)
    ensures |ts| > 0 ==> NumVariations(cost) == Success(1)
    ensures Product(cost) == 1
    decreases |ts|
  {
    if |ts| > 0 {
      SingletonsVariations(cost[1..], ts[1..]);
      assert |{ts[0]}| == 1;
    }
  }

  /** ... and its least and greatest totals are both the total of its one
      choice, unless it has a `P` or `X`. */
  lemma {:induction false} SingletonsTotals(cost: Cost, ts: seq<Token>)
    requires cost == Singletons(ts)
    requires forall i :: 0 <= i < |ts| ==> IsMana(ts[i])
    ensures MinManaCost(cost) == Success(TotalValue(ts))
    ensures MaxManaCost(cost) == Success(TotalValue(ts))
    decreases |ts|
  {
    if |ts| > 0 {
      SingletonsTotals(cost[1..], ts[1..]);
      assert cost[0] == {ts[0]};
      assert ManaWeights(cost[0]) == {Weight(ts[0])};
    }
  }

  /** Two costs with one combination each compare as those two counters do. */
  lemma SingleCombinationRelations(a: Cost, b: Cost, x: Counters.Counter, y: Counters.Counter)
    requires Combinations(a) == {x} && Combinations(b) == {y}
    ensures Equal(a, b) <==> x == y
    ensures Less(a, b) <==> Counters.Less(x, y)
    ensures LessOrEqual(a, b) <==> Counters.LessOrEqual(x, y)
  {
    assert x in Combinations(a) && y in Combinations(b);
  }

  /** Two costs of one alternative per group compare as the counters of
      those alternatives do. */
  lemma SingletonsCompare(a: Cost, b: Cost, xs: seq<Token>, ys: seq<Token>)
    requires a == Singletons(xs) && b == Singletons(ys)
    ensures Equal(a, b) <==> Tally(xs) == Tally(ys)
    ensures Less(a, b) <==> Counters.Less(Tally(xs), Tally(ys))
    ensures LessOrEqual(a, b) <==> Counters.LessOrEqual(Tally(xs), Tally(ys))
  {
    SingletonsCombination(a, xs);
    SingletonsCombination(b, ys);
    SingleCombinationRelations(a, b, Tally(xs), Tally(ys));
  }

  /** A cost of one group with two alternatives has their two counters. */
  lemma TwoWayCombinations(cost: Cost, x: Token, y: Token)
    requires cost == [{x, y}]
    ensures Combinations(cost) == {Tally([x]), Tally([y])}
  {
    ChoicesAreProduct(cost, [x]);
    ChoicesAreProduct(cost, [y]);
    forall c | c in Combinations(cost) ensures c == Tally([x]) || c == Tally([y]) {
      var choice :| choice in Choices(cost) && Tally(choice) == c;
      ChoicesAreProduct(cost, choice);
      assert choice == [choice[0]];
    }
  }

  // Counters and numbers the cases need

  /** The counter of a choice, one more token on the right. */
  lemma TallyStep(choice: seq<Token>, t: Token)
    ensures Tally(choice + [t]) == Counters.Add(Tally(choice), t)
  {
    assert (choice + [t])[..|choice|] == choice;
  }

  lemma TallyOfOne(t: Token)
    ensures Tally([t]) == map[Counters.KeyOf(t) := Weight(t)]
  {
    TallyStep([], t);
  }

  lemma TallyOfReds()
    ensures Tally([Sym(R)]) == map[Counters.Mana(R) := 1]
    ensures Tally([Sym(R), Sym(R)]) == map[Counters.Mana(R) := 2]
    ensures Tally([Sym(R), Sym(R), Sym(R)]) == map[Counters.Mana(R) := 3]
  {
    var red := Sym(R);
    TallyOfOne(red);
    TallyStep([red], red);
    assert [red] + [red] == [red, red];
    TallyStep([red, red], red);
    assert [red, red] + [red] == [red, red, red];
  }

  lemma TallyOfRedsAndGreen()
    ensures Tally([Sym(R), Sym(R), Sym(G)]) == map[Counters.Mana(R) := 2, Counters.Mana(G) := 1]
    ensures Tally([Sym(R), Sym(R), Sym(R), Sym(G)]) == map[Counters.Mana(R) := 3, Counters.Mana(G) := 1]
  {
    var red, green := Sym(R), Sym(G);
    TallyOfReds();
    TallyStep([red, red], green);
    assert [red, red] + [green] == [red, red, green];
    TallyStep([red, red, red], green);
    assert [red, red, red] + [green] == [red, red, red, green];
  }

  lemma TallyOfRedsAndGreens()
    ensures Tally([Sym(R), Sym(R), Sym(R), Sym(G), Sym(G)]) == map[Counters.Mana(R) := 3, Counters.Mana(G) := 2]
  {
    var red, green := Sym(R), Sym(G);
    TallyOfRedsAndGreen();
    TallyStep([red, red, red, green], green);
    assert [red, red, red, green] + [green] == [red, red, red, green, green];
  }

  /** The value of a numeral, one more digit on the right. */
  lemma DigitsStep(s: string, ch: char)
    requires forall i :: 0 <= i < |s| ==> IsDigit(s[i])
    requires IsDigit(ch)
    ensures DigitsValue(s + [ch]) == DigitsValue(s) * 10 + DigitValue(ch)
  {
    assert (s + [ch])[..|s|] == s;
  }

  lemma SmallNumbers()
    ensures Weight(Num("0")) == 0 && Weight(Num("1")) == 1 && Weight(Num("2")) == 2
    ensures Weight(Num("5")) == 5 && Weight(Num("6")) == 6
  {
    DigitsStep("", '0');
    DigitsStep("", '1');
    DigitsStep("", '2');
    DigitsStep("", '5');
    DigitsStep("", '6');
  }

  lemma TallyOfFiveAndReds()
    ensures Tally([Num("5"), Sym(R)]) == map[Counters.Generic := 5, Counters.Mana(R) := 1]
    ensures Tally([Num("5"), Sym(R), Sym(R)]) == map[Counters.Generic := 5, Counters.Mana(R) := 2]
  {
    var five, red := Num("5"), Sym(R);
    SmallNumbers();
    TallyOfOne(five);
    TallyStep([five], red);
    assert [five] + [red] == [five, red];
    TallyStep([five, red], red);
    assert [five, red] + [red] == [five, red, red];
  }

  lemma TallyOfSixAndReds()
    ensures Tally([Num("6"), Sym(R), Sym(R)]) == map[Counters.Generic := 6, Counters.Mana(R) := 2]
  {
    var six, red := Num("6"), Sym(R);
    SmallNumbers();
    TallyOfOne(six);
    TallyStep([six], red);
    assert [six] + [red] == [six, red];
    TallyStep([six, red], red);
    assert [six, red] + [red] == [six, red, red];
  }

  lemma Ten()
    ensures Weight(Num("10")) == 10
  {
    DigitsStep("", '1');
    DigitsStep("1", '0');
  }

  lemma FiveThousand()
    ensures Weight(Num("5000")) == 5000
  {
    DigitsStep("", '5');
    assert DigitsValue("5") == 5;
    DigitsStep("5", '0');
    assert DigitsValue("50") == 50;
    DigitsStep("50", '0');
    assert DigitsValue("500") == 500;
    DigitsStep("500", '0');
    assert "500" + ['0'] == "5000";
  }

  lemma OneMillion()
    ensures Weight(Num("1000000")) == 1000000
  {
    DigitsStep("", '1');
    assert DigitsValue("1") == 1;
    DigitsStep("1", '0');
    assert DigitsValue("10") == 10;
    DigitsStep("10", '0');
    assert DigitsValue("100") == 100;
    DigitsStep("100", '0');
    assert "100" + ['0'] == "1000";
    DigitsStep("1000", '0');
    assert "1000" + ['0'] == "10000";
    DigitsStep("10000", '0');
    assert "10000" + ['0'] == "100000";
    DigitsStep("100000", '0');
    assert "100000" + ['0'] == "1000000";
  }

  // The texts with hybrid groups, each with the cost it parses to

  lemma ParseOneGroup(text: string, alts: seq<Token>, g: Group)
    requires |alts| >= 1 && text == RenderGroup(alts) && Elements(alts) == g
    ensures Parse(text) == [g]
  {
    ParseEmpty();
    ParseGroupThen(alts, g, "", []);
    assert text == RenderGroup(alts) + "";
  }

  lemma ParseTwoGroups(text: string, first: seq<Token>, g: Group, second: seq<Token>, h: Group)
    requires |first| >= 1 && Elements(first) == g
    requires |second| >= 1 && Elements(second) == h
    requires text == RenderGroup(first) + RenderGroup(second)
    ensures Parse(text) == [g, h]
  {
    ParseOneGroup(RenderGroup(second), second, h);
    ParseGroupThen(first, g, RenderGroup(second), [h]);
  }

  // Texts of one alternative per group

  lemma ParseRed(text: string)
    requires text == "{R}"
    ensures Parse(text) == Singletons([Sym(R)])
  {
    ParseSingletonsText(text, [Sym(R)]);
  }

  lemma ParseBlue(text: string)
    requires text == "{U}"
    ensures Parse(text) == Singletons([Sym(U)])
  {
    ParseSingletonsText(text, [Sym(U)]);
  }

  lemma ParseRedRed(text: string)
    requires text == "{R}{R}"
    ensures Parse(text) == Singletons([Sym(R), Sym(R)])
  {
    ParseSingletonsText(text, [Sym(R), Sym(R)]);
  }

  lemma ParseThreeReds(text: string)
    requires text == "{R}{R}{R}"
    ensures Parse(text) == Singletons([Sym(R), Sym(R), Sym(R)])
  {
    var ts := [Sym(R), Sym(R), Sym(R)];
    assert SingletonsText(ts[2..]) == "{R}";
    assert SingletonsText(ts[1..]) == "{R}{R}";
    ParseSingletonsText(text, ts);
  }

  lemma ParseFiveRed(text: string)
    requires text == "{5}{R}"
    ensures Parse(text) == Singletons([Num("5"), Sym(R)])
  {
    ParseSingletonsText(text, [Num("5"), Sym(R)]);
  }

  lemma ParseFiveRedRed(text: string)
    requires text == "{5}{R}{R}"
    ensures Parse(text) == Singletons([Num("5"), Sym(R), Sym(R)])
  {
    var ts := [Num("5"), Sym(R), Sym(R)];
    assert SingletonsText(ts[2..]) == "{R}";
    assert SingletonsText(ts[1..]) == "{R}{R}";
    ParseSingletonsText(text, ts);
  }

  lemma ParseSixRedRed(text: string)
    requires text == "{6}{R}{R}"
    ensures Parse(text) == Singletons([Num("6"), Sym(R), Sym(R)])
  {
    var ts := [Num("6"), Sym(R), Sym(R)];
    assert SingletonsText(ts[2..]) == "{R}";
    assert SingletonsText(ts[1..]) == "{R}{R}";
    ParseSingletonsText(text, ts);
  }

  lemma ParseRedRedGreen(text: string)
    requires text == "{R}{R}{G}"
    ensures Parse(text) == Singletons([Sym(R), Sym(R), Sym(G)])
  {
    var ts := [Sym(R), Sym(R), Sym(G)];
    assert SingletonsText(ts[2..]) == "{G}";
    assert SingletonsText(ts[1..]) == "{R}{G}";
    ParseSingletonsText(text, ts);
  }

  lemma ParseThreeRedsGreen(text: string)
    requires text == "{R}{R}{R}{G}"
    ensures Parse(text) == Singletons([Sym(R), Sym(R), Sym(R), Sym(G)])
  {
    var ts := [Sym(R), Sym(R), Sym(R), Sym(G)];
    assert SingletonsText(ts[3..]) == "{G}";
    assert SingletonsText(ts[2..]) == "{R}{G}";
    assert SingletonsText(ts[1..]) == "{R}{R}{G}";
    ParseSingletonsText(text, ts);
  }

  lemma ParseThreeRedsTwoGreens(text: string)
    requires text == "{R}{R}{R}{G}{G}"
    ensures Parse(text) == Singletons([Sym(R), Sym(R), Sym(R), Sym(G), Sym(G)])
  {
    var xs, ys := [Sym(R), Sym(R), Sym(R)], [Sym(G), Sym(G)];
    SingletonsTextOf(xs, "{R}{R}{R}");
    SingletonsTextOf(ys, "{G}{G}");
    SingletonsTextAppend(xs, ys);
    assert text == "{R}{R}{R}" + "{G}{G}";
    assert xs + ys == [Sym(R), Sym(R), Sym(R), Sym(G), Sym(G)];
    ParseSingletonsText(text, xs + ys);
  }

  lemma ParseFiveThousand(text: string)
    requires text == "{5000}"
    ensures Parse(text) == Singletons([Num("5000")])
  {
    ParseSingletonsText(text, [Num("5000")]);
  }

  lemma ParseOneMillion(text: string)
    requires text == "{1000000}"
    ensures Parse(text) == Singletons([Num("1000000")])
  {
    ParseSingletonsText(text, [Num("1000000")]);
  }

  lemma ParseZero(text: string)
    requires text == "{0}"
    ensures Parse(text) == Singletons([Num("0")])
  {
    ParseSingletonsText(text, [Num("0")]);
  }

  lemma ParseNothing(text: string)
    requires text == ""
    ensures Parse(text) == Singletons([])
  {
    ParseSingletonsText(text, []);
  }

  lemma ParseRepeatedRed(text: string)
    requires text == "{R/R/R}"
    ensures Parse(text) == [{Sym(R)}]
  {
    ParseOneGroup(text, [Sym(R), Sym(R), Sym(R)], {Sym(R)});
  }

  lemma ParseFourNumbers(text: string)
    requires text == "{1/2/3/4}"
    ensures Parse(text) == [{Num("1"), Num("2"), Num("3"), Num("4")}]
  {
    ParseOneGroup(text, [Num("1"), Num("2"), Num("3"), Num("4")], {Num("1"), Num("2"), Num("3"), Num("4")});
  }

  lemma ParseRedOrWhite(text: string)
    requires text == "{R/W}"
    ensures Parse(text) == [{Sym(R), Sym(W)}]
  {
    ParseOneGroup(text, [Sym(R), Sym(W)], {Sym(R), Sym(W)});
  }

  lemma ParseRedOrWhiteTwice(text: string)
    requires text == "{R/W}{R/W}"
    ensures Parse(text) == [{Sym(R), Sym(W)}, {Sym(R), Sym(W)}]
  {
    ParseTwoGroups(text, [Sym(R), Sym(W)], {Sym(R), Sym(W)}, [Sym(R), Sym(W)], {Sym(R), Sym(W)});
  }

  lemma ParseRedThenWhiteOrRed(text: string)
    requires text == "{R}{W/R}"
    ensures Parse(text) == [{Sym(R)}, {Sym(W), Sym(R)}]
  {
    ParseTwoGroups(text, [Sym(R)], {Sym(R)}, [Sym(W), Sym(R)], {Sym(W), Sym(R)});
  }

  lemma ParseFiveOrRedThenWhite(text: string)
    requires text == "{5/R}{W}"
    ensures Parse(text) == [{Num("5"), Sym(R)}, {Sym(W)}]
  {
    ParseTwoGroups(text, [Num("5"), Sym(R)], {Num("5"), Sym(R)}, [Sym(W)], {Sym(W)});
  }

  /** The group `{W/R/G/B/U/10}`, as rendered and as a set. */
  lemma FiveColorsOrTen(alts: seq<Token>, g: Group)
    requires alts == [Sym(W), Sym(R), Sym(G), Sym(B), Sym(U), Num("10")]
    requires g == {Sym(W), Sym(R), Sym(G), Sym(B), Sym(U), Num("10")}
    ensures RenderGroup(alts) == "{W/R/G/B/U/10}" && Elements(alts) == g
  {
    var pieces := ["W", "R", "G", "B", "U", "10"];
    FiveColorsOrTenTexts(alts, pieces);
    FiveColorsOrTenJoin(pieces);
    FiveColorsOrTenElements(alts, g);
  }

  lemma FiveColorsOrTenTexts(alts: seq<Token>, pieces: seq<string>)
    requires alts == [Sym(W), Sym(R), Sym(G), Sym(B), Sym(U), Num("10")]
    requires pieces == ["W", "R", "G", "B", "U", "10"]
    ensures Texts(alts) == pieces
  {
  }

  lemma FiveColorsOrTenJoin(pieces: seq<string>)
    requires pieces == ["W", "R", "G", "B", "U", "10"]
    ensures Join(pieces) == "W/R/G/B/U/10"
  {
    assert Join(pieces[5..]) == "10";
    assert Join(pieces[4..]) == "U/10";
    assert Join(pieces[3..]) == "B/U/10";
    assert Join(pieces[2..]) == "G/B/U/10";
    assert Join(pieces[1..]) == "R/G/B/U/10";
  }

  lemma FiveColorsOrTenElements(alts: seq<Token>, g: Group)
    requires alts == [Sym(W), Sym(R), Sym(G), Sym(B), Sym(U), Num("10")]
    requires g == {Sym(W), Sym(R), Sym(G), Sym(B), Sym(U), Num("10")}
    ensures Elements(alts) == g
  {
    ElementsAreMembers(alts);
    forall t | t in g ensures t in alts {
      if t == Num("10") { assert alts[5] == t; }
    }
  }

  lemma ParseFiveColorsOrTenTwice(text: string)
    requires text == "{W/R/G/B/U/10}{W/R/G/B/U/10}"
    ensures Parse(text) == [{Sym(W), Sym(R), Sym(G), Sym(B), Sym(U), Num("10")}, {Sym(W), Sym(R), Sym(G), Sym(B), Sym(U), Num("10")}]
  {
    var half := "{W/R/G/B/U/10}";
    assert text == half + half;
    ParseFiveColorsOrTenHalves(text, half);
  }

  lemma ParseFiveColorsOrTenHalves(text: string, half: string)
    requires half == "{W/R/G/B/U/10}" && text == half + half
    ensures Parse(text) == [{Sym(W), Sym(R), Sym(G), Sym(B), Sym(U), Num("10")}, {Sym(W), Sym(R), Sym(G), Sym(B), Sym(U), Num("10")}]
  {
    var alts := [Sym(W), Sym(R), Sym(G), Sym(B), Sym(U), Num("10")];
    var g := {Sym(W), Sym(R), Sym(G), Sym(B), Sym(U), Num("10")};
    FiveColorsOrTen(alts, g);
    ParseTwoGroups(text, alts, g, alts, g);
  }

  lemma ParseRedOrGreen(text: string)
    requires text == "{R/G}"
    ensures Parse(text) == [{Sym(R), Sym(G)}]
  {
    ParseOneGroup(text, [Sym(R), Sym(G)], {Sym(R), Sym(G)});
  }

  lemma ParseOneOrTwo(text: string)
    requires text == "{1/2}"
    ensures Parse(text) == [{Num("1"), Num("2")}]
  {
    ParseOneGroup(text, [Num("1"), Num("2")], {Num("1"), Num("2")});
  }

  // test_variations

  lemma VariationsOfRed(text: string)
    requires text == "{R}"
    ensures NumVariations(Parse(text)) == Success(1)
  {
    ParseRed(text);
    SingletonsVariations(Parse(text), [Sym(R)]);
  }

  /** Duplicates within a group collapse. */
  lemma VariationsOfRepeatedRed(text: string)
    requires text == "{R/R/R}"
    ensures NumVariations(Parse(text)) == Success(1)
  {
    ParseRepeatedRed(text);
    SingletonsVariations(Parse(text), [Sym(R)]);
  }

  lemma VariationsOfFourNumbers(text: string)
    requires text == "{1/2/3/4}"
    ensures NumVariations(Parse(text)) == Success(4)
  {
    ParseFourNumbers(text);
    FourNumbersVariations(Parse(text));
  }

  lemma FourNumbersVariations(c: Cost)
    requires c == [{Num("1"), Num("2"), Num("3"), Num("4")}]
    ensures NumVariations(c) == Success(4)
  {
    var one, two, three, four := Num("1"), Num("2"), Num("3"), Num("4");
    assert one.digits[0] != two.digits[0] && three.digits[0] != four.digits[0];
    assert one.digits[0] != three.digits[0] && two.digits[0] != four.digits[0];
    assert one.digits[0] != four.digits[0] && two.digits[0] != three.digits[0];
    assert |{one, two}| == 2 && |{one, two, three}| == 3;
    assert |c[0]| == 4;
    assert c[1..] == [];
    assert Product(c) == 4;
  }

  lemma VariationsOfTwoOnes(text: string)
    requires text == "{1}{1}"
    ensures NumVariations(Parse(text)) == Success(1)
  {
    ParseSingletonsText(text, [Num("1"), Num("1")]);
    SingletonsVariations(Parse(text), [Num("1"), Num("1")]);
  }

  /** Variations multiply across groups. */
  lemma VariationsOfTwoHybrids(text: string)
    requires text == "{R/W}{R/W}"
    ensures NumVariations(Parse(text)) == Success(4)
  {
    ParseRedOrWhiteTwice(text);
    TwoHybridsVariations(Parse(text));
  }

  lemma TwoHybridsVariations(c: Cost)
    requires c == [{Sym(R), Sym(W)}, {Sym(R), Sym(W)}]
    ensures NumVariations(c) == Success(4)
  {
    assert c[1..][1..] == [] && |c[0]| == 2 && |c[1..][0]| == 2;
    assert Product(c[1..]) == 2;
  }

  // test_min_and_max

  lemma MinMaxOfRed(text: string)
    requires text == "{R}"
    ensures MinManaCost(Parse(text)) == Success(1) && MaxManaCost(Parse(text)) == Success(1)
  {
    ParseRed(text);
    SingletonsTotalsAre(Parse(text), [Sym(R)], 1);
  }

  /** The totals of a cost of one alternative per group, all of them mana. */
  lemma SingletonsTotalsAre(c: Cost, ts: seq<Token>, total: nat)
    requires c == Singletons(ts) && TotalValue(ts) == total
    requires forall i :: 0 <= i < |ts| ==> IsMana(ts[i])
    ensures MinManaCost(c) == Success(total) && MaxManaCost(c) == Success(total)
  {
    SingletonsTotals(c, ts);
  }

  lemma MinMaxOfRedRed(text: string)
    requires text == "{R}{R}"
    ensures MinManaCost(Parse(text)) == Success(2) && MaxManaCost(Parse(text)) == Success(2)
  {
    ParseRedRed(text);
    SingletonsTotalsAre(Parse(text), [Sym(R), Sym(R)], 2);
  }

  lemma MinMaxOfFiveRed(text: string)
    requires text == "{5}{R}"
    ensures MinManaCost(Parse(text)) == Success(6) && MaxManaCost(Parse(text)) == Success(6)
  {
    ParseFiveRed(text);
    FiveRedTotals(Parse(text));
  }

  lemma FiveRedTotals(c: Cost)
    requires c == Singletons([Num("5"), Sym(R)])
    ensures MinManaCost(c) == Success(6) && MaxManaCost(c) == Success(6)
  {
    SmallNumbers();
    SingletonsTotalsAre(c, [Num("5"), Sym(R)], 6);
  }

  lemma MinMaxOfFiveOrRedWhite(text: string)
    requires text == "{5/R}{W}"
    ensures MinManaCost(Parse(text)) == Success(2) && MaxManaCost(Parse(text)) == Success(6)
  {
    ParseFiveOrRedThenWhite(text);
    TotalsOfFiveOrRedThenWhite(Parse(text));
  }

  lemma TotalsOfFiveOrRedThenWhite(c: Cost)
    requires c == [{Num("5"), Sym(R)}, {Sym(W)}]
    ensures MinManaCost(c) == Success(2) && MaxManaCost(c) == Success(6)
  {
    SmallNumbers();
    SingletonsTotals(c[1..], [Sym(W)]);
    assert ManaWeights(c[0]) == {5, 1};
  }

  lemma MinMaxOfFiveColorsOrTenTwice(text: string)
    requires text == "{W/R/G/B/U/10}{W/R/G/B/U/10}"
    ensures MinManaCost(Parse(text)) == Success(2) && MaxManaCost(Parse(text)) == Success(20)
  {
    ParseFiveColorsOrTenTwice(text);
    TotalsOfFiveColorsOrTenTwice(Parse(text));
  }

  lemma FiveColorsOrTenWeights(g: Group)
    requires g == {Sym(W), Sym(R), Sym(G), Sym(B), Sym(U), Num("10")}
    ensures ManaWeights(g) == {1, 10}
  {
    Ten();
    forall v | v in ManaWeights(g) ensures v == 1 || v == 10 {
      var t :| t in g && IsMana(t) && Weight(t) == v;
    }
    assert Weight(Sym(W)) == 1;
  }

  lemma TotalsOfFiveColorsOrTenTwice(c: Cost)
    requires c == [{Sym(W), Sym(R), Sym(G), Sym(B), Sym(U), Num("10")}, {Sym(W), Sym(R), Sym(G), Sym(B), Sym(U), Num("10")}]
    ensures MinManaCost(c) == Success(2) && MaxManaCost(c) == Success(20)
  {
    FiveColorsOrTenWeights(c[0]);
    assert c[1..] == [c[0]] && c[1..][1..] == [];
    assert MinManaCost(c[1..]) == Success(1) && MaxManaCost(c[1..]) == Success(10);
  }

  // test_equal

  lemma EqualOfRedAndRed(left: string, right: string)
    requires left == "{R}" && right == "{R}"
    ensures Equal(Parse(left), Parse(right))
  {
    ParseRed(left);
    SingletonsCompare(Parse(left), Parse(right), [Sym(R)], [Sym(R)]);
  }

  /** The case the suite marks as an expected failure: `{R}` and `{U}` are not equal. */
  lemma NotEqualOfRedAndBlue(left: string, right: string)
    requires left == "{R}" && right == "{U}"
    ensures !Equal(Parse(left), Parse(right))
  {
    ParseRed(left);
    ParseBlue(right);
    RedAgainstBlue(Parse(left), Parse(right));
  }

  lemma RedAgainstBlue(a: Cost, b: Cost)
    requires a == Singletons([Sym(R)]) && b == Singletons([Sym(U)])
    ensures !Equal(a, b) && !Less(b, a) && !LessOrEqual(b, a)
    ensures !Less(a, b)
  {
    var xs, ys := [Sym(R)], [Sym(U)];
    TallyOfOne(Sym(R));
    TallyOfOne(Sym(U));
    SingletonsCompare(a, b, xs, ys);
    SingletonsCompare(b, a, ys, xs);
    DisjointKeys(Tally(xs), Tally(ys), Counters.Mana(R), Counters.Mana(U));
  }

  /** Two counters of one positive count each under different keys. */
  lemma DisjointKeys(x: Counters.Counter, y: Counters.Counter, k: Counters.Key, l: Counters.Key)
    requires k != l && x == map[k := 1] && y == map[l := 1]
    ensures x != y && !Counters.Less(x, y) && !Counters.Less(y, x)
    ensures !Counters.LessOrEqual(x, y) && !Counters.LessOrEqual(y, x)
  {
    assert k in x && l in y;
  }

  /** A hybrid group equals either of its alternatives. */
  lemma EqualOfHybridAndRed(left: string, right: string)
    requires left == "{R/W}" && right == "{R}"
    ensures Equal(Parse(left), Parse(right))
  {
    ParseRedOrWhite(left);
    ParseRed(right);
    HybridAgainstRed(Parse(left), Parse(right));
  }

  lemma HybridAgainstRed(a: Cost, b: Cost)
    requires a == [{Sym(R), Sym(W)}] && b == Singletons([Sym(R)])
    ensures Equal(a, b)
  {
    ChoicesAreProduct(a, [Sym(R)]);
    ChoicesAreProduct(b, [Sym(R)]);
    assert Tally([Sym(R)]) in Combinations(a) && Tally([Sym(R)]) in Combinations(b);
  }

  lemma EqualOfHybridAndHybrid(left: string, right: string)
    requires left == "{R/W}" && right == "{R/W}"
    ensures Equal(Parse(left), Parse(right))
  {
    ParseRedOrWhite(left);
    EqualReflexive(Parse(left));
  }

  lemma EqualOfRedRedAndRedHybrid(left: string, right: string)
    requires left == "{R}{R}" && right == "{R}{W/R}"
    ensures Equal(Parse(left), Parse(right))
  {
    ParseRedRed(left);
    ParseRedThenWhiteOrRed(right);
    RedRedAgainstRedHybrid(Parse(left), Parse(right));
  }

  lemma RedRedAgainstRedHybrid(a: Cost, b: Cost)
    requires a == Singletons([Sym(R), Sym(R)]) && b == [{Sym(R)}, {Sym(W), Sym(R)}]
    ensures Equal(a, b)
  {
    ChoicesAreProduct(a, [Sym(R), Sym(R)]);
    ChoicesAreProduct(b, [Sym(R), Sym(R)]);
    assert Tally([Sym(R), Sym(R)]) in Combinations(a) && Tally([Sym(R), Sym(R)]) in Combinations(b);
  }

  // test_less_than_and_greater_than

  lemma LessAndGreaterOfNothingAndRed(left: string, right: string)
    requires left == "" && right == "{R}"
    ensures Less(Parse(left), Parse(right)) && Greater(Parse(right), Parse(left))
  {
    ParseNothing(left);
    ParseRed(right);
    NothingAgainstRed(Parse(left), Parse(right));
  }

  lemma NothingAgainstRed(a: Cost, b: Cost)
    requires a == Singletons([]) && b == Singletons([Sym(R)])
    ensures Less(a, b) && Greater(b, a)
  {
    var xs, ys := [], [Sym(R)];
    TallyOfOne(Sym(R));
    SingletonsCompare(a, b, xs, ys);
    SingletonsCompare(b, a, ys, xs);
    EmptyBelowOne(Tally(xs), Tally(ys));
  }

  lemma EmptyBelowOne(x: Counters.Counter, y: Counters.Counter)
    requires x == map[] && y == map[Counters.Mana(R) := 1]
    ensures Counters.Less(x, y) && !Counters.Less(y, x) && x != y
  {
    assert Counters.Mana(R) in y;
  }

  lemma LessAndGreaterOfTwoAndThreeReds(left: string, right: string)
    requires left == "{R}{R}" && right == "{R}{R}{R}"
    ensures Less(Parse(left), Parse(right)) && Greater(Parse(right), Parse(left))
  {
    ParseRedRed(left);
    ParseThreeReds(right);
    TwoAgainstThreeReds(Parse(left), Parse(right));
  }

  lemma TwoAgainstThreeReds(a: Cost, b: Cost)
    requires a == Singletons([Sym(R), Sym(R)]) && b == Singletons([Sym(R), Sym(R), Sym(R)])
    ensures Less(a, b) && Greater(b, a)
  {
    var xs, ys := [Sym(R), Sym(R)], [Sym(R), Sym(R), Sym(R)];
    TallyOfReds();
    SingletonsCompare(a, b, xs, ys);
    SingletonsCompare(b, a, ys, xs);
    TwoBelowThreeReds(Tally(xs), Tally(ys));
  }

  lemma TwoBelowThreeReds(x: Counters.Counter, y: Counters.Counter)
    requires x == map[Counters.Mana(R) := 2] && y == map[Counters.Mana(R) := 3]
    ensures Counters.Less(x, y) && !Counters.Less(y, x) && x != y
  {
    assert Counters.Mana(R) in y;
  }

  lemma LessAndGreaterOfFiveRedAndSixRedRed(left: string, right: string)
    requires left == "{5}{R}" && right == "{6}{R}{R}"
    ensures Less(Parse(left), Parse(right)) && Greater(Parse(right), Parse(left))
  {
    ParseFiveRed(left);
    ParseSixRedRed(right);
    FiveRedAgainstSixRedRed(Parse(left), Parse(right));
  }

  lemma FiveRedAgainstSixRedRed(a: Cost, b: Cost)
    requires a == Singletons([Num("5"), Sym(R)]) && b == Singletons([Num("6"), Sym(R), Sym(R)])
    ensures Less(a, b) && Greater(b, a)
  {
    var xs, ys := [Num("5"), Sym(R)], [Num("6"), Sym(R), Sym(R)];
    TallyOfFiveAndReds();
    TallyOfSixAndReds();
    SingletonsCompare(a, b, xs, ys);
    SingletonsCompare(b, a, ys, xs);
    FiveRedBelowSixRedRed(Tally(xs), Tally(ys));
  }

  lemma FiveRedBelowSixRedRed(x: Counters.Counter, y: Counters.Counter)
    requires x == map[Counters.Generic := 5, Counters.Mana(R) := 1]
    requires y == map[Counters.Generic := 6, Counters.Mana(R) := 2]
    ensures Counters.Less(x, y) && !Counters.Less(y, x) && x != y
  {
    assert Counters.Mana(R) in y;
  }

  lemma LessAndGreaterOfRedRedGreenAndMore(left: string, right: string)
    requires left == "{R}{R}{G}" && right == "{R}{R}{R}{G}{G}"
    ensures Less(Parse(left), Parse(right)) && Greater(Parse(right), Parse(left))
  {
    ParseRedRedGreen(left);
    ParseThreeRedsTwoGreens(right);
    RedRedGreenAgainstMore(Parse(left), Parse(right));
  }

  lemma RedRedGreenAgainstMore(a: Cost, b: Cost)
    requires a == Singletons([Sym(R), Sym(R), Sym(G)])
    requires b == Singletons([Sym(R), Sym(R), Sym(R), Sym(G), Sym(G)])
    ensures Less(a, b) && Greater(b, a)
  {
    var xs, ys := [Sym(R), Sym(R), Sym(G)], [Sym(R), Sym(R), Sym(R), Sym(G), Sym(G)];
    TallyOfRedsAndGreen();
    TallyOfRedsAndGreens();
    SingletonsCompare(a, b, xs, ys);
    SingletonsCompare(b, a, ys, xs);
    RedRedGreenBelowMore(Tally(xs), Tally(ys));
  }

  lemma RedRedGreenBelowMore(x: Counters.Counter, y: Counters.Counter)
    requires x == map[Counters.Mana(R) := 2, Counters.Mana(G) := 1]
    requires y == map[Counters.Mana(R) := 3, Counters.Mana(G) := 2]
    ensures Counters.Less(x, y) && !Counters.Less(y, x) && x != y
  {
    assert Counters.Mana(R) in y;
  }

  // test_less_than_or_equal_and_greater_than_or_equal

  lemma LessOrEqualOfLargeNumbers(left: string, right: string)
    requires left == "{5000}" && right == "{1000000}"
    ensures LessOrEqual(Parse(left), Parse(right)) && GreaterOrEqual(Parse(right), Parse(left))
  {
    ParseFiveThousand(left);
    ParseOneMillion(right);
    LargeNumbersAgainstEachOther(Parse(left), Parse(right));
  }

  lemma LargeNumbersAgainstEachOther(a: Cost, b: Cost)
    requires a == Singletons([Num("5000")]) && b == Singletons([Num("1000000")])
    ensures LessOrEqual(a, b) && GreaterOrEqual(b, a)
  {
    var xs, ys := [Num("5000")], [Num("1000000")];
    FiveThousand();
    OneMillion();
    TallyOfOne(Num("5000"));
    TallyOfOne(Num("1000000"));
    SingletonsCompare(a, b, xs, ys);
    SingletonsCompare(b, a, ys, xs);
    FiveThousandBelowOneMillion(Tally(xs), Tally(ys));
  }

  lemma FiveThousandBelowOneMillion(x: Counters.Counter, y: Counters.Counter)
    requires x == map[Counters.Generic := 5000] && y == map[Counters.Generic := 1000000]
    ensures Counters.LessOrEqual(x, y) && !Counters.Less(y, x)
  {
    assert Counters.Generic in y;
  }

  /** A cost of one alternative per group is at most itself, and not below
      itself once its counter has a key. */
  lemma SingletonsAgainstThemselves(a: Cost, xs: seq<Token>)
    requires a == Singletons(xs)
    ensures LessOrEqual(a, a)
    ensures GreaterOrEqual(a, a) <==> Tally(xs) != map[]
  {
    SingletonsCompare(a, a, xs, xs);
    Counters.LessSelfIffEmpty(Tally(xs));
  }

  lemma LessOrEqualOfRedAndRed(left: string, right: string)
    requires left == "{R}" && right == "{R}"
    ensures LessOrEqual(Parse(left), Parse(right)) && GreaterOrEqual(Parse(right), Parse(left))
  {
    ParseRed(left);
    SingletonsAgainstThemselves(Parse(left), [Sym(R)]);
    TallyOfOne(Sym(R));
  }

  lemma LessOrEqualOfRedRedAndRedRed(left: string, right: string)
    requires left == "{R}{R}" && right == "{R}{R}"
    ensures LessOrEqual(Parse(left), Parse(right)) && GreaterOrEqual(Parse(right), Parse(left))
  {
    ParseRedRed(left);
    SingletonsAgainstThemselves(Parse(left), [Sym(R), Sym(R)]);
    TallyOfReds();
  }

  lemma LessOrEqualOfFiveRedAndFiveRedRed(left: string, right: string)
    requires left == "{5}{R}" && right == "{5}{R}{R}"
    ensures LessOrEqual(Parse(left), Parse(right)) && GreaterOrEqual(Parse(right), Parse(left))
  {
    ParseFiveRed(left);
    ParseFiveRedRed(right);
    FiveRedAgainstFiveRedRed(Parse(left), Parse(right));
  }

  lemma FiveRedAgainstFiveRedRed(a: Cost, b: Cost)
    requires a == Singletons([Num("5"), Sym(R)]) && b == Singletons([Num("5"), Sym(R), Sym(R)])
    ensures LessOrEqual(a, b) && GreaterOrEqual(b, a)
  {
    var xs, ys := [Num("5"), Sym(R)], [Num("5"), Sym(R), Sym(R)];
    TallyOfFiveAndReds();
    SingletonsCompare(a, b, xs, ys);
    SingletonsCompare(b, a, ys, xs);
    FiveRedAtMostFiveRedRed(Tally(xs), Tally(ys));
  }

  lemma FiveRedAtMostFiveRedRed(x: Counters.Counter, y: Counters.Counter)
    requires x == map[Counters.Generic := 5, Counters.Mana(R) := 1]
    requires y == map[Counters.Generic := 5, Counters.Mana(R) := 2]
    ensures Counters.LessOrEqual(x, y) && !Counters.Less(y, x)
  {
    assert Counters.Generic in y;
  }

  lemma LessOrEqualOfRedRedGreenAndMore(left: string, right: string)
    requires left == "{R}{R}{G}" && right == "{R}{R}{R}{G}"
    ensures LessOrEqual(Parse(left), Parse(right)) && GreaterOrEqual(Parse(right), Parse(left))
  {
    ParseRedRedGreen(left);
    ParseThreeRedsGreen(right);
    RedRedGreenAgainstRedMore(Parse(left), Parse(right));
  }

  lemma RedRedGreenAgainstRedMore(a: Cost, b: Cost)
    requires a == Singletons([Sym(R), Sym(R), Sym(G)])
    requires b == Singletons([Sym(R), Sym(R), Sym(R), Sym(G)])
    ensures LessOrEqual(a, b) && GreaterOrEqual(b, a)
  {
    var xs, ys := [Sym(R), Sym(R), Sym(G)], [Sym(R), Sym(R), Sym(R), Sym(G)];
    TallyOfRedsAndGreen();
    SingletonsCompare(a, b, xs, ys);
    SingletonsCompare(b, a, ys, xs);
    RedRedGreenAtMostRedMore(Tally(xs), Tally(ys));
  }

  lemma RedRedGreenAtMostRedMore(x: Counters.Counter, y: Counters.Counter)
    requires x == map[Counters.Mana(R) := 2, Counters.Mana(G) := 1]
    requires y == map[Counters.Mana(R) := 3, Counters.Mana(G) := 1]
    ensures Counters.LessOrEqual(x, y) && !Counters.Less(y, x)
  {
    assert Counters.Mana(G) in y;
  }

  // Consequences of comparing any pair of combinations

  /** `{R}{R}` is not below `{R/G}`, yet `{R/G}` is below `{R}{R}`, and
      `{R}{R}` is above `{R/G}`. */
  lemma CoveringIsOneSided(left: string, right: string)
    requires left == "{R}{R}" && right == "{R/G}"
    ensures !Less(Parse(left), Parse(right))
    ensures Less(Parse(right), Parse(left))
    ensures Greater(Parse(left), Parse(right))
  {
    ParseRedRed(left);
    ParseRedOrGreen(right);
    RedRedAgainstHybrid(Parse(left), Parse(right));
  }

  lemma RedRedAgainstHybrid(a: Cost, b: Cost)
    requires a == Singletons([Sym(R), Sym(R)]) && b == [{Sym(R), Sym(G)}]
    ensures !Less(a, b) && Less(b, a) && Greater(a, b)
  {
    SingletonsCombination(a, [Sym(R), Sym(R)]);
    TwoWayCombinations(b, Sym(R), Sym(G));
    TallyOfReds();
    TallyOfOne(Sym(G));
    CompareRedRedWithHybrid(a, b);
  }

  lemma CompareRedRedWithHybrid(a: Cost, b: Cost)
    requires Combinations(a) == {map[Counters.Mana(R) := 2]}
    requires Combinations(b) == {map[Counters.Mana(R) := 1], map[Counters.Mana(G) := 1]}
    ensures !Less(a, b) && Less(b, a) && Greater(a, b)
  {
    var two: Counters.Counter := map[Counters.Mana(R) := 2];
    var red: Counters.Counter := map[Counters.Mana(R) := 1];
    assert Counters.Less(red, two);
    assert red in Combinations(b) && two in Combinations(a);
    forall l, r | l in Combinations(a) && r in Combinations(b)
      ensures !Counters.Less(l, r) && l != r
    {
      assert Counters.Mana(R) in l && l[Counters.Mana(R)] == 2;
    }
  }

  /** The derived `>=` and `>` are not the converses of `<=` and `<`:
      `{R} >= {U}` and `{R} > {U}` hold while `{U} <= {R}` and `{U} < {R}` do not. */
  lemma DerivedOrderIsNotConverse(left: string, right: string)
    requires left == "{R}" && right == "{U}"
    ensures GreaterOrEqual(Parse(left), Parse(right)) && !LessOrEqual(Parse(right), Parse(left))
    ensures Greater(Parse(left), Parse(right)) && !Less(Parse(right), Parse(left))
  {
    ParseRed(left);
    ParseBlue(right);
    RedAgainstBlue(Parse(left), Parse(right));
  }

  /** `<` is not irreflexive: a hybrid of two amounts is below itself, and so
      is the empty cost. */
  lemma LessIsNotIrreflexive(hybrid: string, empty: string)
    requires hybrid == "{1/2}" && empty == ""
    ensures Less(Parse(hybrid), Parse(hybrid))
    ensures Less(Parse(empty), Parse(empty))
  {
    ParseOneOrTwo(hybrid);
    OneOrTwoBelowItself(Parse(hybrid));
    ParseNothing(empty);
    SingletonsCompare(Parse(empty), Parse(empty), [], []);
  }

  lemma OneOrTwoBelowItself(a: Cost)
    requires a == [{Num("1"), Num("2")}]
    ensures Less(a, a)
  {
    TwoWayCombinations(a, Num("1"), Num("2"));
    SmallNumbers();
    TallyOfOne(Num("1"));
    TallyOfOne(Num("2"));
    var one, two := Tally([Num("1")]), Tally([Num("2")]);
    assert one in Combinations(a) && two in Combinations(a);
    assert Counters.Less(one, two);
  }

  /** `{0}` keeps a `GENERIC` key with count 0, so it is neither equal to nor
      below the empty cost, though it is at most the empty cost. */
  lemma ZeroAmountKeepsItsKey(zero: string, empty: string)
    requires zero == "{0}" && empty == ""
    ensures Combinations(Parse(zero)) == {map[Counters.Generic := 0]}
    ensures !Equal(Parse(zero), Parse(empty)) && !Less(Parse(zero), Parse(empty))
    ensures LessOrEqual(Parse(zero), Parse(empty))
  {
    ParseZero(zero);
    ParseNothing(empty);
    ZeroAgainstNothing(Parse(zero), Parse(empty));
  }

  lemma ZeroAgainstNothing(a: Cost, b: Cost)
    requires a == Singletons([Num("0")]) && b == Singletons([])
    ensures Combinations(a) == {map[Counters.Generic := 0]}
    ensures !Equal(a, b) && !Less(a, b) && LessOrEqual(a, b)
  {
    var xs, ys := [Num("0")], [];
    SmallNumbers();
    TallyOfOne(Num("0"));
    SingletonsCombination(a, xs);
    SingletonsCompare(a, b, xs, ys);
    ZeroAgainstEmpty(Tally(xs), Tally(ys));
  }

  lemma ZeroAgainstEmpty(x: Counters.Counter, y: Counters.Counter)
    requires x == map[Counters.Generic := 0] && y == map[]
    ensures x != y && !Counters.Less(x, y) && Counters.LessOrEqual(x, y)
  {
    assert Counters.Generic in x;
  }

  // Findings

  /** As written, `min_mana_cost` and `max_mana_cost` raise on `{X}{R}`,
      whose `X` group has nothing to take the minimum of; the intended totals
      let that group add 0. */
  lemma TotalsOfXAndRed(text: string)
    requires text == "{X}{R}"
    ensures MinManaCost(Parse(text)) == Failure(MinOfEmpty)
    ensures MaxManaCost(Parse(text)) == Failure(MaxOfEmpty)
    ensures IntendedMinManaCost(Parse(text)) == 1 && IntendedMaxManaCost(Parse(text)) == 1
  {
    ParseSingletonsText(text, [Sym(X), Sym(R)]);
    XAndRedTotals(Parse(text));
  }

  lemma XAndRedTotals(c: Cost)
    requires c == Singletons([Sym(X), Sym(R)])
    ensures MinManaCost(c) == Failure(MinOfEmpty) && MaxManaCost(c) == Failure(MaxOfEmpty)
    ensures IntendedMinManaCost(c) == 1 && IntendedMaxManaCost(c) == 1
  {
    assert c[0] == {Sym(X)} && ManaWeights(c[0]) == {};
    assert c[1..] == [{Sym(R)}] && c[1..][1..] == [];
    assert ManaWeights(c[1..][0]) == {1};
    assert IntendedMinManaCost(c[1..]) == 1 && IntendedMaxManaCost(c[1..]) == 1;
  }

  /** As written, `num_variations` raises on the empty cost; the intended
      count is 1, the one empty choice. */
  lemma VariationsOfNothing(text: string)
    requires text == ""
    ensures NumVariations(Parse(text)) == Failure(ReduceOfEmpty)
    ensures IntendedNumVariations(Parse(text)) == 1
  {
    ParseNothing(text);
  }
}
