# mana_cost in Dafny

A model of the `mana_cost` Python library. The library reads Magic: The
Gathering mana costs such as `{2}{W/U}{R}` and compares them.

The model covers:

- **The parser.** It is a `findall` scan for groups `{alt(/alt)*}`. An `alt` is
  one of the letters `R U B G W C P X` or a run of digits. Each match becomes
  the set of its alternatives, `list(set(body.split('/')))`.
- **`num_variations`.** The product of the group sizes.
- **`min_mana_cost` and `max_mana_cost`.** The sum of each group's least and
  greatest alternative. Numbers count as their value and letters as 1.
  `P` and `X` are left out of these totals.
- **`combinations`.** One counter per choice of one alternative from each group.
  Numbers add their value under `GENERIC`. Every letter adds 1 under its own key.
- **The comparisons.** `ComparableCounter`'s `<` and `<=` look only at the keys
  of the left operand. `ManaCost`'s `==`, `<` and `<=` ask whether *some*
  pair of combinations is related. The `>` and `>=` that `functools.total_ordering`
  derives from `<` are modelled too.

Modules, in dependency order:

| module | file | contents |
|---|---|---|
| `Wrappers` | wrappers.dfy | `Option` and `Result` |
| `Tokens` | tokens.dfy | letters, digit runs, the `Token` datatype, the value of a numeral (`int()`) |
| `Counters` | counters.dfy | `ComparableCounter` as `map<Key, nat>`, with its `<` and `<=` |
| `Parser` | parser.dfy | `str.split`, the group pattern, `findall`, `ManaCost.__init__` |
| `Costs` | costs.dfy | `product`, `num_variations`, `combinations`, `==`, `<`, `<=`, `>`, `>=` |
| `Totals` | totals.dfy | `min_mana_cost`, `max_mana_cost` and their corrected versions |
| `Examples` | examples.dfy | every case of the repository's test suite, plus a few consequences of the rules |

**Modelling choices**

- **Errors become failures.** Python raises in three places. The model returns
  a `Result` failure instead:
  - `reduce` over no groups: `ReduceOfEmpty`.
  - `min` over a group whose alternatives are all `P` or `X`: `MinOfEmpty`.
  - `max` over such a group: `MaxOfEmpty`.

  So `NumVariations`, `MinManaCost` and `MaxManaCost` are total functions, and
  their contracts state exactly when they fail.
- **Numbers keep their text.** A numeric alternative keeps its digit text. So
  `{1/01}` has two alternatives, as the Python set of strings does.
- **Zero-count keys stay.** A counter keeps every key that was ever incremented,
  even by 0. Its equality is map equality. This is `dict` equality on the
  Python 3.6 the package targets.
- **`combinations` is a set.** It is the set of the counters of all choices
  (`Costs.Choices`). The comparisons are existential, so a set loses nothing
  they need. The number of choices, with repeats, is `num_variations`.
- **`>` and `>=` follow the code, not the converse reading.** One might read
  `a > b` as `b < a` and `a >= b` as `b <= a`, but the code does not do that.
  `@total_ordering` (`src/mana_cost/__init__.py:27`) uses the hand-written
  `__lt__` as its root, so it gives:
  - `a > b` is `not (a < b) and a != b`;
  - `a >= b` is `not (a < b)`.

  The model uses these definitions. `Examples.DerivedOrderIsNotConverse` shows
  that they differ from the converse reading on `{R}` and `{U}`.

## Model

| member | source | states |
|---|---|---|
| `Tokens.SymbolOf` | src/mana_cost/__init__.py:13 | a character is in the letter class exactly when some symbol is written as it, and then that symbol is returned |
| `Tokens.ToToken` | src/mana_cost/__init__.py:13 | a piece reads as a token exactly when it is one letter of the class or a non-empty run of digits, and the token read is the one whose text is the piece |
| `Tokens.TextRoundTrip` | src/mana_cost/__init__.py:13 | reading back the text of any token gives the same token |
| `Tokens.AltHasNoDelimiter` | src/mana_cost/__init__.py:13-14 | no alternative contains the `/` separator or the closing brace, so a group's body is split and closed unambiguously |
| `Tokens.LeadingZeroValue` | src/mana_cost/__init__.py:75 | `int()` ignores leading zeros: `0` followed by digits has the value of the digits alone |
| `Counters.Add` | src/mana_cost/__init__.py:74-77 | one counting step adds the token's key to the counter, raises that key by the token's value (a number) or by 1 (a letter), and leaves every other key's count unchanged |
| `Counters.LessImpliesLessOrEqual` | src/mana_cost/__init__.py:19-24 | counter `<` implies counter `<=` |
| `Counters.LessOrEqualReflexive` | src/mana_cost/__init__.py:23-24 | every counter is `<=` itself |
| `Counters.LessSelfIffEmpty` | src/mana_cost/__init__.py:20-21 | a counter is `<` itself exactly when it has no keys, so counter `<` is not irreflexive |
| `Counters.EmptyIsLess` | src/mana_cost/__init__.py:20-24 | the empty counter is `<` and `<=` every counter, because only the left operand's keys are compared |
| `Counters.ComparisonsGrowRight` | src/mana_cost/__init__.py:20-24 | if the right counter grows (at least as much under every key), `<` and `<=` stay true; a missing right key reads as 0 |
| `Parser.Split` | src/mana_cost/__init__.py:32 | `split('/')` gives at least one piece, and no piece contains `/` |
| `Parser.JoinSplit` | src/mana_cost/__init__.py:32 | joining the pieces of `split('/')` with `/` gives the text back |
| `Parser.SplitJoin` | src/mana_cost/__init__.py:32 | splitting `/`-free pieces joined by `/` gives the same pieces back |
| `Parser.BodyIsGroupRegex` | src/mana_cost/__init__.py:13-16 | the parser's body check (every `/`-piece is an alternative) accepts exactly the language `alt(/alt)*`, stated independently as alternatives joined by `/` |
| `Parser.BodyHasNoBrace` | src/mana_cost/__init__.py:14 | a well-formed body has no `}`, so a match ends at the first `}` after its `{` |
| `Parser.MatchAt` | src/mana_cost/__init__.py:14-16 | a reported match starts with `{`, ends with `}`, fits in the text and has a well-formed body |
| `Parser.MatchAtIsRegexMatch` | src/mana_cost/__init__.py:14-16 | the scanner reports a match of length `n` exactly when the group pattern matches the first `n` characters, so the match at a position is unique |
| `Parser.FindAll` | src/mana_cost/__init__.py:33 | every body `findall` returns is a well-formed `alt(/alt)*` body |
| `Parser.ParseGroup` | src/mana_cost/__init__.py:32 | a group is never empty, and a token is in it exactly when its text is one of the `/`-pieces of the body (duplicates collapse) |
| `Parser.Parse` | src/mana_cost/__init__.py:29-34 | a parsed cost has no empty group, one group per `findall` match, and each group is the set of its match's pieces |
| `Parser.FindAllSkipsText` | src/mana_cost/__init__.py:33 | text without `{` in front of the rest adds no match |
| `Parser.FindAllGroup` | src/mana_cost/__init__.py:33 | a well-formed group at the start of the text is the first match, and scanning continues after it |
| `Parser.ParseRenderedGroup` | src/mana_cost/__init__.py:32-33 | the text of a group parses back to the set of its alternatives |
| `Parser.ParseGroupPrefix` | src/mana_cost/__init__.py:31-34 | a group followed by any text parses to that group, then whatever the rest parses to |
| `Parser.ParseSkipsText` | src/mana_cost/__init__.py:31-34 | text without `{` in front of a cost changes nothing |
| `Parser.MalformedGroupSkipped` | src/mana_cost/__init__.py:13-34 | a bracketed segment whose body is not `alt(/alt)*` (such as `{r}`, `{}` or `{R//G}`) contributes nothing and raises nothing |
| `Parser.ParseRender` | src/mana_cost/__init__.py:29-34 | the text of any list of groups parses back to those groups, each as a set (the round trip of the parser) |
| `Costs.ChoicesAreProduct` | src/mana_cost/__init__.py:70 | the choices `product` enumerates are exactly the sequences that take one alternative from each group, in group order |
| `Costs.ChoicesCount` | src/mana_cost/__init__.py:70 | the number of choices is the product of the group sizes |
| `Costs.ChoicesNonEmpty` | src/mana_cost/__init__.py:70 | a cost without empty groups has at least one choice |
| `Costs.NumVariations` | src/mana_cost/__init__.py:40-41 | `num_variations` raises exactly when there are no groups, and otherwise equals the number of choices `combinations` goes through |
| `Costs.IntendedNumVariations` | src/mana_cost/__init__.py:40-41 | the corrected count equals the number of choices for every cost (1 for no groups) and agrees with `num_variations` wherever that returns |
| `Costs.TallyCounts` | src/mana_cost/__init__.py:71-77 | a choice's counter has exactly the keys of its tokens (a `{0}` still creates `GENERIC`); under `GENERIC` is the sum of its numbers; under each letter, `P` and `X` included, is how often that letter was chosen |
| `Costs.TallyAppendCovers` | src/mana_cost/__init__.py:73-77 | counting more tokens never lowers any count |
| `Costs.CombinationsAreTallies` | src/mana_cost/__init__.py:68-85 | a counter is among the combinations exactly when it is the counter of some one-alternative-per-group choice |
| `Costs.CombinationsOfNoGroups` | src/mana_cost/__init__.py:68-85 | a cost without groups has one choice, the empty one, and its only combination is the empty counter |
| `Costs.CombinationsNonEmpty` | src/mana_cost/__init__.py:68-85 | every parsed cost has at least one combination |
| `Costs.EqualReflexive` | src/mana_cost/__init__.py:87-92 | every parsed cost equals itself |
| `Costs.EqualSymmetric` | src/mana_cost/__init__.py:87-92 | cost equality is symmetric |
| `Costs.LessOrEqualReflexive` | src/mana_cost/__init__.py:101-106 | every parsed cost is `<=` itself |
| `Costs.LessImpliesLessOrEqual` | src/mana_cost/__init__.py:94-106 | cost `<` implies cost `<=` |
| `Costs.EqualImpliesLessOrEqual` | src/mana_cost/__init__.py:87-106 | equal costs are `<=` |
| `Costs.GreaterIrreflexive` | src/mana_cost/__init__.py:27-92 | the `>` that `total_ordering` derives is irreflexive on parsed costs, since every parsed cost equals itself; `a >= a` holds exactly when `a < a` does not |
| `Costs.EmptyCostIsLess` | src/mana_cost/__init__.py:94-106 | the cost with no groups is `<` and `<=` every parsed cost |
| `Costs.AppendRightKeepsOrder` | src/mana_cost/__init__.py:94-106 | appending groups to the right operand keeps `<` and `<=` true |
| `Totals.SetMin` | src/mana_cost/__init__.py:46 | `min` of a non-empty collection is a member of it and at most every member |
| `Totals.SetMax` | src/mana_cost/__init__.py:60 | `max` of a non-empty collection is a member of it and at least every member |
| `Totals.MinManaCost` | src/mana_cost/__init__.py:43-55 | `min_mana_cost` raises exactly when some group has only `P`/`X` alternatives |
| `Totals.MaxManaCost` | src/mana_cost/__init__.py:57-66 | `max_mana_cost` raises exactly when some group has only `P`/`X` alternatives |
| `Totals.MinManaCostIsLeast` | src/mana_cost/__init__.py:43-55 | when it returns, `min_mana_cost` is at most the total of every choice that avoids `P` and `X`, and some such choice pays exactly it |
| `Totals.MaxManaCostIsGreatest` | src/mana_cost/__init__.py:57-66 | when it returns, `max_mana_cost` is at least the total of every choice that avoids `P` and `X`, and some such choice pays exactly it |
| `Totals.MinAtMostMax` | src/mana_cost/__init__.py:43-66 | the two totals raise on the same costs, and otherwise the minimum is at most the maximum |
| `Totals.IntendedMinManaCost` | src/mana_cost/__init__.py:43-55 | the corrected minimum, where a `P`/`X`-only group adds 0, agrees with `min_mana_cost` wherever that returns |
| `Totals.IntendedMaxManaCost` | src/mana_cost/__init__.py:57-66 | the corrected maximum agrees with `max_mana_cost` wherever that returns |
| `Totals.IntendedMinIsLeast` | src/mana_cost/__init__.py:43-55 | the corrected minimum is the least total over the choices that avoid `P` and `X` wherever a group has another alternative, and some such choice attains it |
| `Totals.IntendedMaxIsGreatest` | src/mana_cost/__init__.py:57-66 | the corrected maximum is the greatest total over the same choices, and some such choice attains it |
| `Totals.IntendedMinAtMostMax` | src/mana_cost/__init__.py:43-66 | the corrected minimum never exceeds the corrected maximum |
| `Examples.VariationsOfRed` | tests/test_mana_cost.py:69 | `{R}` has 1 variation |
| `Examples.VariationsOfRepeatedRed` | tests/test_mana_cost.py:70 | `{R/R/R}` has 1 variation: duplicates collapse |
| `Examples.VariationsOfFourNumbers` | tests/test_mana_cost.py:71 | `{1/2/3/4}` has 4 variations |
| `Examples.VariationsOfTwoOnes` | tests/test_mana_cost.py:72 | `{1}{1}` has 1 variation |
| `Examples.VariationsOfTwoHybrids` | tests/test_mana_cost.py:73 | `{R/W}{R/W}` has 4 variations: variations multiply across groups |
| `Examples.MinMaxOfRed` | tests/test_mana_cost.py:52 | `{R}` has minimum 1 and maximum 1 |
| `Examples.MinMaxOfRedRed` | tests/test_mana_cost.py:53 | `{R}{R}` has minimum 2 and maximum 2 |
| `Examples.MinMaxOfFiveRed` | tests/test_mana_cost.py:54 | `{5}{R}` has minimum 6 and maximum 6 |
| `Examples.MinMaxOfFiveOrRedWhite` | tests/test_mana_cost.py:55 | `{5/R}{W}` has minimum 2 and maximum 6 |
| `Examples.MinMaxOfFiveColorsOrTenTwice` | tests/test_mana_cost.py:56 | `{W/R/G/B/U/10}{W/R/G/B/U/10}` has minimum 2 and maximum 20 |
| `Examples.EqualOfRedAndRed` | tests/test_mana_cost.py:9 | `{R} == {R}` |
| `Examples.NotEqualOfRedAndBlue` | tests/test_mana_cost.py:10 | `{R} == {U}` is false, as the case's expected-failure mark says |
| `Examples.EqualOfHybridAndRed` | tests/test_mana_cost.py:11 | `{R/W} == {R}`: a hybrid equals either of its alternatives |
| `Examples.EqualOfHybridAndHybrid` | tests/test_mana_cost.py:12 | `{R/W} == {R/W}` |
| `Examples.EqualOfRedRedAndRedHybrid` | tests/test_mana_cost.py:13 | `{R}{R} == {R}{W/R}` |
| `Examples.LessAndGreaterOfNothingAndRed` | tests/test_mana_cost.py:23 | `'' < {R}` and `{R} > ''` |
| `Examples.LessAndGreaterOfTwoAndThreeReds` | tests/test_mana_cost.py:24 | `{R}{R} < {R}{R}{R}` and the reverse `>` |
| `Examples.LessAndGreaterOfFiveRedAndSixRedRed` | tests/test_mana_cost.py:25 | `{5}{R} < {6}{R}{R}` and the reverse `>` |
| `Examples.LessAndGreaterOfRedRedGreenAndMore` | tests/test_mana_cost.py:26 | `{R}{R}{G} < {R}{R}{R}{G}{G}` and the reverse `>` |
| `Examples.LessOrEqualOfLargeNumbers` | tests/test_mana_cost.py:37 | `{5000} <= {1000000}` and the reverse `>=` |
| `Examples.LessOrEqualOfRedAndRed` | tests/test_mana_cost.py:38 | `{R} <= {R}` and `{R} >= {R}` |
| `Examples.LessOrEqualOfRedRedAndRedRed` | tests/test_mana_cost.py:39 | `{R}{R} <= {R}{R}` and `{R}{R} >= {R}{R}` |
| `Examples.LessOrEqualOfFiveRedAndFiveRedRed` | tests/test_mana_cost.py:40 | `{5}{R} <= {5}{R}{R}` and the reverse `>=` |
| `Examples.LessOrEqualOfRedRedGreenAndMore` | tests/test_mana_cost.py:41 | `{R}{R}{G} <= {R}{R}{R}{G}` and the reverse `>=` |
| `Examples.CoveringIsOneSided` | src/mana_cost/__init__.py:94-99 | `{R/G} < {R}{R}` holds but `{R}{R} < {R/G}` does not; so `{R}{R} > {R/G}` |
| `Examples.DerivedOrderIsNotConverse` | src/mana_cost/__init__.py:27 | `{R} >= {U}` and `{R} > {U}` hold while `{U} <= {R}` and `{U} < {R}` do not: the derived operators are not the converses |
| `Examples.LessIsNotIrreflexive` | src/mana_cost/__init__.py:94-99 | `{1/2} < {1/2}` (by the pair 1, 2) and `'' < ''` (vacuously) |
| `Examples.ZeroAmountKeepsItsKey` | src/mana_cost/__init__.py:74-75 | `{0}` yields the counter with `GENERIC` at 0; so `{0}` is neither `==` nor `<` the empty cost, yet is `<=` it |
| `Examples.TotalsOfXAndRed` | src/mana_cost/__init__.py:43-66 | on `{X}{R}` both totals raise, while the corrected totals are 1 and 1 |
| `Examples.VariationsOfNothing` | src/mana_cost/__init__.py:41 | on `''` `num_variations` raises, while the corrected count is 1 |

## Left out

- `ManaCost.__repr__` (`src/mana_cost/__init__.py:36-37`) only returns the input text. It has no logic to model.
- The SQLite example and its `reify` / `lru_cache` memoisation are left out. They are I/O glue and caching, and add no meaning.
- `setup.py` is packaging, so it is left out.
- Order is not modelled:
  - the order in which `combinations` yields its counters;
  - the order of the alternatives inside a group, since `list(set(...))` has no fixed order.

  Nothing modelled depends on either order. Groups and combinations are sets.
- Repeats among the counters `combinations` yields are not modelled, because the yields are collected into a set. Their number is still stated, as the number of choices.
- Non-ASCII digits are left out. Python's `\d`, `str.isdigit` and `int` also accept digits from other scripts. The model accepts ASCII `0`-`9` only.
- The exception types are not modelled. The model keeps the three error causes, `reduce`, `min` and `max` over nothing, but not Python's exception classes or messages.
- Short-circuiting and the running time of the `any(...)` loops are left out. Only their boolean results are modelled.
- Inputs that are not strings are outside the model.

## Findings

| source | as written | input that shows it | evidently intended | confidence | as-written member | corrected member |
|---|---|---|---|---|---|---|
| src/mana_cost/__init__.py:45-55 | `min` runs over a group's alternatives other than `P`/`X`. For a group of only `P`/`X` that generator is empty, and `min` raises `ValueError`. | `{X}{R}` | The comment at lines 49-51 says `P` and `X` are skipped because they are not mana. So a group of only them should add 0, and `{X}{R}` should give 1. | not executed | `Totals.MinManaCost`, shown by `Examples.TotalsOfXAndRed` | `Totals.IntendedMinManaCost`, with `Totals.IntendedMinIsLeast` |
| src/mana_cost/__init__.py:58-66 | `max` raises `ValueError` in the same way. | `{X}{R}` | The group should add 0, and `{X}{R}` should give 1. | not executed | `Totals.MaxManaCost`, shown by `Examples.TotalsOfXAndRed` | `Totals.IntendedMaxManaCost`, with `Totals.IntendedMaxIsGreatest` |
| src/mana_cost/__init__.py:41 | `reduce(operator.mul, ...)` has no initial value, so a cost with no groups raises `TypeError`. | `''` (or any text without a group) | 1: the empty product, and the one (empty) combination that `combinations` yields for such a cost. | not executed | `Costs.NumVariations`, shown by `Examples.VariationsOfNothing` | `Costs.IntendedNumVariations` |
