/**
 `ComparableCounter`: a counter from resolved keys to counts, with the two
 comparisons that look only at the keys of the left operand.
 */
module Counters {
  import opened Tokens

  /** A counter key: `GENERIC` for numeric amounts, or one letter. */
  datatype Key = Generic | Mana(symbol: Symbol)

  /** A counter holds exactly the keys that were ever incremented, even by 0,
      so `{0}` yields a `GENERIC` key with count 0. */
  type Counter = map<Key, nat>

  /** `counter[k]`: a missing key reads as 0 and is not inserted. */
  function Get(c: Counter, k: Key): nat
  {
    if k in c then c[k] else 0
  }

  /** The key a token is counted under: `GENERIC` when `int(token)` succeeds,
      the letter itself otherwise. */
  function KeyOf(t: Token): Key
  {
    match t
    case Num(_) => Generic
    case Sym(s) => Mana(s)
  }

  /** One step of the counting loop: `counter[key] += amount`. */
  function Add(c: Counter, t: Token): (r: Counter)
    ensures r.Keys == c.Keys + {KeyOf(t)}
    ensures Get(r, KeyOf(t)) == Get(c, KeyOf(t)) + Weight(t)
    ensures forall k :: k != KeyOf(t) ==> Get(r, k) == Get(c, k)
  {
    c[KeyOf(t) := Get(c, KeyOf(t)) + Weight(t)]
  }

  /** `c < d`: every key of `c` has a strictly larger count in `d`. */
  predicate Less(c: Counter, d: Counter)
  {
    forall k :: k in c ==> c[k] < Get(d, k)
  }

  /** `c <= d`: every key of `c` has at least its count in `d`. */
  predicate LessOrEqual(c: Counter, d: Counter)
  {
    forall k :: k in c ==> c[k] <= Get(d, k)
  }

  /** `d` holds at least as much as `c` of every key. */
  ghost predicate Covers(d: Counter, c: Counter)
  {
    forall k :: Get(c, k) <= Get(d, k)
  }

  lemma LessImpliesLessOrEqual(c: Counter, d: Counter)
    ensures Less(c, d) ==> LessOrEqual(c, d)
  {
  }

  lemma LessOrEqualReflexive(c: Counter)
    ensures LessOrEqual(c, c)
  {
  }

  /** `<` holds of a counter and itself exactly when it has no keys: it is not irreflexive. */
  lemma LessSelfIffEmpty(c: Counter)
    ensures Less(c, c) <==> c == map[]
  {
    if c != map[] {
      var k :| k in c;
      assert !(c[k] < Get(c, k));
    }
  }

  /** The empty counter is below every counter. */
  lemma EmptyIsLess(d: Counter)
    ensures Less(map[], d) && LessOrEqual(map[], d)
  {
  }

  /** Both comparisons stay true when the right operand grows. */
  lemma ComparisonsGrowRight(c: Counter, d: Counter, e: Counter)
    requires Covers(e, d)
    ensures Less(c, d) ==> Less(c, e)
    ensures LessOrEqual(c, d) ==> LessOrEqual(c, e)
  {
    forall k | k in c ensures Get(d, k) <= Get(e, k) {
    }
  }
}
