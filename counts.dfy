/**
 * The generator's transition table, `defaultdict(Counter)` in the source:
 * a context string maps to a counter of next characters. Reading an absent
 * context or character yields 0, and incrementing creates both on demand.
 */
module Counts {

  type Counts = map<string, map<char, nat>>

  /** `model[ctx][c]` as a defaultdict of Counters answers it: 0 when absent. */
  function CountOf(m: Counts, ctx: string, c: char): nat {
    if ctx in m && c in m[ctx] then m[ctx][c] else 0
  }

  /** `model[ctx][c] += 1`. */
  function Bump(m: Counts, ctx: string, c: char): (r: Counts)
    ensures CountOf(r, ctx, c) == CountOf(m, ctx, c) + 1
    ensures r.Keys == m.Keys + {ctx}
  {
    var row := if ctx in m then m[ctx] else map[];
    m[ctx := row[c := (if c in row then row[c] else 0) + 1]]
  }

  /** The count of one transition after an increment: up by one exactly when it is the incremented one. */
  lemma BumpCount(m: Counts, ctx: string, c: char, ctx': string, c': char)
    ensures CountOf(Bump(m, ctx, c), ctx', c') == CountOf(m, ctx', c') + if ctx == ctx' && c == c' then 1 else 0
  {
  }

  /** Every counter in `m` is non-empty and every recorded count is positive. */
  ghost predicate PositiveCounts(m: Counts) {
    forall ctx :: ctx in m ==> m[ctx] != map[] && forall c :: c in m[ctx] ==> m[ctx][c] > 0
  }

  lemma BumpKeepsPositive(m: Counts, ctx: string, c: char)
    requires PositiveCounts(m)
    ensures PositiveCounts(Bump(m, ctx, c))
  {
  }

  /** The sum of the values of a counter. */
  ghost function SumOf<K>(m: map<K, nat>): nat
    decreases |m|
  {
    if m == map[] then 0
    else
      var k :| k in m;
      assert |m - {k}| < |m| by { assert (m - {k}).Keys == m.Keys - {k}; }
      m[k] + SumOf(m - {k})
  }

  /** Taking out any one key first gives the same sum. */
  lemma {:induction false} SumOfRemove<K>(m: map<K, nat>, k: K)
    requires k in m
    ensures SumOf(m) == m[k] + SumOf(m - {k})
    decreases |m|
  {
    var j :| j in m && SumOf(m) == m[j] + SumOf(m - {j});
    if j != k {
      assert (m - {j}).Keys == m.Keys - {j};
      assert (m - {k}).Keys == m.Keys - {k};
      SumOfRemove(m - {j}, k);
      SumOfRemove(m - {k}, j);
      assert m - {j} - {k} == m - {k} - {j};
    }
  }

  lemma SumOfUpdate<K>(m: map<K, nat>, k: K, v: nat)
    ensures SumOf(m[k := v]) + (if k in m then m[k] else 0) == SumOf(m) + v
  {
    SumOfRemove(m[k := v], k);
    assert m[k := v] - {k} == m - {k};
    if k in m {
      SumOfRemove(m, k);
    } else {
      assert m - {k} == m;
    }
  }

  /** The number of recorded transitions: the sum of all counts. */
  ghost function Total(m: Counts): nat {
    SumOf(map ctx | ctx in m :: SumOf(m[ctx]))
  }

  /** Each increment adds exactly one to the total. */
  lemma BumpTotal(m: Counts, ctx: string, c: char)
    ensures Total(Bump(m, ctx, c)) == Total(m) + 1
  {
    var row := if ctx in m then m[ctx] else map[];
    var old_count := if c in row then row[c] else 0;
    var row' := row[c := old_count + 1];
    SumOfUpdate(row, c, old_count + 1);
    var sums := map k | k in m :: SumOf(m[k]);
    var r := Bump(m, ctx, c);
    assert (map k | k in r :: SumOf(r[k])) == sums[ctx := SumOf(row')];
    SumOfUpdate(sums, ctx, SumOf(row'));
    if ctx !in m {
      assert SumOf(row) == 0;
    }
  }
}
