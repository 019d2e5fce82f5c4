/**
  The `Question` value and the question pool that `createQuestions` builds:
  one question per table `i` in `1..tablesUpTo` and multiplier `j` in `1..12`,
  table-major, multiplier-minor, in loop order.
 */
module Questions {

  /**
    A multiplication question. `numberFirst` is the coin flip that decides
    which operand the title shows first; it never affects the answer.
   */
  datatype Question = Question(number: int, multiplyBy: int, numberFirst: bool) {

    /** The expected answer, derived on demand. */
    function Answer(): int {
      number * multiplyBy
    }

    /** The operands in the order the title displays them. */
    function Shown(): (int, int) {
      if numberFirst then (number, multiplyBy) else (multiplyBy, number)
    }
  }

  /** The answer is the product of the displayed operands, whichever order the coin chose. */
  lemma AnswerIgnoresOrder(q: Question)
    ensures q.Answer() == q.Shown().0 * q.Shown().1
    ensures q.Answer() == q.(numberFirst := !q.numberFirst).Answer()
  {
  }

  /** Strict table-major, multiplier-minor order of two questions. */
  predicate Before(a: Question, b: Question) {
    a.number < b.number || (a.number == b.number && a.multiplyBy < b.multiplyBy)
  }

  /** A question of the table-`tablesUpTo` grid, with the display order `order` gave it. */
  predicate InGrid(q: Question, tablesUpTo: int, order: (int, int) -> bool) {
    && 1 <= q.number <= tablesUpTo
    && 1 <= q.multiplyBy <= 12
    && q.numberFirst == order(q.number, q.multiplyBy)
  }

  /** The twelve questions of table `i`: one run of the inner loop over `1...12`. */
  function Row(i: int, order: (int, int) -> bool): (r: seq<Question>)
    ensures |r| == 12
    ensures forall k :: 0 <= k < |r| ==> r[k].number == i && r[k].multiplyBy == k + 1
    ensures forall k :: 0 <= k < |r| ==> r[k].numberFirst == order(i, k + 1)
  {
    seq(12, k => Question(i, k + 1, order(i, k + 1)))
  }

  /** The questions the nested loops produce for tables `1..t`, in loop order. */
  function Grid(t: nat, order: (int, int) -> bool): (r: seq<Question>)
    ensures |r| == t * 12
    ensures forall q :: q in r <==> InGrid(q, t, order)
    ensures forall a, b :: 0 <= a < b < |r| ==> Before(r[a], r[b])
    decreases t
  {
    if t == 0 then []
    else
      var prev := Grid(t - 1, order);
      var row := Row(t, order);
      assert forall q :: q in row <==> InGrid(q, t, order) && q.number == t by {
        forall q | InGrid(q, t, order) && q.number == t
          ensures q in row
        {
          assert row[q.multiplyBy - 1] == q;
        }
      }
      assert forall a :: 0 <= a < |prev| ==> prev[a] in prev;
      prev + row
  }

  /** `createQuestions`: the grid appended to whatever the pool already held. */
  function CreateQuestions(pool: seq<Question>, tablesUpTo: int, order: (int, int) -> bool): (r: seq<Question>)
    requires tablesUpTo >= 1
    ensures |r| == |pool| + tablesUpTo * 12
    ensures r[..|pool|] == pool
    ensures forall q :: q in r[|pool|..] <==> InGrid(q, tablesUpTo, order)
    ensures forall a, b :: |pool| <= a < b < |r| ==> Before(r[a], r[b])
  {
    var grid := Grid(tablesUpTo, order);
    assert (pool + grid)[|pool|..] == grid;
    pool + grid
  }

  /** No question occurs twice. */
  ghost predicate NoDuplicates(xs: seq<Question>) {
    forall q :: multiset(xs)[q] <= 1
  }

  /** In a sequence without duplicates, two different positions hold different questions. */
  lemma NoDuplicatesDistinct(xs: seq<Question>, i: int, j: int)
    requires NoDuplicates(xs) && 0 <= i < j < |xs|
    ensures xs[i] != xs[j]
  {
    assert xs == xs[..j] + xs[j..];
    assert xs[i] in multiset(xs[..j]) && xs[j] in multiset(xs[j..]);
    assert multiset(xs) == multiset(xs[..j]) + multiset(xs[j..]);
    assert multiset(xs)[xs[j]] == multiset(xs[..j])[xs[j]] + multiset(xs[j..])[xs[j]];
    assert multiset(xs[..j])[xs[i]] >= 1;
  }

  lemma {:induction false} OrderedHasNoDuplicates(xs: seq<Question>)
    requires forall a, b :: 0 <= a < b < |xs| ==> Before(xs[a], xs[b])
    ensures NoDuplicates(xs)
    decreases |xs|
  {
    if |xs| > 0 {
      var tail := xs[1..];
      OrderedHasNoDuplicates(tail);
      assert xs == [xs[0]] + tail;
      assert xs[0] !in tail by {
        forall b | 0 <= b < |tail|
          ensures tail[b] != xs[0]
        {
          assert Before(xs[0], xs[b + 1]);
        }
      }
      forall q
        ensures multiset(xs)[q] <= 1
      {
        assert multiset(xs)[q] == multiset{xs[0]}[q] + multiset(tail)[q];
      }
    }
  }

  /**
    Starting from an empty pool, `createQuestions` yields `tablesUpTo * 12`
    pairwise distinct questions, exactly those of the grid.
   */
  lemma CreatedPoolIsTheGrid(tablesUpTo: int, order: (int, int) -> bool)
    requires tablesUpTo >= 1
    ensures |CreateQuestions([], tablesUpTo, order)| == tablesUpTo * 12
    ensures forall q :: q in CreateQuestions([], tablesUpTo, order) <==> InGrid(q, tablesUpTo, order)
    ensures NoDuplicates(CreateQuestions([], tablesUpTo, order))
  {
    var r := CreateQuestions([], tablesUpTo, order);
    assert r[0..] == r;
    OrderedHasNoDuplicates(r);
  }
}
