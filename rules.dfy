/**
 * The two shapes the dashboard's classifiers take: an `if / else if` chain
 * whose first satisfied test wins, and a ladder of score thresholds.
 */
module Rules {

  /** One arm of an `if / else if` chain: its test and what it yields. */
  datatype Rule<T> = Rule(fires: bool, result: T)

  /** The result of the first arm whose test holds, else the final `else`. */
  function FirstMatch<T>(rules: seq<Rule<T>>, fallback: T): T
    decreases |rules|
  {
    if rules == [] then fallback
    else if rules[0].fires then rules[0].result
    else FirstMatch(rules[1..], fallback)
  }

  /** The earliest arm that fires decides, whatever the later arms say. */
  lemma {:induction false} FirstMatchEarliest<T>(rules: seq<Rule<T>>, fallback: T, k: nat)
    requires k < |rules| && rules[k].fires
    requires forall j :: 0 <= j < k ==> !rules[j].fires
    ensures FirstMatch(rules, fallback) == rules[k].result
    decreases k
  {
    if k > 0 {
      FirstMatchEarliest(rules[1..], fallback, k - 1);
    }
  }

  /** When no arm fires the chain falls through to its `else`. */
  lemma {:induction false} FirstMatchFallback<T>(rules: seq<Rule<T>>, fallback: T)
    requires forall j :: 0 <= j < |rules| ==> !rules[j].fires
    ensures FirstMatch(rules, fallback) == fallback
    decreases |rules|
  {
    if rules != [] {
      FirstMatchFallback(rules[1..], fallback);
    }
  }

  predicate Ascending(thresholds: seq<int>)
  {
    forall i, j :: 0 <= i < j < |thresholds| ==> thresholds[i] < thresholds[j]
  }

  /**
   * The band a score falls in on a ladder of ascending thresholds: the
   * number of thresholds it reaches, so band 0 is below the lowest rung.
   */
  function Band(thresholds: seq<int>, score: int): (b: nat)
    ensures b <= |thresholds|
    decreases |thresholds|
  {
    if thresholds == [] then 0
    else (if thresholds[0] <= score then 1 else 0) + Band(thresholds[1..], score)
  }

  /** A higher score never lands in a lower band. */
  lemma {:induction false} BandMonotone(thresholds: seq<int>, s: int, t: int)
    requires s <= t
    ensures Band(thresholds, s) <= Band(thresholds, t)
    decreases |thresholds|
  {
    if thresholds != [] {
      BandMonotone(thresholds[1..], s, t);
    }
  }

  /**
   * On an ascending ladder, band `k` is exactly the scores from rung `k - 1`
   * (inclusive) up to rung `k` (exclusive).
   */
  lemma {:induction false} BandExact(thresholds: seq<int>, score: int, k: nat)
    requires Ascending(thresholds) && k <= |thresholds|
    ensures Band(thresholds, score) == k <==>
      (k == 0 || thresholds[k - 1] <= score) && (k == |thresholds| || score < thresholds[k])
    decreases |thresholds|
  {
    if thresholds != [] {
      var rest := thresholds[1..];
      assert Ascending(rest) by {
        forall i, j | 0 <= i < j < |rest| ensures rest[i] < rest[j] {
          assert rest[i] == thresholds[i + 1] && rest[j] == thresholds[j + 1];
        }
      }
      if thresholds[0] <= score {
        if k > 0 {
          BandExact(rest, score, k - 1);
        } else {
          BandExact(rest, score, 0);
          BandAtLeastOne(thresholds, score);
        }
      } else {
        BandBelow(thresholds, score);
      }
    }
  }

  lemma BandAtLeastOne(thresholds: seq<int>, score: int)
    requires thresholds != [] && thresholds[0] <= score
    ensures Band(thresholds, score) >= 1
  {
  }

  /** Below the lowest rung of an ascending ladder the band is 0. */
  lemma {:induction false} BandBelow(thresholds: seq<int>, score: int)
    requires Ascending(thresholds) && thresholds != [] && score < thresholds[0]
    ensures Band(thresholds, score) == 0
    decreases |thresholds|
  {
    var rest := thresholds[1..];
    if rest != [] {
      assert Ascending(rest) by {
        forall i, j | 0 <= i < j < |rest| ensures rest[i] < rest[j] {
          assert rest[i] == thresholds[i + 1] && rest[j] == thresholds[j + 1];
        }
      }
      assert thresholds[0] < thresholds[1];
      BandBelow(rest, score);
    }
  }

  /** Position of `d` in `table`, or -1 when it is not there. */
  function Rank<T(==)>(table: seq<T>, d: T): (i: int)
    ensures -1 <= i < |table|
    ensures 0 <= i ==> table[i] == d
    decreases |table|
  {
    if table == [] then -1
    else if table[0] == d then 0
    else var r := Rank(table[1..], d); if r < 0 then -1 else r + 1
  }

  predicate Distinct<T(==)>(table: seq<T>)
  {
    forall i, j :: 0 <= i < j < |table| ==> table[i] != table[j]
  }

  /** In a table without repeats, each entry's rank is its position. */
  lemma {:induction false} RankOfDistinct<T>(table: seq<T>, k: nat)
    requires Distinct(table) && k < |table|
    ensures Rank(table, table[k]) == k
    decreases |table|
  {
    if k > 0 {
      var rest := table[1..];
      assert Distinct(rest) by {
        forall i, j | 0 <= i < j < |rest| ensures rest[i] != rest[j] {
          assert rest[i] == table[i + 1] && rest[j] == table[j + 1];
        }
      }
      assert table[0] != table[k];
      RankOfDistinct(rest, k - 1);
    }
  }
}
