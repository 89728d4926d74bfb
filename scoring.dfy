/**
 * The colour the administrator's user registry gives a credit score. The
 * three modelled files carry the same ladder: red below 550, orange below
 * 650, yellow below 700, green from 700.
 */
module Scoring {
  import opened Rules

  const ColorThresholds: seq<int> := [550, 650, 700]

  /** Red, orange, yellow, green. */
  const ScoreColors: seq<string> := ["#ff6b6b", "#ffa500", "#ffeb3b", "#4ade80"]

  /** The registry colour of a score: the colour of the band the score reaches. */
  function ScoreColor(score: int): (r: string)
    ensures r == ScoreColors[Band(ColorThresholds, score)]
  {
    if score < 550 then "#ff6b6b"
    else if score < 650 then "#ffa500"
    else if score < 700 then "#ffeb3b"
    else "#4ade80"
  }

  /** A higher score is never shown in a colour further down the ladder. */
  lemma ScoreColorMonotone(s: int, t: int)
    requires s <= t
    ensures Rank(ScoreColors, ScoreColor(s)) <= Rank(ScoreColors, ScoreColor(t))
  {
    BandMonotone(ColorThresholds, s, t);
    RankOfDistinct(ScoreColors, Band(ColorThresholds, s));
    RankOfDistinct(ScoreColors, Band(ColorThresholds, t));
  }
}
